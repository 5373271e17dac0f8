/** The two slug makers of the repository, on lowercased text. */
module Slug {
  import opened Collections

  type Classifier = char -> bool

  const DASH: char := '-'

  function Dashed(s: string, alnum: Classifier): (r: string)
    ensures |r| == |s| && forall i :: 0 <= i < |s| ==> r[i] == if alnum(s[i]) then s[i] else DASH
  {
    seq(|s|, i requires 0 <= i < |s| => if alnum(s[i]) then s[i] else DASH)
  }

  // --------------------------------------------------- split, drop the empty, join

  /** The pieces between hyphens, empty ones included. */
  function Split(s: string): (r: seq<string>)
    ensures r != []
  {
    if s == "" then [""]
    else
      var front, c := Split(s[..|s|-1]), s[|s|-1];
      if c == DASH then front + [""] else front[|front|-1 := front[|front|-1] + [c]]
  }

  function NonEmpty(words: seq<string>): seq<string> {
    if words == [] then []
    else NonEmpty(words[..|words|-1]) + if words[|words|-1] == "" then [] else [words[|words|-1]]
  }

  function Join(words: seq<string>): string {
    if words == [] then ""
    else if |words| == 1 then words[0]
    else Join(words[..|words|-1]) + [DASH] + words[|words|-1]
  }

  function Slugify(s: string, alnum: Classifier): string {
    Join(NonEmpty(Split(Dashed(s, alnum))))
  }

  // ----------------------------------------------------------- collapse, then trim

  predicate EndsWithDash(s: string) {
    s != "" && s[|s|-1] == DASH
  }

  /** Keep the first of every run of hyphens. */
  function Collapse(s: string): string {
    if s == "" then ""
    else
      var front, c := s[..|s|-1], s[|s|-1];
      if c != DASH then Collapse(front) + [c]
      else if EndsWithDash(front) then Collapse(front)
      else Collapse(front) + [DASH]
  }

  function TrimStart(s: string): string {
    if s != "" && s[0] == DASH then TrimStart(s[1..]) else s
  }

  function TrimEnd(s: string): string {
    if EndsWithDash(s) then TrimEnd(s[..|s|-1]) else s
  }

  function Trim(s: string): string {
    TrimEnd(TrimStart(s))
  }

  method HandoffSlug(s: string, alnum: Classifier) returns (r: string)
    requires !alnum(DASH)
    ensures r == Slugify(s, alnum)
  {
    var slug := seq(|s|, i requires 0 <= i < |s| => if alnum(s[i]) || s[i] == DASH then s[i] else DASH);
    assert slug == Dashed(s, alnum);
    var collapsed, prevHyphen := "", false;
    for k := 0 to |slug|
      invariant collapsed == Collapse(slug[..k])
      invariant prevHyphen <==> EndsWithDash(slug[..k])
    {
      assert slug[..k+1][..k] == slug[..k];
      if slug[k] == DASH {
        if !prevHyphen {
          collapsed := collapsed + [DASH];
        }
        prevHyphen := true;
      } else {
        collapsed := collapsed + [slug[k]];
        prevHyphen := false;
      }
    }
    assert slug[..|slug|] == slug;
    CollapseTrimIsSplitJoin(slug);
    r := Trim(collapsed);
  }

  // ------------------------------------------------------------- both are one function

  /** Words separated by single hyphens, built letter by letter. */
  function Words(s: string): string {
    if s == "" then ""
    else
      var front, c := s[..|s|-1], s[|s|-1];
      if c == DASH then Words(front)
      else if (front == "" || EndsWithDash(front)) && Words(front) != "" then Words(front) + [DASH, c]
      else Words(front) + [c]
  }

  lemma NonEmptySnoc(words: seq<string>, w: string)
    ensures NonEmpty(words + [w]) == NonEmpty(words) + if w == "" then [] else [w]
  {
    assert (words + [w])[..|words|] == words;
  }

  lemma JoinSnoc(words: seq<string>, w: string)
    ensures Join(words + [w]) == if words == [] then w else Join(words) + [DASH] + w
  {
    assert (words + [w])[..|words|] == words;
  }

  /** A letter after an empty piece starts a word; after a nonempty one it extends the last word. */
  lemma LetterJoins(init: seq<string>, last: string, c: char)
    ensures var words := NonEmpty(init + [last]);
            Join(NonEmpty(init + [last + [c]])) ==
            if last == "" && words != [] then Join(words) + [DASH, c] else Join(words) + [c]
    ensures NonEmpty(init + [last + [c]]) != []
  {
    var first := NonEmpty(init);
    NonEmptySnoc(init, last);
    NonEmptySnoc(init, last + [c]);
    JoinSnoc(first, last + [c]);
    hide NonEmpty, Join;
    if last == "" {
      assert last + [c] == [c] && first + [] == first;
      assert Join(first) + [DASH] + [c] == Join(first) + [DASH, c];
      EmptyJoin();
    } else {
      JoinSnoc(first, last);
      assert Join(first) + [DASH] + (last + [c]) == Join(first) + [DASH] + last + [c];
    }
  }

  lemma EmptyJoin()
    ensures Join([]) == "" && forall c: char :: "" + [c] == [c]
  {
  }

  lemma WordsSnoc(front: string, c: char)
    ensures Words(front + [c]) ==
              if c == DASH then Words(front)
              else if (front == "" || EndsWithDash(front)) && Words(front) != "" then Words(front) + [DASH, c]
              else Words(front) + [c]
    ensures EndsWithDash(front + [c]) <==> c == DASH
  {
    assert (front + [c])[..|front|] == front;
  }

  /** Pieces that join to the words of `s`: the last is empty at the start and after a hyphen only. */
  ghost predicate Spells(pieces: seq<string>, s: string) {
    && pieces != []
    && Join(NonEmpty(pieces)) == Words(s)
    && (pieces[|pieces|-1] == "" <==> s == "" || EndsWithDash(s))
    && (NonEmpty(pieces) == [] <==> Words(s) == "")
  }

  lemma SpellsDash(pieces: seq<string>, front: string)
    requires Spells(pieces, front)
    ensures Spells(pieces + [""], front + [DASH])
  {
    WordsSnoc(front, DASH);
    NonEmptySnoc(pieces, "");
    hide NonEmpty, Join, Words, EndsWithDash;
    assert NonEmpty(pieces) + [] == NonEmpty(pieces);
  }

  lemma SpellsLetter(init: seq<string>, last: string, front: string, c: char)
    requires Spells(init + [last], front) && c != DASH
    ensures Spells(init + [last + [c]], front + [c])
  {
    WordsSnoc(front, c);
    LetterJoins(init, last, c);
    hide NonEmpty, Join, Words, EndsWithDash;
    assert (init + [last])[|init|] == last;
  }

  lemma {:induction false} SplitSpells(s: string)
    ensures Spells(Split(s), s)
  {
    if s == "" {
      assert [""][..0] == [] && NonEmpty([""]) == [];
    } else {
      var front, c := s[..|s|-1], s[|s|-1];
      assert s == front + [c];
      SplitSpells(front);
      var pieces := Split(front);
      var init, last := pieces[..|pieces|-1], pieces[|pieces|-1];
      assert pieces == init + [last];
      hide *;
      if c == DASH {
        SpellsDash(pieces, front);
      } else {
        SpellsLetter(init, last, front, c);
      }
    }
  }

  lemma SplitJoinIsWords(s: string)
    ensures Join(NonEmpty(Split(s))) == Words(s)
  {
    SplitSpells(s);
  }

  /** Starts and ends with a letter, and never two hyphens in a row. */
  ghost predicate Clean(s: string) {
    && (s != "" ==> s[0] != DASH && s[|s|-1] != DASH)
    && forall i :: 0 <= i < |s| - 1 ==> SomeLetter(s, i)
  }

  ghost predicate SomeLetter(s: string, i: int)
    requires 0 <= i < |s| - 1
  {
    s[i] != DASH || s[i+1] != DASH
  }

  lemma {:induction false} WordsAreClean(s: string)
    ensures Clean(Words(s))
  {
    if s != "" {
      var front := Words(s[..|s|-1]);
      WordsAreClean(s[..|s|-1]);
      assert forall i :: 0 <= i < |front| - 1 ==> SomeLetter(front, i);
      forall i | 0 <= i < |Words(s)| - 1
        ensures SomeLetter(Words(s), i)
      {
        assert i < |front| - 1 ==> SomeLetter(front, i);
      }
    }
  }

  /** Collapsing gives the words, with a hyphen kept where the text starts or ends with hyphens. */
  lemma {:induction false} CollapseIsWords(s: string)
    ensures var tail := if EndsWithDash(s) && Words(s) != "" then [DASH] else "";
            var head := if s != "" && s[0] == DASH then [DASH] else "";
            Collapse(s) == head + Words(s) + tail
  {
    if s != "" {
      var front, c := s[..|s|-1], s[|s|-1];
      CollapseIsWords(front);
      assert front != "" ==> front[0] == s[0];
    }
  }

  lemma TrimIsWords(s: string, head: string, tail: string)
    requires Clean(s) && (head == "" || head == [DASH]) && (tail == "" || (tail == [DASH] && s != ""))
    ensures Trim(head + s + tail) == s
  {
    var t := s + tail;
    assert head + s + tail == head + t;
    assert TrimStart(t) == t;
    assert head == [DASH] ==> (head + t)[1..] == t;
    assert TrimStart(head + t) == t;
    assert tail == [DASH] ==> t[..|t|-1] == s;
    assert tail == "" ==> t == s;
    assert TrimEnd(s) == s;
  }

  /** Collapsing and trimming is splitting, dropping the empty pieces and joining. */
  lemma CollapseTrimIsSplitJoin(s: string)
    ensures Trim(Collapse(s)) == Join(NonEmpty(Split(s)))
  {
    SplitJoinIsWords(s);
    CollapseIsWords(s);
    WordsAreClean(s);
    var head := if s != "" && s[0] == DASH then [DASH] else "";
    var tail := if EndsWithDash(s) && Words(s) != "" then [DASH] else "";
    TrimIsWords(Words(s), head, tail);
  }

  lemma SlugIsClean(s: string, alnum: Classifier)
    ensures Clean(Slugify(s, alnum))
  {
    SplitJoinIsWords(Dashed(s, alnum));
    WordsAreClean(Dashed(s, alnum));
  }

  lemma {:induction false} CleanIsItsWords(s: string)
    requires forall i :: 0 <= i < |s| - 1 ==> SomeLetter(s, i)
    requires s != "" ==> s[0] != DASH
    ensures Words(s) == if EndsWithDash(s) then s[..|s|-1] else s
    ensures s != "" ==> Words(s) != ""
  {
    if s != "" {
      var front, n := s[..|s|-1], |s| - 1;
      forall i | 0 <= i < |front| - 1
        ensures SomeLetter(front, i)
      {
        assert SomeLetter(s, i);
      }
      CleanIsItsWords(front);
      assert n > 0 ==> SomeLetter(s, n - 1);
      assert s == front + [s[n]];
      if n > 0 && EndsWithDash(front) {
        assert front == front[..|front|-1] + [DASH];
        assert s == front[..|front|-1] + [DASH, s[n]];
      }
    }
  }

  lemma {:induction false} WordsAreLetters(s: string, alnum: Classifier)
    requires forall i :: 0 <= i < |s| ==> s[i] == DASH || alnum(s[i])
    ensures forall i :: 0 <= i < |Words(s)| ==> Words(s)[i] == DASH || alnum(Words(s)[i])
  {
    if s != "" {
      WordsAreLetters(s[..|s|-1], alnum);
    }
  }

  /** A slug of a slug is the slug, for either maker. */
  lemma SlugIsIdempotent(s: string, alnum: Classifier)
    requires !alnum(DASH)
    ensures Slugify(Slugify(s, alnum), alnum) == Slugify(s, alnum)
  {
    var d := Dashed(s, alnum);
    SplitJoinIsWords(d);
    var r := Slugify(s, alnum);
    WordsAreClean(d);
    WordsAreLetters(d, alnum);
    assert Dashed(r, alnum) == r;
    SplitJoinIsWords(r);
    CleanIsItsWords(r);
  }

  /** What is left of a text without its hyphens. */
  function Letters(s: string): string {
    if s == "" then ""
    else if s[|s|-1] == DASH then Letters(s[..|s|-1])
    else Letters(s[..|s|-1]) + [s[|s|-1]]
  }

  lemma {:induction false} WordsKeepLetters(s: string)
    ensures Letters(Words(s)) == Letters(s)
  {
    if s != "" {
      var front, c := s[..|s|-1], s[|s|-1];
      assert s == front + [c];
      WordsKeepLetters(front);
      WordsSnoc(front, c);
      var words := Words(front);
      hide *;
      assert words + [DASH] + [c] == words + [DASH, c];
      assert Letters(words) + "" == Letters(words);
    }
  }

  lemma {:induction false} DashedLetters(s: string, alnum: Classifier)
    requires !alnum(DASH)
    ensures Letters(Dashed(s, alnum)) == Filter(alnum, s)
  {
    if s != "" {
      var front, c := s[..|s|-1], s[|s|-1];
      DashedLetters(front, alnum);
      assert Dashed(s, alnum) == Dashed(front, alnum) + [if alnum(c) then c else DASH];
    }
  }

  /** A slug has exactly the text's letters and digits, in order. */
  lemma SlugKeepsLetters(s: string, alnum: Classifier)
    requires !alnum(DASH)
    ensures Letters(Slugify(s, alnum)) == Filter(alnum, s)
  {
    SplitJoinIsWords(Dashed(s, alnum));
    WordsKeepLetters(Dashed(s, alnum));
    DashedLetters(s, alnum);
  }

  // --------------------------------------------------------------- where the hyphens are

  predicate NoneAlnum(s: string, alnum: Classifier) {
    forall i :: 0 <= i < |s| ==> !alnum(s[i])
  }

  lemma {:induction false} TrailingDashes(s: string, sep: string)
    requires forall i :: 0 <= i < |sep| ==> sep[i] == DASH
    ensures Words(s + sep) == Words(s)
    ensures EndsWithDash(s + sep) <==> sep != "" || EndsWithDash(s)
  {
    if sep == "" {
      assert s + sep == s;
    } else {
      var front := sep[..|sep|-1];
      TrailingDashes(s, front);
      assert s + sep == (s + front) + [DASH];
      WordsSnoc(s + front, DASH);
    }
  }

  /** A part that starts with a letter continues the last word, or starts a new one after a hyphen. */
  lemma {:induction false} WordsContinue(s: string, part: string)
    requires part != "" && part[0] != DASH
    ensures Words(part) != ""
    ensures Words(s + part) == Words(s) + (if EndsWithDash(s) && Words(s) != "" then [DASH] else "") + Words(part)
  {
    var front, c := part[..|part|-1], part[|part|-1];
    assert part == front + [c] && s + part == (s + front) + [c];
    WordsSnoc(front, c);
    WordsSnoc(s + front, c);
    if front == "" {
      assert s + front == s && Words(front) == "";
    } else {
      WordsContinue(s, front);
      assert EndsWithDash(s + front) <==> EndsWithDash(front);
      hide Words, EndsWithDash;
      ContinueOne(Words(s) + (if EndsWithDash(s) && Words(s) != "" then [DASH] else ""), Words(front), c);
    }
  }

  lemma ContinueOne(before: string, words: string, c: char)
    ensures before + words + [DASH, c] == before + (words + [DASH, c])
    ensures before + words + [c] == before + (words + [c])
  {
  }

  lemma DashedAppends(a: string, b: string, alnum: Classifier)
    ensures Dashed(a + b, alnum) == Dashed(a, alnum) + Dashed(b, alnum)
  {
  }

  /** Separators at the end leave no trace, and text without letters has no slug. */
  lemma TrailingSeparators(s: string, sep: string, alnum: Classifier)
    requires NoneAlnum(sep, alnum)
    ensures Slugify(s + sep, alnum) == Slugify(s, alnum) && Slugify(sep, alnum) == ""
  {
    DashedAppends(s, sep, alnum);
    TrailingDashes(Dashed(s, alnum), Dashed(sep, alnum));
    TrailingDashes("", Dashed(sep, alnum));
    assert "" + Dashed(sep, alnum) == Dashed(sep, alnum);
    SplitJoinIsWords(Dashed(s, alnum));
    SplitJoinIsWords(Dashed(sep, alnum));
    SplitJoinIsWords(Dashed(s + sep, alnum));
  }

  /** Separators between a letter and a letter become one hyphen; at the start they leave no trace. */
  lemma SeparatorsBecomeOneHyphen(a: string, sep: string, b: string, alnum: Classifier)
    requires !alnum(DASH) && NoneAlnum(sep, alnum)
    requires b != "" && alnum(b[0]) && (a != "" ==> alnum(a[|a|-1]))
    ensures Slugify((a + sep) + b, alnum) ==
              Slugify(a, alnum) + (if a != "" && sep != "" then "-" else "") + Slugify(b, alnum)
  {
    var da, ds, db := Dashed(a, alnum), Dashed(sep, alnum), Dashed(b, alnum);
    DashedAppends(a, sep, alnum);
    DashedAppends(a + sep, b, alnum);
    TrailingDashes(da, ds);
    WordsContinue(da + ds, db);
    assert a != "" ==> !EndsWithDash(da) && Words(da) != "";
    SplitJoinIsWords(da);
    SplitJoinIsWords(db);
    SplitJoinIsWords((da + ds) + db);
    hide Words, Split, Join, NonEmpty, Dashed, EndsWithDash;
    assert [DASH] == "-";
  }

  /** A text of letters and digits is its own slug. */
  lemma {:induction false} LettersAreTheirSlug(s: string, alnum: Classifier)
    requires !alnum(DASH) && forall i :: 0 <= i < |s| ==> alnum(s[i])
    ensures Slugify(s, alnum) == s
  {
    assert Dashed(s, alnum) == s;
    SplitJoinIsWords(s);
    WordsOfLetters(s);
  }

  lemma {:induction false} WordsOfLetters(s: string)
    requires forall i :: 0 <= i < |s| ==> s[i] != DASH
    ensures Words(s) == s
  {
    if s != "" {
      WordsOfLetters(s[..|s|-1]);
    }
  }
}
