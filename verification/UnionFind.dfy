/** The disjoint-set forest of the decomposer: a parent map with path compression. */
module UnionFind {

  type Parents = map<nat, nat>

  /** What a parent map means: the root above every element, and a distance that parents decrease. */
  datatype Shape = Shape(root: map<nat, nat>, dist: map<nat, nat>)

  ghost predicate Climbs(p: Parents, s: Shape, x: nat)
    requires x in p && p.Keys == s.root.Keys == s.dist.Keys
  {
    var r := s.root[x];
    && p[x] in p && r in p
    && s.root[p[x]] == r && p[r] == r && s.root[r] == r
    && (p[x] == x ==> r == x)
    && (p[x] != x ==> s.dist[p[x]] < s.dist[x])
    && (r != x ==> s.dist[r] < s.dist[x])
  }

  ghost predicate Forest(p: Parents, s: Shape) {
    && p.Keys == s.root.Keys == s.dist.Keys
    && forall x {:trigger Climbs(p, s, x)} :: x in p ==> Climbs(p, s, x)
  }

  /** The roots are a function of the parent map. */
  lemma {:induction false} RootsAreUnique(p: Parents, s: Shape, t: Shape, x: nat)
    requires Forest(p, s) && Forest(p, t) && x in p
    ensures s.root[x] == t.root[x]
    decreases s.dist[x]
  {
    assert Climbs(p, s, x) && Climbs(p, t, x);
    if p[x] != x {
      RootsAreUnique(p, s, t, p[x]);
    }
  }

  /** Every element its own root. */
  lemma SingletonsForest(p: Parents)
    requires forall x :: x in p ==> p[x] == x
    ensures Forest(p, Shape(p, p))
  {
    var s := Shape(p, p);
    forall x | x in p
      ensures Climbs(p, s, x)
    {
    }
  }

  lemma CompressionKeepsShape(p: Parents, s: Shape, x: nat)
    requires Forest(p, s) && x in p && p[x] != x
    ensures Forest(p[x := s.root[x]], s)
  {
    var q := p[x := s.root[x]];
    assert Climbs(p, s, x);
    assert s.root[x] in p && Climbs(p, s, s.root[x]);
    assert q.Keys == p.Keys;
    forall y | y in q
      ensures Climbs(q, s, y)
    {
      assert Climbs(p, s, y);
    }
  }

  /** Find terminates, returns the root, and compresses the path without changing any root. */
  method Find(p: Parents, ghost s: Shape, x: nat) returns (root: nat, q: Parents)
    requires Forest(p, s) && x in p
    ensures root == s.root[x]
    ensures Forest(q, s)
    ensures p[x] == x || q[x] == root
    decreases s.dist[x]
  {
    assert Climbs(p, s, x);
    if p[x] == x {
      return x, p;
    }
    root, q := Find(p, s, p[x]);
    assert Climbs(q, s, x);
    CompressionKeepsShape(q, s, x);
    q := q[x := root];
  }

  /** The shape after the tree of `ra` is hung below another root `rb`. */
  ghost function Hang(s: Shape, ra: nat, rb: nat): Shape
    requires s.root.Keys == s.dist.Keys && rb in s.dist
  {
    Shape(map x | x in s.root :: if s.root[x] == ra then rb else s.root[x],
          map x | x in s.dist :: if s.root[x] == ra then s.dist[x] + s.dist[rb] + 1 else s.dist[x])
  }

  lemma HangingIsForest(p: Parents, s: Shape, ra: nat, rb: nat)
    requires Forest(p, s) && ra in p && rb in p && s.root[ra] == ra && s.root[rb] == rb && ra != rb
    ensures Forest(p[ra := rb], Hang(s, ra, rb))
  {
    var q, t := p[ra := rb], Hang(s, ra, rb);
    assert Climbs(p, s, ra) && Climbs(p, s, rb);
    assert q.Keys == p.Keys;
    forall y | y in q
      ensures Climbs(q, t, y)
    {
      assert Climbs(p, s, y);
      assert p[y] in p && Climbs(p, s, p[y]);
    }
  }

  /** The roots after a union: the tree of `a` takes the root of `b`, the others keep theirs. */
  ghost predicate Merged(s: Shape, t: Shape, a: nat, b: nat) {
    && s.root.Keys == t.root.Keys && a in s.root && b in s.root
    && forall y :: y in s.root ==> t.root[y] == if s.root[y] == s.root[a] then s.root[b] else s.root[y]
  }

  /** Union merges the trees of `a` and `b`; the other elements keep their roots. */
  method Union(p: Parents, ghost s: Shape, a: nat, b: nat) returns (q: Parents, ghost t: Shape)
    requires Forest(p, s) && a in p && b in p
    ensures q.Keys == p.Keys && Forest(q, t)
    ensures Merged(s, t, a, b)
  {
    assert Climbs(p, s, a) && Climbs(p, s, b);
    var ra, rb;
    ra, q := Find(p, s, a);
    rb, q := Find(q, s, b);
    t := s;
    if ra != rb {
      HangingIsForest(q, s, ra, rb);
      t := Hang(s, ra, rb);
      q := q[ra := rb];
    }
  }
}
