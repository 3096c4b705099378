/**
 Page tables as trees: which frame each index path names, what each leaf says, and
 what a write to memory does to them.
 */
module PageTree {
  import opened PageWalk

  /** Paths that do not start in the recursive slot. */
  predicate Outside(p: seq<bv9>) { p == [] || p[0] != FRACTAL }

  lemma OutsidePrefix(p: seq<bv9>, k: nat)
    requires Outside(p) && k <= |p|
    ensures Outside(p[..k])
  {
  }

  /** No table frame is reached along two paths. */
  ghost predicate Injective(m: Mem, r: bv64)
  {
    forall p, q {:trigger Node(m, r, p), Node(m, r, q)} ::
      |p| <= 3 && |q| <= 3 && Outside(p) && Outside(q) && Node(m, r, p).Some? && Node(m, r, p) == Node(m, r, q) ==>
          p == q
  }

  lemma InjectiveAt(m: Mem, r: bv64, p: seq<bv9>, q: seq<bv9>)
    requires Injective(m, r) && |p| <= 3 && |q| <= 3 && Outside(p) && Outside(q)
    requires Node(m, r, p).Some? && Node(m, r, p) == Node(m, r, q)
    ensures p == q
  {
    hide Node;
  }

  /** The word of the entry that leads to the table of p; zero where there is no table above it. */
  function Link(m: Mem, r: bv64, p: seq<bv9>): bv64
    requires |p| > 0
  {
    match Node(m, r, p[..|p| - 1])
    case None => 0
    case Some(t) => Word(m, t, p[|p| - 1])
  }

  /** An entry of an upper table that takes no right away: writable, user-accessible, executable. */
  predicate Grants(w: bv64) { w & JUST_WRITABLE != 0 && w & USER != 0 && w & NO_EXECUTE == 0 }

  /** No upper table takes a right away. */
  ghost predicate Open(m: Mem, r: bv64)
  {
    forall p {:trigger Node(m, r, p)} :: 1 <= |p| <= 3 && Outside(p) && Node(m, r, p).Some? ==> Grants(Link(m, r, p))
  }

  /** No table frame is in the set. */
  ghost predicate NoneIn(m: Mem, r: bv64, free: set<bv64>)
  {
    forall p {:trigger Node(m, r, p)} :: |p| <= 3 && Outside(p) && Node(m, r, p).Some? ==> Node(m, r, p).value !in free
  }

  /** The word of a leaf; zero where there is no table for it. */
  function Leaf(m: Mem, r: bv64, q: seq<bv9>): bv64
    requires |q| == 4
  {
    match Node(m, r, q[..3])
    case None => 0
    case Some(t) => Word(m, t, q[3])
  }

  /** The page's frame and permission bits, when it is mapped. */
  function Mapping(m: Mem, r: bv64, q: seq<bv9>): Option<(bv64, bv64)>
    requires |q| == 4
  {
    var w := Leaf(m, r, q);
    if Present(w) then Some((FrameOf(w), w & PERMISSIONS_MASK)) else None
  }

  lemma AbsentWithoutTable(m: Mem, r: bv64, q: seq<bv9>, k: nat)
    requires |q| == 4 && k <= 3 && Node(m, r, q[..k]) == None
    ensures Node(m, r, q[..3]) == None && Leaf(m, r, q) == 0
  {
    hide Node;
    assert q[..3][..k] == q[..k];
    if Node(m, r, q[..3]).Some? {
      NodePrefix(m, r, q[..3], k);
    }
  }

  // ---------------------------------------------------------------------
  // Writes that keep every table where it is.

  /** m' differs from m at most inside the frames x and at word i of frame t. */
  ghost predicate Quiet(m: Mem, m': Mem, x: set<bv64>, t: bv64, i: bv9)
  {
    forall f, j {:trigger Word(m', f, j)} :: f !in x && !(f == t && j == i) ==> Word(m', f, j) == Word(m, f, j)
  }

  lemma EntryKept(m: Mem, m': Mem, x: set<bv64>, t: bv64, i: bv9, f: bv64, j: bv9)
    requires Quiet(m, m', x, t, i) && f !in x && !(f == t && j == i)
    ensures Entry(m', f, j) == Entry(m, f, j)
  {
    hide Word, Present, FrameOf;
  }

  /** The walk along p is the same if no table it reads is touched. */
  lemma {:induction false} WalkKept(m: Mem, m': Mem, r: bv64, x: set<bv64>, t: bv64, i: bv9, p: seq<bv9>)
    requires Quiet(m, m', x, t, i)
    requires forall k :: 0 <= k < |p| && Node(m, r, p[..k]).Some? ==> Node(m, r, p[..k]).value !in x + {t}
    ensures Node(m', r, p) == Node(m, r, p)
    decreases |p|
  {
    hide Entry, Node, Quiet;
    NodeEmpty(m, r);
    NodeEmpty(m', r);
    if p != [] {
      var n := |p| - 1;
      var pp := p[..n];
      assert p == pp + [p[n]];
      forall k | 0 <= k < |pp| && Node(m, r, pp[..k]).Some?
        ensures Node(m, r, pp[..k]).value !in x + {t}
      {
        assert pp[..k] == p[..k];
      }
      WalkKept(m, m', r, x, t, i, pp);
      NodeStep(m, r, pp, p[n]);
      NodeStep(m', r, pp, p[n]);
      if Node(m, r, pp).Some? {
        EntryKept(m, m', x, t, i, Node(m, r, pp).value, p[n]);
      }
    }
  }

  /** A write inside non-table frames or to one leaf moves no table. */
  lemma NodeKept(m: Mem, m': Mem, r: bv64, x: set<bv64>, pt: seq<bv9>, t: bv64, i: bv9, p: seq<bv9>)
    requires Injective(m, r) && NoneIn(m, r, x) && Quiet(m, m', x, t, i)
    requires |pt| == 3 && Outside(pt) && Node(m, r, pt) == Some(t) && |p| <= 3 && Outside(p)
    ensures Node(m', r, p) == Node(m, r, p)
  {
    hide Node, Quiet, Injective;
    forall k | 0 <= k < |p| && Node(m, r, p[..k]).Some?
      ensures Node(m, r, p[..k]).value !in x + {t}
    {
      OutsidePrefix(p, k);
      if Node(m, r, p[..k]).value == t {
        InjectiveAt(m, r, p[..k], pt);
      }
    }
    WalkKept(m, m', r, x, t, i, p);
  }

  lemma LeafKept(m: Mem, m': Mem, r: bv64, x: set<bv64>, pt: seq<bv9>, t: bv64, i: bv9, q: seq<bv9>)
    requires Injective(m, r) && NoneIn(m, r, x) && Quiet(m, m', x, t, i)
    requires |pt| == 3 && Outside(pt) && Node(m, r, pt) == Some(t) && |q| == 4 && Outside(q) && q != pt + [i]
    ensures Leaf(m', r, q) == Leaf(m, r, q)
  {
    hide Node, Injective, Word;
    OutsidePrefix(q, 3);
    NodeKept(m, m', r, x, pt, t, i, q[..3]);
    assert q == q[..3] + [q[3]];
    if Node(m, r, q[..3]) == Some(t) {
      InjectiveAt(m, r, q[..3], pt);
    }
  }

  /** The tree stays a tree, in the same frames. */
  lemma TreeKept(m: Mem, m': Mem, r: bv64, x: set<bv64>, pt: seq<bv9>, t: bv64, i: bv9, free: set<bv64>)
    requires SelfMap(m, r) && Injective(m, r) && NoneIn(m, r, x) && NoneIn(m, r, free) && Quiet(m, m', x, t, i)
    requires |pt| == 3 && Outside(pt) && Node(m, r, pt) == Some(t)
    ensures SelfMap(m', r) && Injective(m', r) && NoneIn(m', r, free)
  {
    hide Node, Quiet, Injective;
    forall p: seq<bv9> | |p| <= 3 && Outside(p)
      ensures Node(m', r, p) == Node(m, r, p)
    {
      NodeKept(m, m', r, x, pt, t, i, p);
    }
    InjectiveKept(m, m', r);
    SelfMapKept(m, m', r, x, pt, t, i);
  }

  lemma InjectiveKept(m: Mem, m': Mem, r: bv64)
    requires Injective(m, r) && forall p :: |p| <= 3 && Outside(p) ==> Node(m', r, p) == Node(m, r, p)
    ensures Injective(m', r)
  {
    hide Node;
  }

  lemma SelfMapKept(m: Mem, m': Mem, r: bv64, x: set<bv64>, pt: seq<bv9>, t: bv64, i: bv9)
    requires SelfMap(m, r) && Injective(m, r) && NoneIn(m, r, x) && Quiet(m, m', x, t, i)
    requires |pt| == 3 && Outside(pt) && Node(m, r, pt) == Some(t)
    ensures SelfMap(m', r)
  {
    hide Node, Quiet, Injective, Entry;
    NodeEmpty(m, r);
    if r == t {
      InjectiveAt(m, r, [], pt);
    }
    EntryKept(m, m', x, t, i, r, FRACTAL);
  }

  // ---------------------------------------------------------------------
  // A new table.

  /** Memory after the entry for path p is set to w and the table's frame f is cleared. */
  function WithTable(m: Mem, t: bv64, i: bv9, w: bv64, f: bv64): Mem
  {
    Clear(Write(m, t, i, w), f)
  }

  lemma WithTableEntry(m: Mem, t: bv64, i: bv9, w: bv64, f: bv64, g: bv64, j: bv9)
    requires t != f && Present(w) && FrameOf(w) == f
    ensures Entry(WithTable(m, t, i, w, f), g, j)
            == if g == f then None else if g == t && j == i then Some(f) else Entry(m, g, j)
  {
    hide Word, FrameOf;
  }

  ghost predicate Hangs(m: Mem, r: bv64, p: seq<bv9>, t: bv64, w: bv64, f: bv64)
  {
    && 1 <= |p| <= 3 && Outside(p) && Injective(m, r) && NoneIn(m, r, {f})
    && Node(m, r, p[..|p| - 1]) == Some(t) && Entry(m, t, p[|p| - 1]) == None
    && Present(w) && FrameOf(w) == f && Grants(w)
  }

  /** The new table is reached along p, nothing below it, and all else as before. */
  lemma {:induction false} NodeWithTable(m: Mem, r: bv64, p: seq<bv9>, t: bv64, w: bv64, f: bv64, q: seq<bv9>)
    requires Hangs(m, r, p, t, w, f) && |q| <= 4 && Outside(q)
    ensures var m' := WithTable(m, t, p[|p| - 1], w, f);
            Node(m', r, q) == if q == p then Some(f) else if p <= q then None else Node(m, r, q)
    decreases |q|
  {
    hide Node, Entry, WithTable, Injective, Present, FrameOf;
    var m' := WithTable(m, t, p[|p| - 1], w, f);
    NodeEmpty(m, r);
    NodeEmpty(m', r);
    if q != [] {
      var n := |q| - 1;
      var qq := q[..n];
      assert q == qq + [q[n]];
      NodeWithTable(m, r, p, t, w, f, qq);
      NodeStep(m, r, qq, q[n]);
      NodeStep(m', r, qq, q[n]);
      NewParent(m, r, p, t, w, f, qq, q[n]);
    }
  }

  lemma NewParent(m: Mem, r: bv64, p: seq<bv9>, t: bv64, w: bv64, f: bv64, qq: seq<bv9>, j: bv9)
    requires Hangs(m, r, p, t, w, f) && |qq| <= 3 && Outside(qq)
    ensures t != f
    ensures var m' := WithTable(m, t, p[|p| - 1], w, f);
            && Entry(m', f, j) == None
            && (Node(m, r, qq).Some? ==>
                  Entry(m', Node(m, r, qq).value, j) == if qq + [j] == p then Some(f)
                      else Entry(m, Node(m, r, qq).value, j))
  {
    hide Node, Entry, WithTable, Injective, Present, FrameOf;
    var pp := p[..|p| - 1];
    OutsidePrefix(p, |p| - 1);
    assert p == pp + [p[|p| - 1]];
    WithTableEntry(m, t, p[|p| - 1], w, f, f, j);
    if Node(m, r, qq).Some? {
      var g := Node(m, r, qq).value;
      WithTableEntry(m, t, p[|p| - 1], w, f, g, j);
      if g == t {
        InjectiveAt(m, r, qq, pp);
      }
      assert (qq + [j])[..|qq|] == qq;
    }
  }

  lemma LeafWithTable(m: Mem, r: bv64, p: seq<bv9>, t: bv64, w: bv64, f: bv64, q: seq<bv9>)
    requires Hangs(m, r, p, t, w, f) && |q| == 4 && Outside(q)
    ensures Leaf(WithTable(m, t, p[|p| - 1], w, f), r, q) == Leaf(m, r, q)
  {
    hide Node, Entry, Injective, Present, FrameOf, Word;
    var m', k := WithTable(m, t, p[|p| - 1], w, f), |p|;
    OutsidePrefix(q, 3);
    NodeWithTable(m, r, p, t, w, f, q[..3]);
    if p <= q[..3] {
      NotThere(m, r, p, t, w, f);
      assert q[..k] == p;
      AbsentWithoutTable(m, r, q, k);
    } else if Node(m, r, q[..3]).Some? {
      OutsidePrefix(p, k - 1);
      if Node(m, r, q[..3]).value == t {
        InjectiveAt(m, r, q[..3], p[..k - 1]);
      }
    }
  }

  lemma NotThere(m: Mem, r: bv64, p: seq<bv9>, t: bv64, w: bv64, f: bv64)
    requires Hangs(m, r, p, t, w, f)
    ensures Node(m, r, p) == None
  {
    hide Entry, Injective, Present, FrameOf;
    assert p == p[..|p| - 1] + [p[|p| - 1]];
    NodeStep(m, r, p[..|p| - 1], p[|p| - 1]);
  }

  lemma TreeWithTable(m: Mem, r: bv64, p: seq<bv9>, t: bv64, w: bv64, f: bv64, free: set<bv64>)
    requires Hangs(m, r, p, t, w, f) && SelfMap(m, r) && NoneIn(m, r, free) && f !in free
    ensures var m' := WithTable(m, t, p[|p| - 1], w, f); SelfMap(m', r) && Injective(m', r) && NoneIn(m', r, free)
  {
    hide Node, Entry, Injective, Present, FrameOf, WithTable;
    var m' := WithTable(m, t, p[|p| - 1], w, f);
    forall q: seq<bv9> | |q| <= 3 && Outside(q)
      ensures Node(m', r, q) == if q == p then Some(f) else if p <= q then None else Node(m, r, q)
    {
      NodeWithTable(m, r, p, t, w, f, q);
    }
    InjectiveWithTable(m, m', r, p, t, w, f);
    NodeEmpty(m, r);
    NewParent(m, r, p, t, w, f, [], FRACTAL);
    assert [] + [FRACTAL] == [FRACTAL];
  }

  lemma InjectiveWithTable(m: Mem, m': Mem, r: bv64, p: seq<bv9>, t: bv64, w: bv64, f: bv64)
    requires Hangs(m, r, p, t, w, f)
    requires forall q: seq<bv9> :: |q| <= 3 && Outside(q) ==>
               Node(m', r, q) == if q == p then Some(f) else if p <= q then None else Node(m, r, q)
    ensures Injective(m', r)
  {
    hide Node, Entry, Present, FrameOf;
  }

  // ---------------------------------------------------------------------
  // Reading tables.

  /** No table met along p is in the set. */
  ghost predicate Upper(m: Mem, r: bv64, p: seq<bv9>, free: set<bv64>)
  {
    forall k {:trigger p[..k]} :: 0 <= k <= |p| && Node(m, r, p[..k]).Some? ==> Node(m, r, p[..k]).value !in free
  }

  lemma UpperPrefix(m: Mem, r: bv64, p: seq<bv9>, n: nat, free: set<bv64>)
    requires Upper(m, r, p, free) && n <= |p|
    ensures Upper(m, r, p[..n], free)
  {
    hide Node;
    forall k | 0 <= k <= n
      ensures p[..n][..k] == p[..k]
    {
    }
  }

  lemma UpperOf(m: Mem, r: bv64, p: seq<bv9>, free: set<bv64>)
    requires NoneIn(m, r, free) && Outside(p) && |p| <= 3
    ensures Upper(m, r, p, free)
  {
    hide Node;
    forall k | 0 <= k <= |p|
      ensures Outside(p[..k])
    {
    }
  }

  /** The hardware walk to a table's own address meets only the tables above it. */
  lemma TableWalk(m: Mem, r: bv64, p: seq<bv9>, free: set<bv64>)
    requires SelfMap(m, r) && |p| <= 3 && Upper(m, r, p, free)
    ensures Upper(m, r, Path(TableAddress(p)), free)
  {
    hide Node, Path, TableAddress, SelfMap;
    PathOfTable(p);
    var n := 4 - |p|;
    var a := seq(n, _ => FRACTAL) + p;
    forall k | 0 <= k <= 4 && Node(m, r, a[..k]).Some?
      ensures Node(m, r, a[..k]).value !in free
    {
      if k <= n {
        assert a[..k] == seq(k, _ => FRACTAL) + p[..0];
        FractalPrefix(m, r, k, p[..0]);
      } else {
        assert a[..k] == seq(n, _ => FRACTAL) + p[..k - n];
        FractalPrefix(m, r, n, p[..k - n]);
      }
    }
  }

  // ---------------------------------------------------------------------
  // Two states of one address space.

  /** Tables stay where they are, new ones lie on the way to q, and only the leaves pv and q may change. */
  ghost predicate Evolves(m: Mem, m': Mem, r: bv64, pv: seq<bv9>, q: seq<bv9>)
  {
    && (forall p {:trigger Node(m, r, p)} :: |p| <= 3 && Outside(p) && Node(m, r, p).Some? ==>
          Node(m', r, p) == Node(m, r, p))
    && (forall p {:trigger Node(m', r, p)} :: |p| <= 3 && Outside(p) && Node(m', r, p).Some? ==>
          Node(m, r, p).Some? || p <= q)
    && (forall l {:trigger Leaf(m', r, l)} :: |l| == 4 && Outside(l) && l != pv && l != q ==>
          Leaf(m', r, l) == Leaf(m, r, l))
    && (Open(m, r) ==> Open(m', r))
  }

  lemma EvolvesThrough(m: Mem, m1: Mem, m2: Mem, r: bv64, pv: seq<bv9>, q: seq<bv9>)
    requires Evolves(m, m1, r, pv, q) && Evolves(m1, m2, r, pv, q)
    ensures Evolves(m, m2, r, pv, q)
  {
    hide Node, Leaf, Open;
  }

  lemma OpenWithTable(m: Mem, r: bv64, p: seq<bv9>, t: bv64, w: bv64, f: bv64)
    requires Hangs(m, r, p, t, w, f)
    ensures Open(m, r) ==> Open(WithTable(m, t, p[|p| - 1], w, f), r)
  {
    hide Node, Injective, Grants, NoneIn;
    var m' := WithTable(m, t, p[|p| - 1], w, f);
    if Open(m, r) {
      forall l {:trigger Node(m', r, l)} | 1 <= |l| <= 3 && Outside(l) && Node(m', r, l).Some?
        ensures Grants(Link(m', r, l))
      {
        LinkWithTable(m, r, p, t, w, f, l);
      }
    }
  }

  lemma LinkWithTable(m: Mem, r: bv64, p: seq<bv9>, t: bv64, w: bv64, f: bv64, l: seq<bv9>)
    requires Hangs(m, r, p, t, w, f) && 1 <= |l| <= 3 && Outside(l)
    requires Node(WithTable(m, t, p[|p| - 1], w, f), r, l).Some?
    ensures Link(WithTable(m, t, p[|p| - 1], w, f), r, l) == if l == p then w else Link(m, r, l)
    ensures l != p ==> Node(m, r, l).Some?
  {
    hide Node, Injective, Grants, Word, WithTable, NoneIn, Present, FrameOf, Entry;
    var m' := WithTable(m, t, p[|p| - 1], w, f);
    var n := |l| - 1;
    OutsidePrefix(l, n);
    NodeWithTable(m, r, p, t, w, f, l);
    NodeWithTable(m, r, p, t, w, f, l[..n]);
    NodePrefix(m', r, l, n);
    assert p <= l[..n] ==> p <= l && l != p;
    var g := Node(m, r, l[..n]).value;
    WordWithTable(m, t, p[|p| - 1], w, f, g, l[n]);
    NotNew(m, r, p, t, w, f, l[..n]);
    SameSlot(m, r, p, t, w, f, l);
  }

  lemma NotNew(m: Mem, r: bv64, p: seq<bv9>, t: bv64, w: bv64, f: bv64, a: seq<bv9>)
    requires Hangs(m, r, p, t, w, f) && |a| <= 3 && Outside(a) && Node(m, r, a).Some?
    ensures Node(m, r, a).value != f
  {
    hide Node, Injective, Grants, Present, FrameOf, Entry;
  }

  lemma SameSlot(m: Mem, r: bv64, p: seq<bv9>, t: bv64, w: bv64, f: bv64, l: seq<bv9>)
    requires Hangs(m, r, p, t, w, f) && 1 <= |l| <= 3 && Outside(l)
    ensures Node(m, r, l[..|l| - 1]) == Some(t) && l[|l| - 1] == p[|p| - 1] <==> l == p
  {
    hide Node, Injective, Grants, NoneIn, Present, FrameOf, Entry;
    var n, k := |l| - 1, |p| - 1;
    assert l == l[..n] + [l[n]] && p == p[..k] + [p[k]];
    OutsidePrefix(l, n);
    OutsidePrefix(p, k);
    if Node(m, r, l[..n]) == Some(t) {
      InjectiveAt(m, r, l[..n], p[..k]);
    }
  }

  lemma WordWithTable(m: Mem, t: bv64, i: bv9, w: bv64, f: bv64, g: bv64, j: bv9)
    ensures Word(WithTable(m, t, i, w, f), g, j)
            == if g == f then 0 else if g == t && j == i then w else Word(m, g, j)
  {
  }

  lemma OpenKept(m: Mem, m': Mem, r: bv64, x: set<bv64>, pt: seq<bv9>, t: bv64, i: bv9)
    requires Injective(m, r) && NoneIn(m, r, x) && Quiet(m, m', x, t, i)
    requires |pt| == 3 && Outside(pt) && Node(m, r, pt) == Some(t)
    ensures Open(m, r) ==> Open(m', r)
  {
    hide Node, Quiet, Injective, Grants, Link;
    if Open(m, r) {
      forall l {:trigger Node(m', r, l)} | 1 <= |l| <= 3 && Outside(l) && Node(m', r, l).Some?
        ensures Grants(Link(m', r, l))
      {
        NodeKept(m, m', r, x, pt, t, i, l);
        LinkKept(m, m', r, x, pt, t, i, l);
      }
    }
  }

  lemma LinkKept(m: Mem, m': Mem, r: bv64, x: set<bv64>, pt: seq<bv9>, t: bv64, i: bv9, l: seq<bv9>)
    requires Injective(m, r) && NoneIn(m, r, x) && Quiet(m, m', x, t, i)
    requires |pt| == 3 && Outside(pt) && Node(m, r, pt) == Some(t) && 1 <= |l| <= 3 && Outside(l)
    ensures Link(m', r, l) == Link(m, r, l)
  {
    hide Node, Injective, Word;
    var n := |l| - 1;
    OutsidePrefix(l, n);
    NodeKept(m, m', r, x, pt, t, i, l[..n]);
    if Node(m, r, l[..n]) == Some(t) {
      InjectiveAt(m, r, l[..n], pt);
    }
  }

  /** A new table below an existing one. */
  lemma EvolvesWithTable(m: Mem, r: bv64, p: seq<bv9>, t: bv64, w: bv64, f: bv64, pv: seq<bv9>, q: seq<bv9>)
    requires Hangs(m, r, p, t, w, f) && p <= q
    ensures Evolves(m, WithTable(m, t, p[|p| - 1], w, f), r, pv, q)
    ensures |q| == 4 && Outside(q) ==> Leaf(WithTable(m, t, p[|p| - 1], w, f), r, q) == Leaf(m, r, q)
  {
    hide Node, Leaf, WithTable, Open;
    var m' := WithTable(m, t, p[|p| - 1], w, f);
    OpenWithTable(m, r, p, t, w, f);
    forall l: seq<bv9> | |l| == 4 && Outside(l)
      ensures Leaf(m', r, l) == Leaf(m, r, l)
    {
      LeafWithTable(m, r, p, t, w, f, l);
    }
    forall l: seq<bv9> | |l| <= 3 && Outside(l)
      ensures Node(m', r, l) == if l == p then Some(f) else if p <= l then None else Node(m, r, l)
    {
      NodeWithTable(m, r, p, t, w, f, l);
    }
    NotThere(m, r, p, t, w, f);
    forall l | p <= l && |l| <= 3
      ensures Node(m, r, l) == None
    {
      if Node(m, r, l).Some? {
        NodePrefix(m, r, l, |p|);
      }
    }
  }

  /** Stores that touch no table but one leaf of it. */
  lemma EvolvesQuietly(m: Mem, m': Mem, r: bv64, x: set<bv64>, pt: seq<bv9>, t: bv64, i: bv9, pv: seq<bv9>, q: seq<bv9>)
    requires Injective(m, r) && NoneIn(m, r, x) && Quiet(m, m', x, t, i)
    requires |pt| == 3 && Outside(pt) && Node(m, r, pt) == Some(t) && (pt + [i] == pv || pt + [i] == q)
    ensures Evolves(m, m', r, pv, q)
    ensures |q| == 4 && Outside(q) && q != pt + [i] ==> Leaf(m', r, q) == Leaf(m, r, q)
  {
    hide Node, Leaf, Quiet, Injective, NoneIn, Open;
    OpenKept(m, m', r, x, pt, t, i);
    forall l: seq<bv9> | |l| == 4 && Outside(l) && l != pt + [i]
      ensures Leaf(m', r, l) == Leaf(m, r, l)
    {
      LeafKept(m, m', r, x, pt, t, i, l);
    }
    forall l: seq<bv9> | |l| <= 3 && Outside(l)
      ensures Node(m', r, l) == Node(m, r, l)
    {
      NodeKept(m, m', r, x, pt, t, i, l);
    }
  }
}
