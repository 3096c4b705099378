/** unmap_range and map_range: consecutive pages, all of them or none. */
module PageRanges {
  import opened PageWalk
  import opened PageTree
  import opened FrameStack
  import opened Pivot
  import opened PagedSteps
  import opened Paging
  import opened AddressSpace

  /** The i-th page from an address on. */
  function PageAt(v: bv64, i: nat): bv64
  {
    if i == 0 then v else Offset(PageAt(v, i - 1), PAGE)
  }

  lemma PageAfter(v: bv64, i: nat)
    ensures PageAt(v, 0) == v && PageAt(v, i + 1) == Offset(PageAt(v, i), PAGE) && PathAt(v, i) == Path(PageAt(v, i))
  {
  }

  function PathAt(v: bv64, i: nat): (p: seq<bv9>)
    ensures |p| == 4
  {
    Path(PageAt(v, i))
  }

  ghost predicate AllOrdinary(v: bv64, n: nat, pv: seq<bv9>)
  {
    forall i {:trigger PathAt(v, i)} :: 0 <= i < n ==> Ordinary(PathAt(v, i), pv)
  }

  ghost predicate InRange(q: seq<bv9>, v: bv64, n: nat)
  {
    exists i {:trigger PathAt(v, i)} :: 0 <= i < n && q == PathAt(v, i)
  }

  lemma InRangeStep(q: seq<bv9>, v: bv64, n: nat)
    ensures InRange(q, v, n + 1) <==> InRange(q, v, n) || q == PathAt(v, n)
  {
    hide PathAt;
    if InRange(q, v, n + 1) && q != PathAt(v, n) {
      var i :| 0 <= i < n + 1 && q == PathAt(v, i);
      assert i < n;
    }
    assert q == PathAt(v, n) ==> InRange(q, v, n + 1);
  }

  // ---------------------------------------------------------------------
  // unmap_range

  /** Every page of the range is unmapped, every other one is as it was. */
  ghost predicate RangeCleared(m: Mem, m': Mem, r: bv64, pv: seq<bv9>, v: bv64, n: nat)
  {
    && KeepsRights(m, m', r)
    && forall l {:trigger Mapping(m', r, l)} :: Ordinary(l, pv) ==>
         Mapping(m', r, l) == if InRange(l, v, n) then None else Mapping(m, r, l)
  }

  lemma OthersKept(m: Mem, m': Mem, r: bv64, pv: seq<bv9>, q: seq<bv9>, l: seq<bv9>)
    requires OnlyPage(m, m', r, pv, q) && Ordinary(l, pv) && l != q
    ensures Leaf(m', r, l) == Leaf(m, r, l) && Mapping(m', r, l) == Mapping(m, r, l)
  {
    hide Leaf, AllSafe, Open;
  }

  lemma ClearedStep(m: Mem, m1: Mem, m2: Mem, r: bv64, pv: seq<bv9>, v: bv64, n: nat)
    requires RangeCleared(m, m1, r, pv, v, n) && OnlyPage(m1, m2, r, pv, PathAt(v, n))
             && Mapping(m2, r, PathAt(v, n)) == None
    ensures RangeCleared(m, m2, r, pv, v, n + 1)
  {
    hide PathAt, AllSafe, Open, InRange, Leaf, Mapping;
    forall l | Ordinary(l, pv)
      ensures Mapping(m2, r, l) == if InRange(l, v, n + 1) then None else Mapping(m, r, l)
    {
      InRangeStep(l, v, n);
      if l != PathAt(v, n) {
        OthersKept(m1, m2, r, pv, PathAt(v, n), l);
      }
    }
  }

  /** unmap_range without freeing. */
  method UnmapRange(k: Kernel, virt: bv64, count: nat)
    requires k.Paged() && AllOrdinary(virt, count, Path(k.pivot))
    modifies k`mem, k`physicalPage, k`stack
    ensures k.Paged() && k.stack == old(k.stack) && RangeCleared(old(k.mem), k.mem, k.cr3, Path(k.pivot), virt, count)
  {
    hide PagedOk, RangeCleared, Path, OnlyPage, Mapping, Ordinary, PageAt, PathAt, Offset;
    ghost var m := k.mem;
    NothingCleared(m, k.cr3, Path(k.pivot), virt);
    PageAfter(virt, 0);
    var v := virt;
    for i := 0 to count
      invariant k.Paged() && v == PageAt(virt, i) && k.stack == old(k.stack)
      invariant RangeCleared(m, k.mem, k.cr3, Path(k.pivot), virt, i)
    {
      ghost var m1 := k.mem;
      PageAfter(virt, i);
      Unmap(k, v);
      ClearedStep(m, m1, k.mem, k.cr3, Path(k.pivot), virt, i);
      v := Offset(v, PAGE);
    }
  }

  lemma NothingCleared(m: Mem, r: bv64, pv: seq<bv9>, v: bv64)
    ensures RangeCleared(m, m, r, pv, v, 0)
  {
    hide AllSafe, Open, Mapping;
  }

  // ---------------------------------------------------------------------
  // unmap_range with freeing

  /** Page q has a leaf, and the allocator takes the frame it names. */
  ghost predicate GivesBack(m: Mem, r: bv64, q: seq<bv9>)
    requires |q| == 4
  {
    Node(m, r, q[..3]).Some? && Frees(FrameOf(Leaf(m, r, q)))
  }

  /** The frames of the pages from i on are not free, no tables, and no two are the same. */
  ghost predicate RangeReturnable(m: Mem, r: bv64, free: set<bv64>, v: bv64, i: nat, n: nat)
  {
    && (forall j {:trigger PathAt(v, j)} :: i <= j < n && GivesBack(m, r, PathAt(v, j)) ==>
          FrameOf(Leaf(m, r, PathAt(v, j))) !in free && NoneIn(m, r, {FrameOf(Leaf(m, r, PathAt(v, j)))}))
    && (forall j, l {:trigger PathAt(v, j), PathAt(v, l)} ::
          i <= j < l < n && GivesBack(m, r, PathAt(v, j)) && GivesBack(m, r, PathAt(v, l)) ==>
            FrameOf(Leaf(m, r, PathAt(v, j))) != FrameOf(Leaf(m, r, PathAt(v, l))))
  }

  /** Every page from i on has no leaf, or one whose frame the allocator takes. */
  ghost predicate AllFree(m: Mem, r: bv64, v: bv64, i: nat, n: nat)
  {
    forall j {:trigger PathAt(v, j)} :: i <= j < n ==>
        Node(m, r, PathAt(v, j)[..3]).None? || GivesBack(m, r, PathAt(v, j))
  }

  /** The frames that the first n pages name. */
  ghost function NamedBy(m: Mem, r: bv64, v: bv64, n: nat): set<bv64>
  {
    if n == 0 then {} else NamedBy(m, r, v, n - 1) + Named(m, r, PathAt(v, n - 1))
  }

  /** The pages from i on are as they were. */
  ghost predicate Ahead(m: Mem, m': Mem, r: bv64, v: bv64, i: nat, n: nat)
  {
    forall j {:trigger PathAt(v, j)} :: i <= j < n ==>
      Node(m', r, PathAt(v, j)[..3]) == Node(m, r, PathAt(v, j)[..3])
          && Leaf(m', r, PathAt(v, j)) == Leaf(m, r, PathAt(v, j))
  }

  /** Clearing a leaf that is there makes no table. */
  lemma SameTables(m: Mem, m': Mem, r: bv64, pv: seq<bv9>, q: seq<bv9>, p: seq<bv9>)
    requires |q| == 4 && Node(m, r, q[..3]).Some? && Evolves(m, m', r, pv, q) && |p| <= 3 && Outside(p)
    ensures Node(m', r, p) == Node(m, r, p)
  {
    hide Node, Leaf;
    if Node(m', r, p).Some? && p <= q {
      assert q[..3][..|p|] == p;
      NodePrefix(m, r, q[..3], |p|);
    }
  }

  lemma NoneInKept(m: Mem, m': Mem, r: bv64, pv: seq<bv9>, q: seq<bv9>, x: set<bv64>)
    requires |q| == 4 && Node(m, r, q[..3]).Some? && Evolves(m, m', r, pv, q) && NoneIn(m, r, x)
    ensures NoneIn(m', r, x)
  {
    hide Node, Evolves;
    forall p | |p| <= 3 && Outside(p) && Node(m', r, p).Some?
      ensures Node(m', r, p).value !in x
    {
      SameTables(m, m', r, pv, q, p);
    }
  }

  /** Page j, while page i before it is freed. */
  lemma FreedOther(m: Mem, m': Mem, r: bv64, pv: seq<bv9>, free: set<bv64>, free': set<bv64>, v: bv64, i: nat, j: nat,
                   n: nat)
    requires i < j < n && AllOrdinary(v, n, pv) && RangeReturnable(m, r, free, v, i, n)
             && free' == free + Named(m, r, PathAt(v, i))
    requires GivesBack(m, r, PathAt(v, i)) && Evolves(m, m', r, pv, PathAt(v, i))
    ensures var l := PathAt(v, j);
            && Node(m', r, l[..3]) == Node(m, r, l[..3]) && Leaf(m', r, l) == Leaf(m, r, l)
            && (GivesBack(m', r, l) ==> FrameOf(Leaf(m', r, l)) !in free' && NoneIn(m', r, {FrameOf(Leaf(m', r, l))}))
  {
    hide Node, Leaf, PathAt, NoneIn, Frees, FrameOf, Evolves;
    var q, l := PathAt(v, i), PathAt(v, j);
    assert l != q;
    OtherPage(m, m', r, pv, q, l);
    if GivesBack(m, r, l) {
      NoneInKept(m, m', r, pv, q, {FrameOf(Leaf(m, r, l))});
    }
  }

  /** Freeing page i leaves the pages after it as they are, and their frames returnable. */
  lemma FreedStep(m: Mem, m': Mem, r: bv64, pv: seq<bv9>, free: set<bv64>, free': set<bv64>, v: bv64, i: nat, n: nat)
    requires i < n && AllOrdinary(v, n, pv) && RangeReturnable(m, r, free, v, i, n)
             && free' == free + Named(m, r, PathAt(v, i))
    requires Node(m, r, PathAt(v, i)[..3]).None? ==> m' == m
    requires Node(m, r, PathAt(v, i)[..3]).Some? ==>
               GivesBack(m, r, PathAt(v, i)) && Evolves(m, m', r, pv, PathAt(v, i))
    ensures Ahead(m, m', r, v, i + 1, n) && RangeReturnable(m', r, free', v, i + 1, n)
  {
    hide Node, Leaf, PathAt, NoneIn, Frees, FrameOf, Evolves;
    if Node(m, r, PathAt(v, i)[..3]).Some? {
      forall j | i + 1 <= j < n
        ensures var l := PathAt(v, j);
                && Node(m', r, l[..3]) == Node(m, r, l[..3]) && Leaf(m', r, l) == Leaf(m, r, l)
                && (GivesBack(m', r, l) ==>
                      FrameOf(Leaf(m', r, l)) !in free' && NoneIn(m', r, {FrameOf(Leaf(m', r, l))}))
      {
        FreedOther(m, m', r, pv, free, free', v, i, j, n);
      }
    }
  }

  lemma OtherPage(m: Mem, m': Mem, r: bv64, pv: seq<bv9>, q: seq<bv9>, l: seq<bv9>)
    requires |q| == 4 && Node(m, r, q[..3]).Some? && Evolves(m, m', r, pv, q) && Ordinary(l, pv)
    requires l != q
    ensures Node(m', r, l[..3]) == Node(m, r, l[..3]) && Leaf(m', r, l) == Leaf(m, r, l)
  {
    OutsidePrefix(l, 3);
    SameTables(m, m', r, pv, q, l[..3]);
    hide Node, Leaf;
  }

  /**
   unmap_range with freeing: every page is unmapped and the frames their leaves name
   are free afterwards. It trips an assertion of the allocator exactly if some leaf
   names no frame that the allocator takes.
   */
  method UnmapRangeAndFree(k: Kernel, virt: bv64, count: nat) returns (trips: bool)
    requires k.Paged() && AllOrdinary(virt, count, Path(k.pivot))
             && RangeReturnable(k.mem, k.cr3, Pages(k.stack), virt, 0, count)
    modifies k`mem, k`physicalPage, k`stack
    ensures trips <==> !AllFree(old(k.mem), k.cr3, virt, 0, count)
    ensures !trips ==> k.Paged() && RangeCleared(old(k.mem), k.mem, k.cr3, Path(k.pivot), virt, count)
    ensures !trips ==> Pages(k.stack) == Pages(old(k.stack)) + NamedBy(old(k.mem), k.cr3, virt, count)
  {
    hide PagedOk, RangeCleared, Path, OnlyPage, Mapping, Ordinary, PageAt, PathAt, Offset, RangeReturnable, AllFree,
         Ahead, NamedBy, Named, Pages, Node, Leaf, Frees, FrameOf, Evolves;
    ghost var m, r, pv := k.mem, k.cr3, Path(k.pivot);
    NothingCleared(m, r, pv, virt);
    NothingFreed(m, r, virt, count);
    PageAfter(virt, 0);
    var v := virt;
    for i := 0 to count
      invariant k.Paged() && v == PageAt(virt, i) && RangeCleared(m, k.mem, r, pv, virt, i)
      invariant RangeReturnable(k.mem, r, Pages(k.stack), virt, i, count) && Ahead(m, k.mem, r, virt, i, count)
      invariant Pages(k.stack) == Pages(old(k.stack)) + NamedBy(m, r, virt, i)
      invariant AllFree(m, r, virt, 0, count) <==> AllFree(k.mem, r, virt, i, count)
    {
      ghost var m1, free1 := k.mem, Pages(k.stack);
      PageAfter(virt, i);
      NextReturnable(m1, r, free1, virt, i, count);
      trips := UnmapAndFree(k, v);
      if trips {
        return;
      }
      FreedStep(m1, k.mem, r, pv, free1, Pages(k.stack), virt, i, count);
      AheadStep(m, m1, k.mem, r, virt, i, count);
      FreeStill(m1, k.mem, r, virt, i, count);
      ClearedStep(m, m1, k.mem, r, pv, virt, i);
      v := Offset(v, PAGE);
    }
    trips := false;
    AllDone(k.mem, r, virt, count);
  }

  lemma NothingFreed(m: Mem, r: bv64, v: bv64, n: nat)
    ensures NamedBy(m, r, v, 0) == {} && Ahead(m, m, r, v, 0, n)
  {
  }

  lemma AllDone(m: Mem, r: bv64, v: bv64, n: nat)
    ensures AllFree(m, r, v, n, n)
  {
  }

  lemma NextReturnable(m: Mem, r: bv64, free: set<bv64>, v: bv64, i: nat, n: nat)
    requires i < n && RangeReturnable(m, r, free, v, i, n)
    ensures var q := PathAt(v, i);
            && (GivesBack(m, r, q) ==> FrameOf(Leaf(m, r, q)) !in free && NoneIn(m, r, {FrameOf(Leaf(m, r, q))}))
            && (Node(m, r, q[..3]).Some? && !Frees(FrameOf(Leaf(m, r, q))) ==> !AllFree(m, r, v, i, n))
  {
    hide Node, Leaf, PathAt, NoneIn, Frees, FrameOf;
  }

  lemma AheadStep(m: Mem, m1: Mem, m2: Mem, r: bv64, v: bv64, i: nat, n: nat)
    requires i < n && Ahead(m, m1, r, v, i, n) && Ahead(m1, m2, r, v, i + 1, n)
    ensures Ahead(m, m2, r, v, i + 1, n) && NamedBy(m, r, v, i + 1) == NamedBy(m, r, v, i) + Named(m1, r, PathAt(v, i))
  {
    hide Node, Leaf, PathAt, FrameOf;
    forall j | i + 1 <= j < n
      ensures Node(m2, r, PathAt(v, j)[..3]) == Node(m, r, PathAt(v, j)[..3])
              && Leaf(m2, r, PathAt(v, j)) == Leaf(m, r, PathAt(v, j))
    {
      assert Node(m1, r, PathAt(v, j)[..3]) == Node(m, r, PathAt(v, j)[..3]);
    }
  }

  lemma FreeStill(m1: Mem, m2: Mem, r: bv64, v: bv64, i: nat, n: nat)
    requires i < n && Ahead(m1, m2, r, v, i + 1, n)
    requires Node(m1, r, PathAt(v, i)[..3]).None? || GivesBack(m1, r, PathAt(v, i))
    ensures AllFree(m1, r, v, i, n) <==> AllFree(m2, r, v, i + 1, n)
  {
    hide Node, Leaf, PathAt, Frees, FrameOf;
    if AllFree(m2, r, v, i + 1, n) {
      forall j | i <= j < n
        ensures Node(m1, r, PathAt(v, j)[..3]).None? || GivesBack(m1, r, PathAt(v, j))
      {
        if j > i {
          assert Leaf(m2, r, PathAt(v, j)) == Leaf(m1, r, PathAt(v, j));
        }
      }
    }
  }

  // ---------------------------------------------------------------------
  // Frames needed.

  /** The upper tables that pages i to n of a range run through. */
  function TablesOf(v: bv64, i: nat, n: nat): set<seq<bv9>>
  {
    set j: nat, k: nat | i <= j < n && 1 <= k <= 3 :: PathAt(v, j)[..k]
  }

  /** Those of them that do not exist. */
  function MissingTables(m: Mem, r: bv64, v: bv64, i: nat, n: nat): set<seq<bv9>>
  {
    set p | p in TablesOf(v, i, n) && Node(m, r, p).None?
  }

  function MissingOf(m: Mem, r: bv64, q: seq<bv9>): (s: set<seq<bv9>>)
    requires |q| == 4
    ensures |s| == Missing(m, r, q)
  {
    hide Node;
    Lengths(q);
    if Missing(m, r, q) == 0 then {} else if Missing(m, r, q) == 1 then {q[..3]}
    else if Missing(m, r, q) == 2 then {q[..2], q[..3]} else {q[..1], q[..2], q[..3]}
  }

  lemma Lengths(q: seq<bv9>)
    requires |q| == 4
    ensures |{q[..3]}| == 1 && |{q[..2], q[..3]}| == 2 && |{q[..1], q[..2], q[..3]}| == 3
  {
    var a, b, c := q[..1], q[..2], q[..3];
    assert |a| == 1 && |b| == 2 && |c| == 3;
    assert {b, c} == {b} + {c} && {a, b, c} == {a} + {b, c};
  }

  lemma MissingOfIs(m: Mem, r: bv64, q: seq<bv9>, p: seq<bv9>)
    requires |q| == 4
    ensures p in MissingOf(m, r, q) <==> exists k :: 1 <= k <= 3 && p == q[..k] && Node(m, r, p).None?
  {
    hide Node, Missing;
    Depths(m, r, q);
    if p in MissingOf(m, r, q) {
      assert p == q[..1] || p == q[..2] || p == q[..3];
      assert p == q[..|p|];
    }
  }

  lemma MissingOfWithin(m: Mem, r: bv64, v: bv64, i: nat, n: nat)
    requires i < n
    ensures MissingOf(m, r, PathAt(v, i)) <= MissingTables(m, r, v, i, n)
  {
    hide Node, MissingOf, PathAt;
    forall p | p in MissingOf(m, r, PathAt(v, i))
      ensures p in MissingTables(m, r, v, i, n)
    {
      MissingOfIs(m, r, PathAt(v, i), p);
    }
  }

  lemma SubsetSize<T>(a: set<T>, b: set<T>)
    requires a <= b
    ensures |a| <= |b| && |b - a| == |b| - |a|
  {
    assert b == a + (b - a);
  }

  /** Mapping a page makes its missing tables, which are among the range's, and no others. */
  lemma TablesNeeded(m: Mem, m': Mem, r: bv64, pv: seq<bv9>, v: bv64, i: nat, n: nat)
    requires i < n && AllOrdinary(v, n, pv) && Evolves(m, m', r, pv, PathAt(v, i))
             && Node(m', r, PathAt(v, i)[..3]).Some?
    ensures |MissingTables(m', r, v, i + 1, n)| == |MissingTables(m, r, v, i, n)| - Missing(m, r, PathAt(v, i))
  {
    hide Node, MissingOf, PathAt, Missing, Leaf, Ordinary;
    var q, a, b := PathAt(v, i), MissingTables(m, r, v, i, n), MissingTables(m', r, v, i + 1, n);
    MissingOfWithin(m, r, v, i, n);
    SubsetSize(MissingOf(m, r, q), a);
    forall p | p in b
      ensures p in a - MissingOf(m, r, q)
    {
      StillMissing(m, m', r, pv, v, i, n, p);
      if p in MissingOf(m, r, q) {
        MissingOfIs(m, r, q, p);
        MadeTable(m', r, q, p);
      }
    }
    forall p | p in a - MissingOf(m, r, q)
      ensures p in b
    {
      MissingOfIs(m, r, q, p);
      OthersMissing(m, m', r, pv, v, i, n, p);
    }
    assert b == a - MissingOf(m, r, q);
  }

  /** A missing table that is not one of page i is still missing, and needed by a later page. */
  lemma OthersMissing(m: Mem, m': Mem, r: bv64, pv: seq<bv9>, v: bv64, i: nat, n: nat, p: seq<bv9>)
    requires i < n && AllOrdinary(v, n, pv) && Evolves(m, m', r, pv, PathAt(v, i)) && p in MissingTables(m, r, v, i, n)
    requires !exists k :: 1 <= k <= 3 && p == PathAt(v, i)[..k] && Node(m, r, p).None?
    ensures p in MissingTables(m', r, v, i + 1, n)
  {
    hide Node, PathAt, Leaf;
    var j: nat, k: nat :| i <= j < n && 1 <= k <= 3 && p == PathAt(v, j)[..k];
    OutsidePrefix(PathAt(v, j), k);
    assert j != i;
    assert p in TablesOf(v, i + 1, n);
    assert |p| == k && p != PathAt(v, i)[..k];
  }

  lemma MadeTable(m: Mem, r: bv64, q: seq<bv9>, p: seq<bv9>)
    requires |q| == 4 && Node(m, r, q[..3]).Some? && exists k :: 1 <= k <= 3 && p == q[..k]
    ensures Node(m, r, p).Some?
  {
    hide Node;
    var k :| 1 <= k <= 3 && p == q[..k];
    assert q[..3][..k] == p;
    NodePrefix(m, r, q[..3], k);
  }

  lemma StillMissing(m: Mem, m': Mem, r: bv64, pv: seq<bv9>, v: bv64, i: nat, n: nat, p: seq<bv9>)
    requires i < n && AllOrdinary(v, n, pv) && Evolves(m, m', r, pv, PathAt(v, i))
             && p in MissingTables(m', r, v, i + 1, n)
    ensures p in MissingTables(m, r, v, i, n)
  {
    hide Node, PathAt, Leaf;
    var j: nat, k: nat :| i + 1 <= j < n && 1 <= k <= 3 && p == PathAt(v, j)[..k];
    OutsidePrefix(PathAt(v, j), k);
    assert p in TablesOf(v, i, n);
  }

  // ---------------------------------------------------------------------
  // map_range

  /** The first n pages map to consecutive frames, every other page is as it was. */
  ghost predicate RangeMapped(m: Mem, m': Mem, r: bv64, pv: seq<bv9>, v: bv64, phys: bv64, n: nat, attrs: bv64)
  {
    && KeepsRights(m, m', r)
    && (forall j {:trigger PathAt(v, j)} :: 0 <= j < n ==> Mapping(m', r, PathAt(v, j)) == Target(phys, j, attrs))
    && (forall l {:trigger Mapping(m', r, l)} :: Ordinary(l, pv) && !InRange(l, v, n) ==>
          Mapping(m', r, l) == Mapping(m, r, l))
  }

  function Target(phys: bv64, j: nat, attrs: bv64): Option<(bv64, bv64)>
  {
    Some((FrameOf(PageAt(phys, j)), attrs | 1))
  }

  /** Every page may have these permissions, is unmapped, and occurs once. */
  ghost predicate Mappable(m: Mem, r: bv64, v: bv64, n: nat, attrs: bv64)
  {
    forall i {:trigger PathAt(v, i)} :: 0 <= i < n ==>
      !Refused(PageAt(v, i), attrs) && Mapping(m, r, PathAt(v, i)) == None && !InRange(PathAt(v, i), v, i)
  }

  lemma MappedStep(m: Mem, m1: Mem, m2: Mem, r: bv64, pv: seq<bv9>, v: bv64, phys: bv64, n: nat, attrs: bv64)
    requires RangeMapped(m, m1, r, pv, v, phys, n, attrs) && Mappable(m, r, v, n, attrs)
    requires AllOrdinary(v, n + 1, pv) && !Refused(PageAt(v, n), attrs) && Mapping(m1, r, PathAt(v, n)) == None
    requires OnlyPage(m1, m2, r, pv, PathAt(v, n)) && Mapping(m2, r, PathAt(v, n)) == Target(phys, n, attrs)
    ensures RangeMapped(m, m2, r, pv, v, phys, n + 1, attrs) && Mappable(m, r, v, n + 1, attrs)
  {
    hide PathAt, AllSafe, Open, InRange, Leaf, Mapping, Refused, FrameOf;
    var q := PathAt(v, n);
    NotBefore(m, m1, r, pv, v, phys, n, attrs);
    forall j | 0 <= j < n
      ensures Mapping(m2, r, PathAt(v, j)) == Target(phys, j, attrs)
    {
      InRangeAt(v, j, n);
      OthersKept(m1, m2, r, pv, q, PathAt(v, j));
    }
    forall l | Ordinary(l, pv) && !InRange(l, v, n + 1)
      ensures Mapping(m2, r, l) == Mapping(m, r, l)
    {
      InRangeStep(l, v, n);
      OthersKept(m1, m2, r, pv, q, l);
    }
    MappableStep(m, r, v, n, attrs);
  }

  lemma MappableStep(m: Mem, r: bv64, v: bv64, n: nat, attrs: bv64)
    requires Mappable(m, r, v, n, attrs)
    requires !Refused(PageAt(v, n), attrs) && Mapping(m, r, PathAt(v, n)) == None && !InRange(PathAt(v, n), v, n)
    ensures Mappable(m, r, v, n + 1, attrs)
  {
    hide PathAt, PageAt, InRange, Mapping, Refused;
    forall i | 0 <= i < n + 1
      ensures !Refused(PageAt(v, i), attrs) && Mapping(m, r, PathAt(v, i)) == None && !InRange(PathAt(v, i), v, i)
    {
      if i < n {
        assert PathAt(v, i) == PathAt(v, i);
      }
    }
  }

  lemma InRangeAt(v: bv64, j: nat, n: nat)
    requires j < n
    ensures InRange(PathAt(v, j), v, n)
  {
    hide PathAt;
  }

  /** An unmapped page was not mapped earlier in the range. */
  lemma NotBefore(m: Mem, m1: Mem, r: bv64, pv: seq<bv9>, v: bv64, phys: bv64, n: nat, attrs: bv64)
    requires RangeMapped(m, m1, r, pv, v, phys, n, attrs) && Ordinary(PathAt(v, n), pv)
             && Mapping(m1, r, PathAt(v, n)) == None
    ensures !InRange(PathAt(v, n), v, n) && Mapping(m, r, PathAt(v, n)) == None
  {
    hide PathAt, AllSafe, Open, Mapping, FrameOf;
  }

  lemma NotMappable(m: Mem, m1: Mem, r: bv64, pv: seq<bv9>, v: bv64, phys: bv64, n: nat, count: nat, attrs: bv64)
    requires RangeMapped(m, m1, r, pv, v, phys, n, attrs) && Ordinary(PathAt(v, n), pv) && n < count
    requires Refused(PageAt(v, n), attrs) || Mapping(m1, r, PathAt(v, n)).Some?
    ensures !Mappable(m, r, v, count, attrs)
  {
    hide PathAt, AllSafe, Open, Mapping, InRange, Refused, Target;
  }

  /** The pages mapped before a failure are unmapped again, which restores the map. */
  lemma RolledBack(m: Mem, m1: Mem, m2: Mem, m3: Mem, r: bv64, pv: seq<bv9>, v: bv64, phys: bv64, n: nat, attrs: bv64)
    requires RangeMapped(m, m1, r, pv, v, phys, n, attrs) && Mappable(m, r, v, n, attrs) && Ordinary(PathAt(v, n), pv)
    requires OnlyPage(m1, m2, r, pv, PathAt(v, n)) && Mapping(m2, r, PathAt(v, n)) == Mapping(m1, r, PathAt(v, n))
    requires RangeCleared(m2, m3, r, pv, v, n)
    ensures KeepsRights(m, m3, r)
    ensures forall l :: Ordinary(l, pv) ==> Mapping(m3, r, l) == Mapping(m, r, l)
  {
    hide PathAt, AllSafe, Open, Leaf, Mapping, Refused, Target;
    forall l | Ordinary(l, pv)
      ensures Mapping(m3, r, l) == Mapping(m, r, l)
    {
      if l != PathAt(v, n) {
        OthersKept(m1, m2, r, pv, PathAt(v, n), l);
      }
    }
  }

  /** How many pages from the start of the range on can be mapped. */
  ghost function Prefix(m: Mem, r: bv64, v: bv64, n: nat, attrs: bv64): (i: nat)
    ensures i <= n && Mappable(m, r, v, i, attrs) && (i == n || !Mappable(m, r, v, i + 1, attrs))
  {
    if n == 0 then NothingMappable(m, r, v, attrs); 0
    else var i := Prefix(m, r, v, n - 1, attrs);
         if i == n - 1 && Mappable(m, r, v, n, attrs) then n else i
  }

  lemma NothingMappable(m: Mem, r: bv64, v: bv64, attrs: bv64)
    ensures Mappable(m, r, v, 0, attrs)
  {
  }

  lemma ShorterMappable(m: Mem, r: bv64, v: bv64, i: nat, n: nat, attrs: bv64)
    requires i <= n && Mappable(m, r, v, n, attrs)
    ensures Mappable(m, r, v, i, attrs)
  {
    hide PathAt, PageAt, InRange, Mapping, Refused;
    forall j | 0 <= j < i
      ensures !Refused(PageAt(v, j), attrs) && Mapping(m, r, PathAt(v, j)) == None && !InRange(PathAt(v, j), v, j)
    {
      assert |PathAt(v, j)| == 4;
    }
  }

  lemma PrefixIs(m: Mem, r: bv64, v: bv64, i: nat, n: nat, attrs: bv64)
    requires i < n && Mappable(m, r, v, i, attrs)
    ensures i <= Prefix(m, r, v, n, attrs)
    ensures i == Prefix(m, r, v, n, attrs) <==> !Mappable(m, r, v, i + 1, attrs)
  {
    hide Mappable;
    var s := Prefix(m, r, v, n, attrs);
    if s < i {
      ShorterMappable(m, r, v, s + 1, i, attrs);
    }
    if i < s {
      ShorterMappable(m, r, v, i + 1, s, attrs);
    }
  }

  /** A page that cannot be mapped after the ones before it was refused, or has all its tables. */
  lemma FailsInPlace(m: Mem, m1: Mem, r: bv64, pv: seq<bv9>, v: bv64, phys: bv64, i: nat, attrs: bv64)
    requires RangeMapped(m, m1, r, pv, v, phys, i, attrs) && Mappable(m, r, v, i, attrs) && AllOrdinary(v, i + 1, pv)
    requires !Mappable(m, r, v, i + 1, attrs)
    ensures Refused(PageAt(v, i), attrs) || Missing(m1, r, PathAt(v, i)) == 0
  {
    hide PathAt, PageAt, AllSafe, Open, Refused, Node, Leaf, InRange, Present;
    if !Refused(PageAt(v, i), attrs) && Mapping(m1, r, PathAt(v, i)) == None {
      NotBefore(m, m1, r, pv, v, phys, i, attrs);
      MappableStep(m, r, v, i, attrs);
    }
    MappedHasTables(m1, r, PathAt(v, i));
  }

  lemma MappedHasTables(m: Mem, r: bv64, q: seq<bv9>)
    requires |q| == 4
    ensures Mapping(m, r, q).Some? ==> Missing(m, r, q) == 0
  {
    hide Node, Word;
    ZeroAbsent();
  }

  /**
   map_range: maps every page, or leaves the address space's mapping as it was. It
   faults exactly when the free frames do not cover the tables that are missing for
   the pages before the first one that cannot be mapped.
   */
  method MapRange(k: Kernel, virt: bv64, phys: bv64, count: nat, attrs: bv64) returns (status: Status)
    requires k.Paged() && AllOrdinary(virt, count, Path(k.pivot)) && attrs & !PERMISSIONS_MASK == 0
    modifies k`mem, k`physicalPage, k`stack
    ensures var n := Prefix(old(k.mem), k.cr3, virt, count, attrs);
            status == if |Flat(old(k.stack))| < |MissingTables(old(k.mem), k.cr3, virt, 0, n)| then PageFault
                      else if Mappable(old(k.mem), k.cr3, virt, count, attrs) then Ok else ErrorPresent
    ensures status == Ok ==> RangeMapped(old(k.mem), k.mem, k.cr3, Path(k.pivot), virt, phys, count, attrs)
    ensures status == ErrorPresent ==> forall l :: Ordinary(l, Path(k.pivot)) ==>
              Mapping(k.mem, k.cr3, l) == Mapping(old(k.mem), k.cr3, l)
    ensures status != PageFault ==> k.Paged() && KeepsRights(old(k.mem), k.mem, k.cr3)
  {
    hide PagedOk, Path, OnlyPage, Mapping, Ordinary, Flat, Pages, MissingTables, Missing, Evolves, Refused, Node,
         RangeMapped, Mappable, RangeCleared, KeepsRights, Target, PageAt, PathAt, Offset, FrameOf, Prefix;
    ghost var m, r, pv := k.mem, k.cr3, Path(k.pivot);
    ghost var n := Prefix(m, r, virt, count, attrs);
    NothingMapped(m, r, pv, virt, phys, attrs);
    PageAfter(virt, 0);
    PageAfter(phys, 0);
    var v, p := virt, phys;
    for i := 0 to count
      invariant k.Paged() && v == PageAt(virt, i) && p == PageAt(phys, i) && i <= n
      invariant RangeMapped(m, k.mem, r, pv, virt, phys, i, attrs) && Mappable(m, r, virt, i, attrs)
      invariant |Flat(k.stack)| - |MissingTables(k.mem, r, virt, i, n)|
                == |Flat(old(k.stack))| - |MissingTables(m, r, virt, 0, n)|
    {
      ghost var m1 := k.mem;
      PageAfter(virt, i);
      PageAfter(phys, i);
      PrefixIs(m, r, virt, i, count, attrs);
      if i < n {
        EnoughFor(m1, r, virt, i, n);
      } else {
        FailsInPlace(m, m1, r, pv, virt, phys, i, attrs);
        NoneMissing(m1, r, virt, n);
      }
      status := Map(k, v, p, attrs);
      if status == PageFault {
        return;
      }
      if status != Ok {
        ghost var m2 := k.mem;
        NotMappable(m, m1, r, pv, virt, phys, i, i + 1, attrs);
        NotMappable(m, m1, r, pv, virt, phys, i, count, attrs);
        NoneMissing(m1, r, virt, n);
        UnmapRange(k, virt, i);
        RolledBack(m, m1, m2, k.mem, r, pv, virt, phys, i, attrs);
        return ErrorPresent;
      }
      TargetIs(phys, i, attrs);
      MappedStep(m, m1, k.mem, r, pv, virt, phys, i, attrs);
      TablesNeeded(m1, k.mem, r, pv, virt, i, n);
      v := Offset(v, PAGE);
      p := Offset(p, PAGE);
    }
    NoneMissing(k.mem, r, virt, n);
    SafeKept(m, k.mem, r, pv, virt, phys, count, attrs);
    return Ok;
  }

  lemma NoneMissing(m: Mem, r: bv64, v: bv64, n: nat)
    ensures MissingTables(m, r, v, n, n) == {}
  {
    hide Node, PathAt;
  }

  lemma SafeKept(m: Mem, m': Mem, r: bv64, pv: seq<bv9>, v: bv64, phys: bv64, n: nat, attrs: bv64)
    requires RangeMapped(m, m', r, pv, v, phys, n, attrs)
    ensures KeepsRights(m, m', r)
  {
    hide AllSafe, Open, Mapping, PathAt;
  }

  lemma TargetIs(phys: bv64, j: nat, attrs: bv64)
    ensures Target(phys, j, attrs) == Some((FrameOf(PageAt(phys, j)), attrs | 1))
  {
  }

  lemma NothingMapped(m: Mem, r: bv64, pv: seq<bv9>, v: bv64, phys: bv64, attrs: bv64)
    ensures RangeMapped(m, m, r, pv, v, phys, 0, attrs) && Mappable(m, r, v, 0, attrs)
  {
    hide AllSafe, Open, Mapping, PathAt;
  }

  lemma EnoughFor(m: Mem, r: bv64, v: bv64, i: nat, n: nat)
    requires i < n
    ensures Missing(m, r, PathAt(v, i)) <= |MissingTables(m, r, v, i, n)|
  {
    hide Node, PathAt, Missing;
    MissingOfWithin(m, r, v, i, n);
    SubsetSize(MissingOf(m, r, PathAt(v, i)), MissingTables(m, r, v, i, n));
  }
}
