/**
 page_table_fini: every frame below the lower half of a page table is given back,
 children before the table that points at them, and the table's root last.
 */
module Teardown {
  import opened PageWalk
  import opened PageTree
  import opened FrameStack
  import opened Pivot
  import opened PagedSteps
  import opened Paging

  // ---------------------------------------------------------------------
  // The indices a loop runs through.

  /** 0, 1, ..., n - 1. */
  function UpTo(n: bv16): seq<bv9>
    requires n <= 512
  {
    if n == 0 then [] else UpTo(n - 1) + [(n - 1) as bv9]
  }

  lemma {:induction false} UpToHas(n: bv16, b: bv9)
    requires n <= 512
    ensures b in UpTo(n) <==> (b as bv16) < n
    decreases n
  {
    if n > 0 {
      UpToHas(n - 1, b);
      LastIndex(n, b);
    }
  }

  lemma LastIndex(n: bv16, b: bv9)
    requires 0 < n <= 512
    ensures (b as bv16) < n <==> (b as bv16) < n - 1 || b == (n - 1) as bv9
  {
  }

  predicate Once(s: seq<bv9>)
  {
    forall i, j :: 0 <= i < j < |s| ==> s[i] != s[j]
  }

  lemma {:induction false} UpToOnce(n: bv16)
    requires n <= 512
    ensures Once(UpTo(n))
    decreases n
  {
    if n > 0 {
      UpToOnce(n - 1);
      UpToHas(n - 1, (n - 1) as bv9);
      NotItself(n);
      OnceAppend(UpTo(n - 1), (n - 1) as bv9);
    }
  }

  lemma NotItself(n: bv16)
    requires 0 < n <= 512
    ensures !((((n - 1) as bv9) as bv16) < n - 1)
  {
  }

  lemma OnceAppend(s: seq<bv9>, b: bv9)
    requires Once(s) && b !in s
    ensures Once(s + [b])
  {
  }

  function Full(): seq<bv9> { UpTo(512) }

  lemma FullHas(b: bv9)
    ensures b in Full()
  {
    UpToHas(512, b);
  }

  // ---------------------------------------------------------------------
  // What is to be freed, in order.

  /** The frames below the entries s of table t, d levels deep. */
  function Plan(m: Mem, t: bv64, d: nat, s: seq<bv9>): seq<bv64>
    decreases d, |s|, 0
  {
    if d == 0 || s == [] then [] else Plan(m, t, d, s[..|s| - 1]) + Below(m, t, d, s[|s| - 1])
  }

  /** The frames below entry i, and then the one it names. */
  function Below(m: Mem, t: bv64, d: nat, i: bv9): seq<bv64>
    requires d > 0
    decreases d, 0, 1
  {
    hide Entry;
    match Entry(m, t, i)
    case None => []
    case Some(f) => Plan(m, f, d - 1, Full()) + [f]
  }

  /** The path leads from t to f through one of the entries s. */
  ghost predicate Leads(m: Mem, t: bv64, d: nat, s: seq<bv9>, q: seq<bv9>, f: bv64)
  {
    1 <= |q| <= d && q[0] in s && Node(m, t, q) == Some(f)
  }

  /** A path from an entry on. */
  lemma NodeFirst(m: Mem, t: bv64, i: bv9, q: seq<bv9>)
    ensures Node(m, t, [i] + q) == match Entry(m, t, i) { case None => None case Some(f) => Node(m, f, q) }
  {
    hide Node, Entry;
    NodeAppend(m, t, [i], q);
    assert [] + [i] == [i];
    NodeEmpty(m, t);
    NodeStep(m, t, [], i);
  }

  lemma NodeEntry(m: Mem, t: bv64, i: bv9)
    ensures Node(m, t, [i]) == Entry(m, t, i)
  {
    hide Node, Entry;
    assert [] + [i] == [i];
    NodeEmpty(m, t);
    NodeStep(m, t, [], i);
  }

  /** Every planned frame is reached, */
  lemma {:induction false} PlannedIsReached(m: Mem, t: bv64, d: nat, s: seq<bv9>, f: bv64) returns (q: seq<bv9>)
    requires f in Plan(m, t, d, s)
    ensures Leads(m, t, d, s, q, f)
    decreases d, |s|, 0
  {
    hide Node, Below;
    var n := |s| - 1;
    if f in Plan(m, t, d, s[..n]) {
      q := PlannedIsReached(m, t, d, s[..n], f);
    } else {
      q := BelowIsReached(m, t, d, s[n], f);
    }
  }

  lemma {:induction false} BelowIsReached(m: Mem, t: bv64, d: nat, i: bv9, f: bv64) returns (q: seq<bv9>)
    requires d > 0 && f in Below(m, t, d, i)
    ensures Leads(m, t, d, [i], q, f) && q[0] == i
    decreases d, 0, 1
  {
    hide Node, Entry, Plan, Full;
    var g := Entry(m, t, i).value;
    if f in Plan(m, g, d - 1, Full()) {
      var q' := PlannedIsReached(m, g, d - 1, Full(), f);
      q := [i] + q';
      NodeFirst(m, t, i, q');
    } else {
      q := [i];
      NodeEntry(m, t, i);
    }
  }

  /** and every reached frame is planned. */
  lemma {:induction false} ReachedIsPlanned(m: Mem, t: bv64, d: nat, s: seq<bv9>, q: seq<bv9>, f: bv64)
    requires Leads(m, t, d, s, q, f)
    ensures f in Plan(m, t, d, s)
    decreases d, |s|, 0
  {
    hide Node, Below;
    var n := |s| - 1;
    if q[0] in s[..n] {
      ReachedIsPlanned(m, t, d, s[..n], q, f);
    } else {
      ReachedBelow(m, t, d, s[n], q, f);
    }
  }

  lemma {:induction false} ReachedBelow(m: Mem, t: bv64, d: nat, i: bv9, q: seq<bv9>, f: bv64)
    requires Leads(m, t, d, [i], q, f)
    ensures f in Below(m, t, d, i)
    decreases d, 0, 1
  {
    hide Node, Entry, Plan, Full;
    assert q == [i] + q[1..];
    NodeFirst(m, t, i, q[1..]);
    var g := Entry(m, t, i).value;
    if |q| == 1 {
      NodeEmpty(m, g);
    } else {
      FullHas(q[1]);
      ReachedIsPlanned(m, g, d - 1, Full(), q[1..], f);
    }
  }

  // ---------------------------------------------------------------------
  // A tree is planned without repetition.

  /** No frame is reached along two paths. */
  ghost predicate Tree(m: Mem, t: bv64, d: nat, s: seq<bv9>)
  {
    forall p, q, f {:trigger Leads(m, t, d, s, p, f), Leads(m, t, d, s, q, f)} ::
      Leads(m, t, d, s, p, f) && Leads(m, t, d, s, q, f) ==> p == q
  }

  lemma TreeAt(m: Mem, t: bv64, d: nat, s: seq<bv9>, p: seq<bv9>, q: seq<bv9>, f: bv64)
    requires Tree(m, t, d, s) && Leads(m, t, d, s, p, f) && Leads(m, t, d, s, q, f)
    ensures p == q
  {
    hide Leads;
  }

  ghost predicate Fewer(s': seq<bv9>, s: seq<bv9>)
  {
    forall k :: 0 <= k < |s'| ==> s'[k] in s
  }

  lemma Within(s': seq<bv9>, s: seq<bv9>, i: bv9)
    requires Fewer(s', s) && i in s'
    ensures i in s
  {
  }

  lemma TreeFewer(m: Mem, t: bv64, d: nat, s: seq<bv9>, s': seq<bv9>)
    requires Tree(m, t, d, s) && Fewer(s', s)
    ensures Tree(m, t, d, s')
  {
    hide Node;
    forall p, q, f | Leads(m, t, d, s', p, f) && Leads(m, t, d, s', q, f)
      ensures p == q
    {
      Within(s', s, p[0]);
      Within(s', s, q[0]);
      TreeAt(m, t, d, s, p, q, f);
    }
  }

  lemma TreeBelow(m: Mem, t: bv64, d: nat, s: seq<bv9>, i: bv9, g: bv64, e: nat)
    requires Tree(m, t, d, s) && i in s && d == e + 1 && Entry(m, t, i) == Some(g)
    ensures Tree(m, g, e, Full()) && forall q :: !Leads(m, g, e, Full(), q, g)
  {
    hide Node, Entry, Tree, Full;
    forall p, q, f | Leads(m, g, e, Full(), p, f) && Leads(m, g, e, Full(), q, f)
      ensures p == q
    {
      NodeFirst(m, t, i, p);
      NodeFirst(m, t, i, q);
      TreeAt(m, t, d, s, [i] + p, [i] + q, f);
      assert p == ([i] + p)[1..] && q == ([i] + q)[1..];
    }
    TreeIs(m, g, e, Full());
    NodeEntry(m, t, i);
    forall q | Leads(m, g, e, Full(), q, g)
      ensures false
    {
      NodeFirst(m, t, i, q);
      TreeAt(m, t, d, s, [i] + q, [i], g);
    }
  }

  lemma TreeIs(m: Mem, t: bv64, d: nat, s: seq<bv9>)
    requires forall p, q, f :: Leads(m, t, d, s, p, f) && Leads(m, t, d, s, q, f) ==> p == q
    ensures Tree(m, t, d, s)
  {
    hide Leads;
  }

  lemma {:induction false} PlannedOnce(m: Mem, t: bv64, d: nat, s: seq<bv9>)
    requires Tree(m, t, d, s) && Once(s)
    ensures NoDup(Plan(m, t, d, s))
    decreases d, |s|, 0
  {
    hide Tree, NoDup, Leads, Below;
    if d == 0 || s == [] {
      NoDupEmpty();
    } else {
      var n := |s| - 1;
      TreeFewer(m, t, d, s, s[..n]);
      PlannedOnce(m, t, d, s[..n]);
      BelowOnce(m, t, d, s, s[n]);
      assert s[n] !in s[..n];
      Apart(m, t, d, s, Plan(m, t, d, s[..n]), Below(m, t, d, s[n]), s[..n], s[n]);
      NoDupConcat(Plan(m, t, d, s[..n]), Below(m, t, d, s[n]));
    }
  }

  lemma {:induction false} BelowOnce(m: Mem, t: bv64, d: nat, s: seq<bv9>, i: bv9)
    requires Tree(m, t, d, s) && i in s && d > 0
    ensures NoDup(Below(m, t, d, i))
    decreases d, 0, 1
  {
    hide Tree, NoDup, Leads, Entry, Plan, Full;
    if Entry(m, t, i).None? {
      NoDupEmpty();
    } else {
      var g := Entry(m, t, i).value;
      TreeBelow(m, t, d, s, i, g, d - 1);
      FullOnce();
      PlannedOnce(m, g, d - 1, Full());
      if g in Plan(m, g, d - 1, Full()) {
        var q := PlannedIsReached(m, g, d - 1, Full(), g);
      }
      OneNoDup(g);
      NoDupConcat(Plan(m, g, d - 1, Full()), [g]);
    }
  }

  lemma FullOnce()
    ensures Once(Full())
  {
    UpToOnce(512);
  }

  lemma Apart(m: Mem, t: bv64, d: nat, s: seq<bv9>, a: seq<bv64>, b: seq<bv64>, s': seq<bv9>, i: bv9)
    requires Tree(m, t, d, s) && d > 0 && i in s && i !in s' && Fewer(s', s)
    requires a == Plan(m, t, d, s') && b == Below(m, t, d, i)
    ensures forall f :: f in a ==> f !in b
  {
    hide Tree, Plan, Below, Node;
    forall f | f in a && f in b
      ensures false
    {
      var p := PlannedIsReached(m, t, d, s', f);
      var q := BelowIsReached(m, t, d, i, f);
      Within(s', s, p[0]);
      TreeAt(m, t, d, s, p, q, f);
    }
  }

  lemma NoDupEmpty()
    ensures NoDup([])
  {
  }

  lemma NoDupConcat(a: seq<bv64>, b: seq<bv64>)
    requires NoDup(a) && NoDup(b) && forall f :: f in a ==> f !in b
    ensures NoDup(a + b)
  {
    forall i, j | 0 <= i < j < |a + b|
      ensures (a + b)[i] != (a + b)[j]
    {
      if i < |a| <= j {
        assert a[i] in a && b[j - |a|] in b;
      }
    }
  }

  // ---------------------------------------------------------------------
  // The state while frames are being given back.

  /** The stack after the frames d were given back one by one. */
  function PushAll(stack: seq<Range>, d: seq<bv64>): seq<Range>
  {
    if d == [] then stack else Push(PushAll(stack, d[..|d| - 1]), d[|d| - 1], PAGE, [d[|d| - 1]])
  }

  lemma PushAllStep(stack: seq<Range>, d: seq<bv64>, f: bv64)
    ensures PushAll(stack, d + [f]) == Push(PushAll(stack, d), f, PAGE, [f])
  {
    assert (d + [f])[..|d|] == d;
  }

  lemma {:induction false} PushAllPages(stack: seq<Range>, d: seq<bv64>)
    ensures Flat(PushAll(stack, d)) == Reversed(d) + Flat(stack)
    ensures Pages(PushAll(stack, d)) == Pages(stack) + Elements(d)
    decreases |d|
  {
    hide Flat;
    if d == [] {
      assert Reversed(d) + Flat(stack) == Flat(stack);
    } else {
      var n := |d| - 1;
      PushAllPages(stack, d[..n]);
      FlatPush(PushAll(stack, d[..n]), d[n]);
      assert [d[n]] + (Reversed(d[..n]) + Flat(stack)) == Reversed(d) + Flat(stack);
      assert Elements(d) == Elements(d[..n]) + {d[n]} by { assert d == d[..n] + [d[n]]; }
      assert Pages(PushAll(stack, d)) == Pages(PushAll(stack, d[..n])) + {d[n]};
    }
  }

  lemma FlatPush(stack: seq<Range>, f: bv64)
    ensures Flat(Push(stack, f, PAGE, [f])) == [f] + Flat(stack)
  {
    assert Push(stack, f, PAGE, [f])[1..] == stack;
  }

  function Reversed(d: seq<bv64>): seq<bv64>
  {
    if d == [] then [] else [d[|d| - 1]] + Reversed(d[..|d| - 1])
  }

  /** The frames to free: distinct, in use, acceptable to the allocator, and off the pivot's path. */
  ghost predicate Freeable(m: Mem, r: bv64, pv: seq<bv9>, all: seq<bv64>, stack: seq<Range>)
  {
    && NoDup(all) && PivotLive(m, r, pv, Elements(all)) && PivotLive(m, r, pv, Pages(stack))
    && forall f :: f in all ==> Aligned(f) && f != LAST_PAGE && f !in Pages(stack)
  }

  /** Memory m0 with the frames d, a beginning of all, given back. */
  ghost predicate Freeing(m0: Mem, m: Mem, r: bv64, pv: seq<bv9>, all: seq<bv64>, d: seq<bv64>, stack0: seq<Range>,
                          stack: seq<Range>, head: bv64)
  {
    && Freeable(m0, r, pv, all, stack0) && d <= all
    && StackOk(m, r, pv, head, stack) && stack == PushAll(stack0, d)
    && Quiet(m0, m, Elements(d), PivotTable(m0, r, pv), pv[3])
  }

  /** The tables on the way to p exist, are none of x and not free, and are not the pivot's lowest table. */
  ghost predicate Open(m: Mem, r: bv64, pv: seq<bv9>, p: seq<bv9>, x: seq<bv64>, stack: seq<Range>)
    requires |pv| == 4 && Node(m, r, pv[..3]).Some?
  {
    forall k {:trigger p[..k]} :: 0 <= k <= |p| ==>
      && Node(m, r, p[..k]).Some? && Node(m, r, p[..k]).value !in x
      && Node(m, r, p[..k]).value !in Pages(stack) && Node(m, r, p[..k]).value != PivotTable(m, r, pv)
  }

  lemma FreeableParts(m: Mem, r: bv64, pv: seq<bv9>, all: seq<bv64>, stack: seq<Range>)
    requires Freeable(m, r, pv, all, stack)
    ensures |pv| == 4 && Node(m, r, pv[..3]) == Some(PivotTable(m, r, pv))
  {
    hide Node, NoDup, Aligned, Pages;
    assert pv[..3] == pv[..3];
  }

  /** Open tables read as they did at the start. */
  lemma OpenNow(m0: Mem, m: Mem, r: bv64, pv: seq<bv9>, all: seq<bv64>, d: seq<bv64>, stack0: seq<Range>,
                stack: seq<Range>, head: bv64, p: seq<bv9>, x: seq<bv64>)
    requires Freeing(m0, m, r, pv, all, d, stack0, stack, head) && Open(m0, r, pv, p, x, stack0) && d <= x
    ensures SelfMap(m, r) && Node(m, r, p) == Node(m0, r, p) && Upper(m, r, p, Pages(stack))
    ensures Node(m0, r, p).Some? && forall i :: Word(m, Node(m0, r, p).value, i) == Word(m0, Node(m0, r, p).value, i)
  {
    hide Node, Word, Linked, NoDup, Flat, PivotTable, Freeable, StackOk, Pages;
    FreeableParts(m0, r, pv, all, stack0);
    var t := PivotTable(m0, r, pv);
    SelfMapOf(m, r, pv, head, stack);
    PushAllPages(stack0, d);
    forall k | 0 <= k <= |p|
      ensures Node(m, r, p[..k]) == Node(m0, r, p[..k]) && Node(m0, r, p[..k]).value !in Elements(d)
    {
      OpenWalk(m0, m, r, pv, d, stack0, p, x, t, k);
    }
    assert p[..|p|] == p;
  }

  lemma OpenWalk(m0: Mem, m: Mem, r: bv64, pv: seq<bv9>, d: seq<bv64>, stack0: seq<Range>, p: seq<bv9>, x: seq<bv64>,
                 t: bv64, k: nat)
    requires |pv| == 4 && Node(m0, r, pv[..3]) == Some(t) && Open(m0, r, pv, p, x, stack0) && d <= x && k <= |p|
    requires Quiet(m0, m, Elements(d), t, pv[3])
    ensures Node(m, r, p[..k]) == Node(m0, r, p[..k]) && Node(m0, r, p[..k]).Some?
            && Node(m0, r, p[..k]).value !in Elements(d)
  {
    hide Node, Quiet, Pages;
    forall l | 0 <= l < |p[..k]| && Node(m0, r, p[..k][..l]).Some?
      ensures Node(m0, r, p[..k][..l]).value !in Elements(d) + {t}
    {
      assert p[..k][..l] == p[..l];
    }
    WalkKept(m0, m, r, Elements(d), t, pv[3], p[..k]);
  }

  /** A child table is open until it is freed itself. */
  lemma OpenChild(m: Mem, r: bv64, pv: seq<bv9>, all: seq<bv64>, p: seq<bv9>, x: seq<bv64>, stack: seq<Range>, i: bv9,
                  f: bv64, e: seq<bv64>)
    requires Freeable(m, r, pv, all, stack) && Open(m, r, pv, p, x, stack)
             && Entry(m, Node(m, r, p[..|p|]).value, i) == Some(f)
    requires e + [f] <= x && x <= all
    ensures Open(m, r, pv, p + [i], e, stack)
  {
    hide Node, Entry, Pages, Aligned, PivotTable;
    var q := p + [i];
    assert p[..|p|] == p && q[..|q|] == q;
    NodeStep(m, r, p, i);
    assert (e + [f])[|e|] == f;
    assert x[|e|] == f && all[|e|] == f;
    assert f !in e by { Earlier(all, e, f); }
    PivotTableApart(m, r, pv, all, f);
    forall k | 0 <= k <= |q|
      ensures && Node(m, r, q[..k]).Some? && Node(m, r, q[..k]).value !in e
              && Node(m, r, q[..k]).value !in Pages(stack) && Node(m, r, q[..k]).value != PivotTable(m, r, pv)
    {
      if k <= |p| {
        assert q[..k] == p[..k];
        NotInPrefix(e, x, Node(m, r, p[..k]).value);
      }
    }
  }

  lemma NotInPrefix(e: seq<bv64>, x: seq<bv64>, f: bv64)
    requires e <= x && f !in x
    ensures f !in e
  {
    assert forall k :: 0 <= k < |e| ==> e[k] == x[k];
  }

  lemma Earlier(all: seq<bv64>, e: seq<bv64>, f: bv64)
    requires NoDup(all) && e + [f] <= all
    ensures f !in e
  {
    assert (e + [f])[|e|] == f && all[|e|] == f;
    assert forall k :: 0 <= k < |e| ==> e[k] == (e + [f])[k] == all[k];
  }

  lemma PivotTableApart(m: Mem, r: bv64, pv: seq<bv9>, all: seq<bv64>, f: bv64)
    requires PivotLive(m, r, pv, Elements(all)) && f in all
    ensures PivotTable(m, r, pv) != f
  {
    hide Node;
    assert pv[..3] == pv[..3];
  }

  /** What physical_free asks of the next frame. */
  lemma MayFree(m0: Mem, m: Mem, r: bv64, pv: seq<bv9>, all: seq<bv64>, d: seq<bv64>, stack0: seq<Range>,
                stack: seq<Range>, head: bv64, f: bv64)
    requires Freeing(m0, m, r, pv, all, d, stack0, stack, head) && d + [f] <= all
    ensures PivotLive(m, r, pv, {f}) && Aligned(f) && f != LAST_PAGE && f !in Pages(stack)
    ensures PivotTable(m, r, pv) == PivotTable(m0, r, pv)
  {
    hide Node, Pages, Aligned, PivotTable, Linked, NoDup, Flat, Quiet, PivotLive;
    assert (d + [f])[|d|] == f && all[|d|] == f;
    Earlier(all, d, f);
    PushAllPages(stack0, d);
    PrefixElements(d, all);
    PivotLiveLess(m0, r, pv, Elements(all), Elements(d));
    PivotKept(m0, m, r, pv, Elements(d), Elements(all));
    PivotLiveLess(m, r, pv, Elements(all), {f});
  }

  lemma PrefixElements(d: seq<bv64>, all: seq<bv64>)
    requires d <= all
    ensures Elements(d) <= Elements(all)
  {
    assert forall k :: 0 <= k < |d| ==> d[k] == all[k];
  }

  lemma FreedOne(m0: Mem, m: Mem, m': Mem, r: bv64, pv: seq<bv9>, all: seq<bv64>, d: seq<bv64>, stack0: seq<Range>,
                 stack: seq<Range>, head: bv64, f: bv64)
    requires Freeing(m0, m, r, pv, all, d, stack0, stack, head) && d + [f] <= all
    requires PivotLive(m, r, pv, {f}) && PivotTable(m, r, pv) == PivotTable(m0, r, pv)
    requires Quiet(m, m', {f}, PivotTable(m, r, pv), pv[3]) && StackOk(m', r, pv, f, Push(stack, f, PAGE, [f]))
    ensures Freeing(m0, m', r, pv, all, d + [f], stack0, Push(stack, f, PAGE, [f]), f)
  {
    hide Node, Pages, Aligned, PivotTable, PivotLive, Freeable, StackOk, Quiet;
    FreeableParts(m0, r, pv, all, stack0);
    PushAllStep(stack0, d, f);
    QuietThrough(m0, m, m', d, f, PivotTable(m0, r, pv), pv[3]);
  }

  lemma QuietThrough(m0: Mem, m: Mem, m': Mem, d: seq<bv64>, f: bv64, t: bv64, i: bv9)
    requires Quiet(m0, m, Elements(d), t, i) && Quiet(m, m', {f}, t, i)
    ensures Quiet(m0, m', Elements(d + [f]), t, i)
  {
    hide Word;
    assert Elements(d + [f]) == Elements(d) + {f};
  }

  // ---------------------------------------------------------------------
  // The loops.

  lemma {:induction false} PlanPrefix(m: Mem, t: bv64, d: nat, s: seq<bv9>, j: nat)
    requires j <= |s|
    ensures Plan(m, t, d, s[..j]) <= Plan(m, t, d, s)
    decreases |s|
  {
    hide Below;
    if j < |s| {
      var n := |s| - 1;
      PlanPrefix(m, t, d, s[..n], j);
      assert s[..n][..j] == s[..j];
    } else {
      assert s[..j] == s;
    }
  }

  lemma PlanStep(m: Mem, t: bv64, d: nat, s: seq<bv9>, j: nat)
    requires j < |s| && d > 0
    ensures Plan(m, t, d, s[..j + 1]) == Plan(m, t, d, s[..j]) + Below(m, t, d, s[j])
  {
    hide Below;
    assert s[..j + 1][..j] == s[..j];
  }

  /** One entry's share of the plan: its subtree, then its own frame. */
  lemma PlanEntry(m: Mem, t: bv64, d: nat, s: seq<bv9>, j: nat, e0: seq<bv64>, e: seq<bv64>, x: seq<bv64>)
    requires j < |s| && d > 0 && e == e0 + Plan(m, t, d, s[..j]) && x == e0 + Plan(m, t, d, s)
    ensures match Entry(m, t, s[j])
            case None => e0 + Plan(m, t, d, s[..j + 1]) == e
            case Some(f) => e0 + Plan(m, t, d, s[..j + 1]) == e + Plan(m, f, d - 1, Full()) + [f]
                            && e + Plan(m, f, d - 1, Full()) + [f] <= x
    ensures e <= x
  {
    hide Entry, Plan, Full;
    PlanStep(m, t, d, s, j);
    PlanPrefix(m, t, d, s, j);
    PlanPrefix(m, t, d, s, j + 1);
    var a, b := Plan(m, t, d, s[..j + 1]), Plan(m, t, d, s);
    assert e0 + a <= e0 + b && e0 + Plan(m, t, d, s[..j]) <= e0 + b;
    if Entry(m, t, s[j]).Some? {
      var f := Entry(m, t, s[j]).value;
      var c := Plan(m, f, d - 1, Full());
      assert e0 + (Plan(m, t, d, s[..j]) + (c + [f])) == e + c + [f];
    } else {
      assert Plan(m, t, d, s[..j]) + [] == Plan(m, t, d, s[..j]);
    }
  }

  lemma EntryReads(m0: Mem, t: bv64, i: bv9, w: bv64)
    requires w == Word(m0, t, i)
    ensures Entry(m0, t, i) == if Present(w) then Some(FrameOf(w)) else None
  {
  }

  /** The loop over the entries s of one table: what is below a present entry is freed, and then the frame it names. */
  method FreeTables(k: Kernel, p: seq<bv9>, s: seq<bv9>, ghost m0: Mem, ghost all: seq<bv64>, ghost stack0: seq<Range>,
                    ghost d0: seq<bv64>, ghost x: seq<bv64>, ghost t: bv64)
    requires |p| <= 3
    requires Freeing(m0, k.mem, k.cr3, Path(k.pivot), all, d0, stack0, k.stack, k.physicalPage)
    requires Open(m0, k.cr3, Path(k.pivot), p, x, stack0) && Node(m0, k.cr3, p) == Some(t)
    requires x == d0 + Plan(m0, t, 4 - |p|, s) && x <= all
    modifies k`mem, k`physicalPage, k`stack
    ensures Freeing(m0, k.mem, k.cr3, Path(k.pivot), all, x, stack0, k.stack, k.physicalPage)
    decreases 3 - |p|, 2
  {
    hide Freeing, Open, Node, Plan, Path;
    PlanNone(m0, t, 4 - |p|);
    assert d0 + [] == d0 && s[..0] == [];
    for j := 0 to |s|
      invariant Freeing(m0, k.mem, k.cr3, Path(k.pivot), all, d0 + Plan(m0, t, 4 - |p|, s[..j]), stack0, k.stack,
                        k.physicalPage)
    {
      FreeIndex(k, p, s, j, m0, all, stack0, d0, d0 + Plan(m0, t, 4 - |p|, s[..j]), x, t);
    }
    assert s[..|s|] == s;
  }

  /** One turn of the loop. */
  method FreeIndex(k: Kernel, p: seq<bv9>, s: seq<bv9>, j: nat, ghost m0: Mem, ghost all: seq<bv64>,
                   ghost stack0: seq<Range>, ghost d0: seq<bv64>, ghost e: seq<bv64>, ghost x: seq<bv64>, ghost t: bv64)
    requires |p| <= 3 && j < |s| && e == d0 + Plan(m0, t, 4 - |p|, s[..j])
    requires Freeing(m0, k.mem, k.cr3, Path(k.pivot), all, e, stack0, k.stack, k.physicalPage)
    requires Open(m0, k.cr3, Path(k.pivot), p, x, stack0) && Node(m0, k.cr3, p) == Some(t)
    requires x == d0 + Plan(m0, t, 4 - |p|, s) && x <= all
    modifies k`mem, k`physicalPage, k`stack
    ensures Freeing(m0, k.mem, k.cr3, Path(k.pivot), all, d0 + Plan(m0, t, 4 - |p|, s[..j + 1]), stack0, k.stack,
                    k.physicalPage)
    decreases 3 - |p|, 1
  {
    hide Freeing, Open, Node, Plan, Below, Entry, Path, Full, TableAddress, Word, Present, FrameOf, SelfMap, Upper,
         Pages;
    ghost var r, pv, d := k.cr3, Path(k.pivot), 4 - |p|;
    PlanEntry(m0, t, d, s, j, d0, e, x);
    OpenNow(m0, k.mem, r, pv, all, e, stack0, k.stack, k.physicalPage, p, x);
    var w := k.LoadEntry(TableAddress(p), s[j], p);
    EntryReads(m0, t, s[j], w);
    if Present(w) {
      ghost var f := FrameOf(w);
      FreeEntry(k, p, s[j], m0, all, stack0, e, e + Plan(m0, f, d - 1, Full()), x, t, f);
    }
  }

  /** The body of the loop for a present entry. */
  method FreeEntry(k: Kernel, p: seq<bv9>, i: bv9, ghost m0: Mem, ghost all: seq<bv64>, ghost stack0: seq<Range>,
                   ghost e: seq<bv64>, ghost e': seq<bv64>, ghost x: seq<bv64>, ghost t: bv64, ghost f: bv64)
    requires |p| <= 3
    requires Freeing(m0, k.mem, k.cr3, Path(k.pivot), all, e, stack0, k.stack, k.physicalPage)
    requires Open(m0, k.cr3, Path(k.pivot), p, x, stack0) && Node(m0, k.cr3, p) == Some(t) && Entry(m0, t, i) == Some(f)
    requires e' == e + Plan(m0, f, 3 - |p|, Full()) && e' + [f] <= x && x <= all
    modifies k`mem, k`physicalPage, k`stack
    ensures Freeing(m0, k.mem, k.cr3, Path(k.pivot), all, e' + [f], stack0, k.stack, k.physicalPage)
    decreases 3 - |p|, 0
  {
    hide Freeing, Open, Node, Plan, Below, Entry, Path, UpTo, TableAddress, Word, Present, FrameOf, SelfMap, Upper,
         Pages, PivotLive, Aligned, StackOk, Quiet, PivotTable;
    ghost var r, pv := k.cr3, Path(k.pivot);
    if |p| < 3 {
      ChildOpens(m0, k.mem, r, pv, all, p, x, stack0, k.stack, k.physicalPage, i, f, e, e', t);
      FreeTables(k, p + [i], Full(), m0, all, stack0, e, e', f);
    } else {
      PlanDone(m0, f);
      assert e + [] == e;
    }
    OpenNow(m0, k.mem, r, pv, all, e', stack0, k.stack, k.physicalPage, p, x);
    var w := k.LoadEntry(TableAddress(p), i, p);
    EntryReads(m0, t, i, w);
    ghost var m1, stack1, head1 := k.mem, k.stack, k.physicalPage;
    MayFree(m0, m1, r, pv, all, e', stack0, stack1, head1, f);
    StackWhile(m0, m1, r, pv, all, e', stack0, stack1, head1);
    k.PhysicalFree(FrameOf(w));
    FreedOne(m0, m1, k.mem, r, pv, all, e', stack0, stack1, head1, f);
  }

  lemma PlanNone(m: Mem, t: bv64, d: nat)
    ensures Plan(m, t, d, []) == []
  {
  }

  lemma PlanDone(m: Mem, t: bv64)
    ensures Plan(m, t, 0, Full()) == []
  {
  }

  lemma StackWhile(m0: Mem, m: Mem, r: bv64, pv: seq<bv9>, all: seq<bv64>, d: seq<bv64>, stack0: seq<Range>,
                   stack: seq<Range>, head: bv64)
    requires Freeing(m0, m, r, pv, all, d, stack0, stack, head)
    ensures StackOk(m, r, pv, head, stack)
  {
    hide StackOk, Freeable, Quiet, Node;
  }

  lemma ChildOpens(m0: Mem, m: Mem, r: bv64, pv: seq<bv9>, all: seq<bv64>, p: seq<bv9>, x: seq<bv64>,
                   stack0: seq<Range>, stack: seq<Range>, head: bv64, i: bv9, f: bv64, e: seq<bv64>, e': seq<bv64>,
                   t: bv64)
    requires Freeing(m0, m, r, pv, all, e, stack0, stack, head) && Open(m0, r, pv, p, x, stack0)
    requires Node(m0, r, p) == Some(t) && Entry(m0, t, i) == Some(f) && e' + [f] <= x && x <= all
    ensures Open(m0, r, pv, p + [i], e', stack0) && Node(m0, r, p + [i]) == Some(f)
  {
    hide StackOk, Freeable, Quiet, Node, Open, Entry, PushAll;
    assert p[..|p|] == p;
    OpenChild(m0, r, pv, all, p, x, stack0, i, f, e');
    NodeStep(m0, r, p, i);
  }

  // ---------------------------------------------------------------------
  // page_table_fini

  function LowerHalf(): seq<bv9> { UpTo(256) }

  /** The frames below the lower half of the table at root, in the order they are freed. */
  function LowerFrames(m: Mem, root: bv64): seq<bv64>
  {
    Plan(m, root, 4, LowerHalf())
  }

  /** They are the tables and leaf frames the walk reaches below the lower half. */
  lemma LowerFramesAre(m: Mem, root: bv64, f: bv64)
    ensures f in LowerFrames(m, root) <==> exists q :: Leads(m, root, 4, LowerHalf(), q, f)
  {
    hide Plan, Leads, LowerHalf;
    if f in LowerFrames(m, root) {
      var q := PlannedIsReached(m, root, 4, LowerHalf(), f);
    }
    if q :| Leads(m, root, 4, LowerHalf(), q, f) {
      ReachedIsPlanned(m, root, 4, LowerHalf(), q, f);
    }
  }

  /**
   A page table that may be torn down from the space at r: its lower half is a tree
   of frames in use, off the pivot's path, and both spaces share the pivot.
   */
  ghost predicate Disposable(m: Mem, r: bv64, root: bv64, pv: seq<bv9>, head: bv64, stack: seq<Range>)
  {
    var all := LowerFrames(m, root);
    && Tree(m, root, 4, LowerHalf()) && root !in all
    && StackOk(m, r, pv, head, stack) && StackOk(m, root, pv, head, stack)
    && PivotTable(m, r, pv) == PivotTable(m, root, pv)
    && PivotLive(m, root, pv, Elements(all)) && PivotLive(m, r, pv, Elements(all)) && PivotLive(m, r, pv, {root})
    && Aligned(root) && root != LAST_PAGE
    && forall f :: f in all ==> Aligned(f) && f != LAST_PAGE && f !in Pages(stack)
  }

  lemma StartFreeing(m: Mem, r: bv64, root: bv64, pv: seq<bv9>, head: bv64, stack: seq<Range>)
    requires Disposable(m, r, root, pv, head, stack)
    ensures Freeing(m, m, root, pv, LowerFrames(m, root), [], stack, stack, head)
    ensures |pv| == 4 && Node(m, root, pv[..3]).Some? && Open(m, root, pv, [], LowerFrames(m, root), stack)
            && Node(m, root, []) == Some(root)
    ensures root !in Pages(stack)
  {
    hide Plan, Node, Tree, NoDup, Linked, Flat, Pages, Aligned, UpTo, Word, Entry;
    UpToOnce(256);
    PlannedOnce(m, root, 4, LowerHalf());
    NodeEmpty(m, root);
    assert pv[..0] == [] && pv[..3] == pv[..3];
    assert Elements([]) == {};
  }

  lemma Switched(m0: Mem, m: Mem, r: bv64, root: bv64, pv: seq<bv9>, head0: bv64, head: bv64, stack0: seq<Range>,
                 stack: seq<Range>)
    requires Disposable(m0, r, root, pv, head0, stack0)
    requires Freeing(m0, m, root, pv, LowerFrames(m0, root), LowerFrames(m0, root), stack0, stack, head)
    ensures StackOk(m, r, pv, head, stack) && PivotLive(m, r, pv, {root}) && root !in Pages(stack)
    ensures PivotTable(m, r, pv) == PivotTable(m0, r, pv)
    ensures Quiet(m0, m, Elements(LowerFrames(m0, root)), PivotTable(m0, r, pv), pv[3])
  {
    hide Plan, Node, Tree, NoDup, Linked, Flat, Pages, Aligned, Word, Entry, PivotLive, Quiet, Freeable, PivotTable,
         LowerFrames, PivotLeaf;
    var all := LowerFrames(m0, root);
    PushAllPages(stack0, all);
    StartFreeing(m0, r, root, pv, head0, stack0);
    PivotBoth(m0, r, pv, Pages(stack0), Elements(all), Pages(stack));
    PivotKept(m0, m, r, pv, Elements(all), Pages(stack));
    PivotKept(m0, m, r, pv, Elements(all), {root});
    PivotKept(m0, m, root, pv, Elements(all), Elements(all));
  }

  /** page_table_fini, up to the kfree of the descriptor. */
  method PageTableFini(k: Kernel, root: bv64)
    requires Disposable(k.mem, k.cr3, root, Path(k.pivot), k.physicalPage, k.stack)
    modifies k
    ensures k.cr3 == old(k.cr3) && k.AllocatorOk()
    ensures k.stack == PushAll(old(k.stack), LowerFrames(old(k.mem), root) + [root])
    ensures NoDup(LowerFrames(old(k.mem), root) + [root])
            && Pages(k.stack) == Pages(old(k.stack)) + Elements(LowerFrames(old(k.mem), root) + [root])
    ensures Quiet(old(k.mem), k.mem, Elements(LowerFrames(old(k.mem), root) + [root]),
                  PivotTable(old(k.mem), k.cr3, Path(k.pivot)), Path(k.pivot)[3])
    ensures old(k.Paged()) && NoneIn(old(k.mem), k.cr3, Elements(LowerFrames(old(k.mem), root) + [root])) ==>
              k.Paged() && Evolves(old(k.mem), k.mem, k.cr3, Path(k.pivot), Path(k.pivot))
  {
    hide Disposable, Freeing, Open, Node, Plan, Path, StackOk, Quiet, PivotTable, PivotLive, Aligned, Pages,
         LowerFrames, PushAll, UpTo, FrameOf, Elements, NoneIn, PagedOk, Evolves, NoDup, Flat;
    ghost var m0, stack0, head0, r, pv := k.mem, k.stack, k.physicalPage, k.cr3, Path(k.pivot);
    ghost var all := LowerFrames(m0, root);
    var original := k.cr3;
    k.cr3 := root;
    StartFreeing(m0, r, root, pv, head0, stack0);
    PlanIs(m0, root);
    FreeTables(k, [], LowerHalf(), m0, all, stack0, [], all, root);
    ghost var m1, stack1, head1 := k.mem, k.stack, k.physicalPage;
    k.cr3 := original;
    Switched(m0, m1, r, root, pv, head0, head1, stack0, stack1);
    StackOfFreeing(m0, m1, root, pv, all, stack0, stack1, head1);
    RootFrame(m0, r, root, pv, head0, stack0);
    k.PhysicalFree(FrameOf(root));
    PushAllStep(stack0, all, root);
    QuietThrough(m0, m1, k.mem, all, root, PivotTable(m0, r, pv), pv[3]);
    FreedExactlyOnce(m0, r, root, pv, head0, stack0);
    if old(k.Paged()) && NoneIn(m0, r, Elements(all + [root])) {
      SurvivorKept(m0, k.mem, r, pv, head0, k.physicalPage, stack0, k.stack, Elements(all + [root]));
    }
  }

  lemma PlanIs(m: Mem, root: bv64)
    ensures LowerFrames(m, root) == [] + Plan(m, root, 4 - 0, LowerHalf())
  {
    hide Plan;
  }

  lemma StackOfFreeing(m0: Mem, m: Mem, r: bv64, pv: seq<bv9>, all: seq<bv64>, stack0: seq<Range>, stack: seq<Range>,
                       head: bv64)
    requires Freeing(m0, m, r, pv, all, all, stack0, stack, head)
    ensures stack == PushAll(stack0, all)
  {
    hide StackOk, Freeable, Quiet, Node, PushAll;
  }

  lemma RootFrame(m: Mem, r: bv64, root: bv64, pv: seq<bv9>, head: bv64, stack: seq<Range>)
    requires Disposable(m, r, root, pv, head, stack)
    ensures Aligned(root) && root != LAST_PAGE && FrameOf(root) == root && |pv| == 4 && Node(m, r, pv[..3]).Some?
  {
    hide StackOk, PivotLive, Node, Tree, LowerFrames, Aligned, FrameOf;
    AlignedFrame(root);
    PivotParts(m, r, pv, {root});
  }

  lemma AlignedFrame(f: bv64)
    ensures Aligned(f) ==> FrameOf(f) == f
  {
  }

  /** Each frame below the lower half, and the root, comes to be free exactly once. */
  lemma FreedExactlyOnce(m: Mem, r: bv64, root: bv64, pv: seq<bv9>, head: bv64, stack: seq<Range>)
    requires Disposable(m, r, root, pv, head, stack)
    ensures var d := LowerFrames(m, root) + [root];
            && NoDup(d) && (forall f :: f in d ==> f !in Pages(stack))
            && Flat(PushAll(stack, d)) == Reversed(d) + Flat(stack)
            && Pages(PushAll(stack, d)) == Pages(stack) + Elements(d)
  {
    hide LowerFrames, Flat, PushAll, Node, Pages, Tree, Aligned, PivotLive, Quiet, StackOk, Open;
    StartFreeing(m, r, root, pv, head, stack);
    OneMore(LowerFrames(m, root), root);
    PushAllPages(stack, LowerFrames(m, root) + [root]);
  }

  lemma OneMore(d: seq<bv64>, f: bv64)
    requires NoDup(d) && f !in d
    ensures NoDup(d + [f])
  {
  }

  /** The space that survives keeps its tables and all leaves but the pivot's, if none of its tables was freed. */
  lemma SurvivorKept(m: Mem, m': Mem, r: bv64, pv: seq<bv9>, head: bv64, head': bv64, stack: seq<Range>,
                     stack': seq<Range>, x: set<bv64>)
    requires PagedOk(m, r, pv, head, stack) && NoneIn(m, r, x) && Quiet(m, m', x, PivotTable(m, r, pv), pv[3])
    requires StackOk(m', r, pv, head', stack') && Pages(stack') == Pages(stack) + x
    ensures PagedOk(m', r, pv, head', stack') && Evolves(m, m', r, pv, pv)
  {
    hide Node, Word, Entry, Linked, NoDup, Flat, Injective, Quiet, Evolves, SelfMap, Pages;
    OutsidePrefix(pv, 3);
    assert pv == pv[..3] + [pv[3]];
    SelfMapOf(m, r, pv, head, stack);
    TreeKept(m, m', r, x, pv[..3], PivotTable(m, r, pv), pv[3], Pages(stack'));
    EvolvesQuietly(m, m', r, x, pv[..3], PivotTable(m, r, pv), pv[3], pv, pv);
  }
}
