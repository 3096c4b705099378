/** Steps that keep the page tables a tree and the allocator consistent. */
module PagedSteps {
  import opened PageWalk
  import opened PageTree
  import opened FrameStack
  import opened Pivot

  /** The tables form a tree of frames none of which is free, and the allocator is consistent. */
  ghost predicate PagedOk(m: Mem, r: bv64, pv: seq<bv9>, head: bv64, stack: seq<Range>)
  {
    StackOk(m, r, pv, head, stack) && Injective(m, r) && NoneIn(m, r, Pages(stack))
  }

  /** The same tables on the pivot's path, the same free frames, the same pivot leaf. */
  lemma StackKept(m: Mem, m': Mem, r: bv64, pv: seq<bv9>, head: bv64, stack: seq<Range>)
    requires StackOk(m, r, pv, head, stack) && SelfMap(m', r)
    requires forall k {:trigger pv[..k]} :: 0 <= k <= 3 ==> Node(m', r, pv[..k]) == Node(m, r, pv[..k])
    requires forall f, i :: f in Flat(stack) ==> Word(m', f, i) == Word(m, f, i)
    requires Word(m', PivotTable(m, r, pv), pv[3]) == Word(m, PivotTable(m, r, pv), pv[3])
    ensures StackOk(m', r, pv, head, stack)
  {
    hide Node, Word, Entry, Linked, NoDup, Flat, PivotLeaf;
    LinkedKept(m, m', head, stack);
    assert pv[..3] == pv[..3];
  }

  // ---------------------------------------------------------------------
  // One leaf of another page.

  lemma LeafStep(m: Mem, r: bv64, pv: seq<bv9>, head: bv64, stack: seq<Range>, q: seq<bv9>, t: bv64, w: bv64)
    requires PagedOk(m, r, pv, head, stack) && |q| == 4 && Outside(q) && q != pv && Node(m, r, q[..3]) == Some(t)
    ensures var m' := Write(m, t, q[3], w);
            PagedOk(m', r, pv, head, stack) && Evolves(m, m', r, pv, q) && Leaf(m', r, q) == w
  {
    hide Node, Word, Entry, Write, Linked, NoDup, Flat, Pages, Injective, Quiet, NoneIn, Evolves, Leaf, PivotTable,
         StackOk;
    var m' := Write(m, t, q[3], w);
    assert q[..3] + [q[3]] == q;
    OutsidePrefix(q, 3);
    OneWordQuiet(m, t, q[3], w, {}, t, q[3]);
    NoneInEmpty(m, r);
    SelfMapOf(m, r, pv, head, stack);
    TreeKept(m, m', r, {}, q[..3], t, q[3], Pages(stack));
    EvolvesQuietly(m, m', r, {}, q[..3], t, q[3], pv, q);
    LeafWritten(m, r, q, t, w);
    LeafStepStack(m, r, pv, head, stack, q, t, w);
  }

  lemma NoneInEmpty(m: Mem, r: bv64)
    ensures NoneIn(m, r, {})
  {
  }

  lemma LeafWritten(m: Mem, r: bv64, q: seq<bv9>, t: bv64, w: bv64)
    requires |q| == 4 && Outside(q) && Node(m, r, q[..3]) == Some(t) && Injective(m, r)
    ensures Leaf(Write(m, t, q[3], w), r, q) == w
  {
    hide Node, Word, Write, Injective, Quiet, NoneIn;
    var m' := Write(m, t, q[3], w);
    OutsidePrefix(q, 3);
    OneWordQuiet(m, t, q[3], w, {}, t, q[3]);
    NoneInEmpty(m, r);
    NodeKept(m, m', r, {}, q[..3], t, q[3], q[..3]);
  }

  lemma LeafStepStack(m: Mem, r: bv64, pv: seq<bv9>, head: bv64, stack: seq<Range>, q: seq<bv9>, t: bv64, w: bv64)
    requires PagedOk(m, r, pv, head, stack) && |q| == 4 && Outside(q) && q != pv && Node(m, r, q[..3]) == Some(t)
    requires SelfMap(Write(m, t, q[3], w), r)
    ensures StackOk(Write(m, t, q[3], w), r, pv, head, stack)
  {
    hide PivotLeaf, Node, Word, Entry, Write, Linked, NoDup, Flat, Injective, Quiet, SelfMap;
    var m' := Write(m, t, q[3], w);
    OutsidePrefix(q, 3);
    OneWordQuiet(m, t, q[3], w, {}, t, q[3]);
    NoneInEmpty(m, r);
    forall k | 0 <= k <= 3
      ensures Node(m', r, pv[..k]) == Node(m, r, pv[..k])
    {
      OutsidePrefix(pv, k);
      NodeKept(m, m', r, {}, q[..3], t, q[3], pv[..k]);
    }
    assert t !in Flat(stack);
    OutsidePrefix(pv, 3);
    assert q == q[..3] + [q[3]] && pv == pv[..3] + [pv[3]];
    if PivotTable(m, r, pv) == t {
      InjectiveAt(m, r, q[..3], pv[..3]);
    }
    StackKept(m, m', r, pv, head, stack);
  }

  // ---------------------------------------------------------------------
  // Allocation.

  /** Taking a page moves no table, and the page is no table. */
  lemma AllocStep(m: Mem, m': Mem, r: bv64, pv: seq<bv9>, head: bv64, stack: seq<Range>, q: seq<bv9>)
    requires PagedOk(m, r, pv, head, stack) && stack != [] && stack[0].pages != []
    requires Quiet(m, m', Pages(stack), PivotTable(m, r, pv), pv[3])
    ensures Injective(m', r) && SelfMap(m', r) && NoneIn(m', r, Pages(Pop(stack))) && NoneIn(m', r, {Top(stack)})
    ensures Top(stack) !in Pages(Pop(stack)) && |Flat(Pop(stack))| == |Flat(stack)| - 1
    ensures Pages(Pop(stack)) <= Pages(stack) && Evolves(m, m', r, pv, q)
    ensures |q| == 4 && Outside(q) && q != pv ==> Leaf(m', r, q) == Leaf(m, r, q)
    ensures forall p :: |p| <= 3 && Outside(p) ==> Node(m', r, p) == Node(m, r, p)
  {
    hide Node, Word, Entry, Linked, NoDup, Flat, Injective, Quiet, Evolves, Leaf, Pop, Top, SelfMap, Pages;
    var t, x := PivotTable(m, r, pv), Pages(stack);
    PopPages(stack);
    OutsidePrefix(pv, 3);
    assert pv == pv[..3] + [pv[3]];
    TreeKept(m, m', r, x, pv[..3], t, pv[3], x);
    EvolvesQuietly(m, m', r, x, pv[..3], t, pv[3], pv, q);
    forall p: seq<bv9> | |p| <= 3 && Outside(p)
      ensures Node(m', r, p) == Node(m, r, p)
    {
      NodeKept(m, m', r, x, pv[..3], t, pv[3], p);
    }
  }

  /** A parent entry written before its table is cleared already leads there. */
  lemma EntrySet(m: Mem, r: bv64, p: seq<bv9>, t: bv64, w: bv64, f: bv64, free: set<bv64>)
    requires Hangs(m, r, p, t, w, f) && SelfMap(m, r) && NoneIn(m, r, free) && f !in free
    ensures var m' := Write(m, t, p[|p| - 1], w); SelfMap(m', r) && Node(m', r, p) == Some(f) && Upper(m', r, p, free)
  {
    hide Node, Word, Write, Injective, Quiet, Present, FrameOf;
    var n := |p| - 1;
    var m' := Write(m, t, p[n], w);
    OneWordQuiet(m, t, p[n], w, {}, t, p[n]);
    forall k | 0 <= k <= n
      ensures Node(m', r, p[..k]) == Node(m, r, p[..k]) && Outside(p[..k])
    {
      PrefixKept(m, m', r, p, t, k);
    }
    NodeEmpty(m, r);
    assert p == p[..n] + [p[n]] && p[..|p|] == p && p[..0] == [];
    NodeStep(m', r, p[..n], p[n]);
    RootSlot(m, r, p, t, w);
  }

  lemma PrefixKept(m: Mem, m': Mem, r: bv64, p: seq<bv9>, t: bv64, k: nat)
    requires 1 <= |p| <= 3 && Outside(p) && Injective(m, r) && Node(m, r, p[..|p| - 1]) == Some(t) && k < |p|
    requires Quiet(m, m', {}, t, p[|p| - 1])
    ensures Node(m', r, p[..k]) == Node(m, r, p[..k])
  {
    hide Node, Injective, Quiet;
    OutsidePrefix(p, |p| - 1);
    forall l | 0 <= l < |p[..k]| && Node(m, r, p[..k][..l]).Some?
      ensures Node(m, r, p[..k][..l]).value !in {} + {t}
    {
      assert p[..k][..l] == p[..l];
      OutsidePrefix(p, l);
      if Node(m, r, p[..l]).value == t {
        InjectiveAt(m, r, p[..l], p[..|p| - 1]);
      }
    }
    WalkKept(m, m', r, {}, t, p[|p| - 1], p[..k]);
  }

  lemma RootSlot(m: Mem, r: bv64, p: seq<bv9>, t: bv64, w: bv64)
    requires 1 <= |p| <= 3 && Outside(p) && Injective(m, r) && Node(m, r, p[..|p| - 1]) == Some(t) && SelfMap(m, r)
    ensures SelfMap(Write(m, t, p[|p| - 1], w), r)
  {
    hide Node, Injective, Entry, Write;
    NodeEmpty(m, r);
    OutsidePrefix(p, |p| - 1);
    if t == r {
      InjectiveAt(m, r, [], p[..|p| - 1]);
    }
    EntryAway(m, t, p[|p| - 1], w, r, FRACTAL);
  }

  /** A new table hung below an existing one. */
  lemma TableStep(m: Mem, r: bv64, pv: seq<bv9>, head: bv64, stack: seq<Range>, p: seq<bv9>, t: bv64, w: bv64, f: bv64,
                  q: seq<bv9>)
    requires StackOk(m, r, pv, head, stack) && NoneIn(m, r, Pages(stack)) && Hangs(m, r, p, t, w, f)
             && f !in Pages(stack) && p <= q
    ensures var m' := WithTable(m, t, p[|p| - 1], w, f);
            && PagedOk(m', r, pv, head, stack) && Evolves(m, m', r, pv, q) && Node(m', r, p) == Some(f)
            && (|q| == 4 && Outside(q) ==> Leaf(m', r, q) == Leaf(m, r, q))
            && (forall l {:trigger Node(m', r, l)} :: p <= l && l != p && |l| <= 3 ==> Node(m', r, l) == None)
  {
    hide Node, Word, Entry, Linked, NoDup, Flat, Pages, Injective, WithTable, Evolves, Leaf, StackOk;
    var m' := WithTable(m, t, p[|p| - 1], w, f);
    SelfMapOf(m, r, pv, head, stack);
    TreeWithTable(m, r, p, t, w, f, Pages(stack));
    EvolvesWithTable(m, r, p, t, w, f, pv, q);
    forall l: seq<bv9> | |l| <= 3 && p <= l
      ensures Node(m', r, l) == if l == p then Some(f) else None
    {
      NodeWithTable(m, r, p, t, w, f, l);
    }
    TableStepStack(m, r, pv, head, stack, p, t, w, f);
  }

  lemma SelfMapOf(m: Mem, r: bv64, pv: seq<bv9>, head: bv64, stack: seq<Range>)
    requires StackOk(m, r, pv, head, stack)
    ensures SelfMap(m, r)
  {
  }

  lemma NotAbove(m: Mem, r: bv64, p: seq<bv9>, l: seq<bv9>)
    requires Node(m, r, p) == None && Node(m, r, l).Some?
    ensures !(p <= l)
  {
    hide Node;
    if p <= l {
      assert l[..|p|] == p;
      NodePrefix(m, r, l, |p|);
    }
  }

  lemma TableStepStack(m: Mem, r: bv64, pv: seq<bv9>, head: bv64, stack: seq<Range>, p: seq<bv9>, t: bv64, w: bv64,
                       f: bv64)
    requires StackOk(m, r, pv, head, stack) && NoneIn(m, r, Pages(stack)) && Hangs(m, r, p, t, w, f)
             && f !in Pages(stack)
    requires SelfMap(WithTable(m, t, p[|p| - 1], w, f), r)
    ensures StackOk(WithTable(m, t, p[|p| - 1], w, f), r, pv, head, stack)
  {
    hide PivotLeaf, Node, Word, Entry, Linked, NoDup, Flat, Injective, SelfMap, Present, FrameOf;
    var m' := WithTable(m, t, p[|p| - 1], w, f);
    NotThere(m, r, p, t, w, f);
    forall k | 0 <= k <= 3
      ensures Node(m', r, pv[..k]) == Node(m, r, pv[..k])
    {
      OutsidePrefix(pv, k);
      NodeWithTable(m, r, p, t, w, f, pv[..k]);
      NotAbove(m, r, p, pv[..k]);
    }
    OutsidePrefix(p, |p| - 1);
    OutsidePrefix(pv, 3);
    assert t !in Flat(stack);
    if PivotTable(m, r, pv) == t {
      InjectiveAt(m, r, p[..|p| - 1], pv[..3]);
    }
    StackKept(m, m', r, pv, head, stack);
  }

  // ---------------------------------------------------------------------
  // Giving a frame back.

  lemma FreeStep(m: Mem, m': Mem, r: bv64, pv: seq<bv9>, head: bv64, stack: seq<Range>, a: bv64, q: seq<bv9>)
    requires PagedOk(m, r, pv, head, stack) && NoneIn(m, r, {a}) && a !in Pages(stack)
    requires Quiet(m, m', {a}, PivotTable(m, r, pv), pv[3]) && StackOk(m', r, pv, a, Push(stack, a, PAGE, [a]))
    ensures PagedOk(m', r, pv, a, Push(stack, a, PAGE, [a])) && Evolves(m, m', r, pv, q)
    ensures Pages(Push(stack, a, PAGE, [a])) == Pages(stack) + {a}
    ensures forall p :: |p| <= 3 && Outside(p) ==> Node(m', r, p) == Node(m, r, p)
  {
    hide Node, Word, Entry, Linked, NoDup, Flat, Injective, Quiet, Evolves, SelfMap, Pages, Push;
    var t, s := PivotTable(m, r, pv), Push(stack, a, PAGE, [a]);
    OutsidePrefix(pv, 3);
    assert pv == pv[..3] + [pv[3]];
    PushOne(stack, a);
    SelfMapOf(m, r, pv, head, stack);
    TreeKept(m, m', r, {a}, pv[..3], t, pv[3], Pages(s));
    EvolvesQuietly(m, m', r, {a}, pv[..3], t, pv[3], pv, q);
    forall p: seq<bv9> | |p| <= 3 && Outside(p)
      ensures Node(m', r, p) == Node(m, r, p)
    {
      NodeKept(m, m', r, {a}, pv[..3], t, pv[3], p);
    }
  }

  lemma PushOne(stack: seq<Range>, a: bv64)
    requires NoDup(Flat(stack)) && a !in Pages(stack)
    ensures Pages(Push(stack, a, PAGE, [a])) == Pages(stack) + {a} && NoDup(Flat(Push(stack, a, PAGE, [a])))
    ensures Flat(Push(stack, a, PAGE, [a])) == [a] + Flat(stack)
  {
    hide NoDup;
    OneNoDup(a);
    PushPages(stack, a, PAGE, [a]);
  }

  lemma OneNoDup(a: bv64)
    ensures NoDup([a])
  {
  }

  lemma OnePageRange(a: bv64)
    requires Aligned(a)
    ensures RangeOk(a, PAGE, [a]) && NoDup([a])
  {
  }

  lemma PivotLiveOf(m: Mem, r: bv64, pv: seq<bv9>, head: bv64, stack: seq<Range>, a: bv64)
    requires StackOk(m, r, pv, head, stack) && NoneIn(m, r, {a})
    ensures PivotLive(m, r, pv, {a})
  {
    hide Node, Linked, NoDup, Flat, Entry;
    forall k | 0 <= k <= 3
      ensures Outside(pv[..k])
    {
    }
  }

  /** Clients may overwrite any frame that is neither free nor a table: the lists, the tables and every leaf stay. */
  lemma ClientWrite(m: Mem, r: bv64, pv: seq<bv9>, head: bv64, stack: seq<Range>, f: bv64, i: bv9, w: bv64)
    requires PagedOk(m, r, pv, head, stack) && f !in Pages(stack) && NoneIn(m, r, {f})
    ensures var m' := Write(m, f, i, w);
            && PagedOk(m', r, pv, head, stack)
            && forall q {:trigger Leaf(m', r, q)} :: |q| == 4 && Outside(q) ==> Leaf(m', r, q) == Leaf(m, r, q)
  {
    hide Node, Word, Entry, Write, Linked, NoDup, Flat, Injective, Quiet, SelfMap, Leaf, PivotLeaf;
    var m', t := Write(m, f, i, w), PivotTable(m, r, pv);
    OutsidePrefix(pv, 3);
    OneWordQuiet(m, f, i, w, {f}, t, pv[3]);
    SelfMapOf(m, r, pv, head, stack);
    TreeKept(m, m', r, {f}, pv[..3], t, pv[3], Pages(stack));
    forall k | 0 <= k <= 3
      ensures Node(m', r, pv[..k]) == Node(m, r, pv[..k])
    {
      OutsidePrefix(pv, k);
      NodeKept(m, m', r, {f}, pv[..3], t, pv[3], pv[..k]);
    }
    OtherFrames(m, f, i, w);
    StackKept(m, m', r, pv, head, stack);
    forall q: seq<bv9> | |q| == 4 && Outside(q)
      ensures Leaf(m', r, q) == Leaf(m, r, q)
    {
      OutsidePrefix(q, 3);
      NodeKept(m, m', r, {f}, pv[..3], t, pv[3], q[..3]);
      SameLeaf(m, m', r, q, f);
    }
  }

  lemma OtherFrames(m: Mem, f: bv64, i: bv9, w: bv64)
    ensures forall g, j {:trigger Word(Write(m, f, i, w), g, j)} :: g != f ==>
              Word(Write(m, f, i, w), g, j) == Word(m, g, j)
  {
  }

  lemma SameLeaf(m: Mem, m': Mem, r: bv64, q: seq<bv9>, f: bv64)
    requires |q| == 4 && Node(m', r, q[..3]) == Node(m, r, q[..3])
             && (Node(m, r, q[..3]).Some? ==> Node(m, r, q[..3]).value != f)
    requires forall g, j {:trigger Word(m', g, j)} :: g != f ==> Word(m', g, j) == Word(m, g, j)
    ensures Leaf(m', r, q) == Leaf(m, r, q)
  {
    hide Node, Word;
  }
}
