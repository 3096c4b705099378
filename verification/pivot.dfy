/**
 The pivot page: the one virtual page through which the frame allocator reads and
 writes the links kept inside free frames.
 */
module Pivot {
  import opened PageWalk
  import opened PageTree
  import opened FrameStack

  const FREE_ENTRY: bv64 := 0x00cc_cccc_cccc_cccc
  const WRITABLE: bv64 := JUST_WRITABLE | NO_EXECUTE

  /** The pivot's upper tables exist, are not in x, and its lowest table is none of the others. */
  ghost predicate PivotLive(m: Mem, r: bv64, pv: seq<bv9>, x: set<bv64>)
  {
    && |pv| == 4 && Outside(pv) && SelfMap(m, r)
    && (forall k {:trigger pv[..k]} :: 0 <= k <= 3 ==> Node(m, r, pv[..k]).Some? && Node(m, r, pv[..k]).value !in x)
    && (forall k {:trigger pv[..k]} :: 0 <= k <= 2 ==> Node(m, r, pv[..k]) != Node(m, r, pv[..3]))
  }

  ghost function PivotTable(m: Mem, r: bv64, pv: seq<bv9>): bv64
    requires |pv| == 4 && Node(m, r, pv[..3]).Some?
  {
    Node(m, r, pv[..3]).value
  }

  /** The allocator's whole state: the pivot shows the top range, whose links lead through all free frames. */
  ghost predicate StackOk(m: Mem, r: bv64, pv: seq<bv9>, head: bv64, stack: seq<Range>)
  {
    && PivotLive(m, r, pv, Pages(stack))
    && Linked(m, head, stack) && NoDup(Flat(stack))
    && PivotLeaf(Word(m, PivotTable(m, r, pv), pv[3]), head, stack)
  }

  /** The leaf through which the pivot shows frame f. */
  function PivotEntry(f: bv64): bv64 { f | WRITABLE | 1 }

  predicate PivotLeaf(w: bv64, head: bv64, stack: seq<Range>)
  {
    if stack == [] then !Present(w) else w == PivotEntry(head)
  }

  lemma PivotShown(m: Mem, t: bv64, i: bv9, head: bv64)
    requires Word(m, t, i) == PivotEntry(head) && Aligned(head)
    ensures Entry(m, t, i) == Some(head)
  {
    hide Word, PivotEntry, Present, FrameOf, Aligned;
    WritableEntry(head);
  }

  /** Touching frames outside the pivot's path, and the pivot's own leaf, keeps the pivot alive. */
  lemma PivotKept(m: Mem, m': Mem, r: bv64, pv: seq<bv9>, x: set<bv64>, y: set<bv64>)
    requires PivotLive(m, r, pv, x) && PivotLive(m, r, pv, y)
    requires Quiet(m, m', x, PivotTable(m, r, pv), pv[3])
    ensures PivotLive(m', r, pv, y) && PivotTable(m', r, pv) == PivotTable(m, r, pv)
    ensures forall k {:trigger pv[..k]} :: 0 <= k <= 3 ==> Node(m', r, pv[..k]) == Node(m, r, pv[..k])
  {
    hide Node, Entry, Quiet;
    var t := PivotTable(m, r, pv);
    forall k | 0 <= k <= 3
      ensures Node(m', r, pv[..k]) == Node(m, r, pv[..k])
    {
      PivotWalkKept(m, m', r, pv, x, k);
    }
    NodeEmpty(m, r);
    assert pv[..0] == [];
    EntryKept(m, m', x, t, pv[3], r, FRACTAL);
  }

  lemma PivotWalkKept(m: Mem, m': Mem, r: bv64, pv: seq<bv9>, x: set<bv64>, k: nat)
    requires PivotLive(m, r, pv, x) && Quiet(m, m', x, PivotTable(m, r, pv), pv[3]) && k <= 3
    ensures Node(m', r, pv[..k]) == Node(m, r, pv[..k])
  {
    hide Node, Entry, Quiet;
    forall l | 0 <= l < |pv[..k]| && Node(m, r, pv[..k][..l]).Some?
      ensures Node(m, r, pv[..k][..l]).value !in x + {PivotTable(m, r, pv)}
    {
      assert pv[..k][..l] == pv[..l];
    }
    WalkKept(m, m', r, x, PivotTable(m, r, pv), pv[3], pv[..k]);
  }

  // ---------------------------------------------------------------------
  // Entry words.

  lemma WritableEntry(f: bv64)
    requires Aligned(f)
    ensures f & !PERMISSIONS_MASK == f && f != INVALID
    ensures Present(PivotEntry(f)) && FrameOf(PivotEntry(f)) == f && !Present(FREE_ENTRY)
  {
  }

  // ---------------------------------------------------------------------
  // Taking a page.

  /** While the range has more pages, only its length word changes. */
  lemma ShrinkOk(m: Mem, r: bv64, pv: seq<bv9>, head: bv64, stack: seq<Range>, length: bv64, m': Mem)
    requires StackOk(m, r, pv, head, stack) && stack != [] && stack[0].length != PAGE
    requires length == Shorter(stack[0].length) && m' == Write(m, head, 1, length)
    ensures Quiet(m, m', Pages(stack), PivotTable(m, r, pv), pv[3])
    ensures stack[0].pages != [] && Top(stack) == Offset(head, length) && StackOk(m', r, pv, head, Pop(stack))
  {
    hide Node, Word, Entry, Write, Quiet, Pages, Flat, Aligned, Shorter, Offset, PivotEntry;
    HeadIsFree(m, head, stack);
    PopPages(stack);
    OneWordQuiet(m, head, 1, length, Pages(stack), PivotTable(m, r, pv), pv[3]);
    PivotLiveLess(m, r, pv, Pages(stack), Pages(Pop(stack)));
    PivotKept(m, m', r, pv, Pages(stack), Pages(Pop(stack)));
    HeaderApart(m, r, pv, head, Pages(stack));
    ShrinkLinked(m, head, stack);
  }

  lemma PivotLiveLess(m: Mem, r: bv64, pv: seq<bv9>, x: set<bv64>, y: set<bv64>)
    requires PivotLive(m, r, pv, x) && y <= x
    ensures PivotLive(m, r, pv, y)
  {
    hide Node, Entry;
  }

  lemma HeadIsFree(m: Mem, head: bv64, stack: seq<Range>)
    requires Linked(m, head, stack) && stack != []
    ensures stack[0].pages != [] && head in Pages(stack) && Aligned(head) && stack[0].length & 0xfff == 0
    ensures |stack[0].pages| == 1 <==> stack[0].length == PAGE
    ensures |stack[0].pages| == 1 ==> Top(stack) == head
    ensures |stack[0].pages| > 1 ==> Top(stack) == Offset(head, Shorter(stack[0].length)) && Aligned(Top(stack))
  {
    hide Word, Aligned, Shorter, Offset;
    BaseIsFirst(head, stack[0].length, stack[0].pages);
    assert stack[0].pages[0] in Flat(stack);
  }

  lemma HeaderApart(m: Mem, r: bv64, pv: seq<bv9>, head: bv64, x: set<bv64>)
    requires PivotLive(m, r, pv, x) && head in x
    ensures PivotTable(m, r, pv) != head
  {
    hide Node;
  }

  lemma OneWordQuiet(m: Mem, f: bv64, i: bv9, w: bv64, x: set<bv64>, t: bv64, j: bv9)
    requires f in x || (f == t && i == j)
    ensures Quiet(m, Write(m, f, i, w), x, t, j)
  {
    hide Word, Write;
  }

  lemma EntryAway(m: Mem, f: bv64, i: bv9, w: bv64, g: bv64, j: bv9)
    requires f != g || i != j
    ensures Entry(Write(m, f, i, w), g, j) == Entry(m, g, j)
  {
    hide Word, Write, Present, FrameOf;
  }

  lemma ShrinkLinked(m: Mem, head: bv64, stack: seq<Range>)
    requires Linked(m, head, stack) && stack != [] && stack[0].length != PAGE && NoDup(Flat(stack))
    ensures stack[0].pages != [] && Linked(Write(m, head, 1, Shorter(stack[0].length)), head, Pop(stack))
  {
    hide Word, Write, Aligned, Shorter, Offset, RangeOk, Flat, NoDup;
    var m' := Write(m, head, 1, Shorter(stack[0].length));
    ShorterRange(head, stack[0].length, stack[0].pages);
    RestIsElsewhere(m, head, stack);
    LinkedKept(m, m', Word(m, head, 0), stack[1..]);
    assert Pop(stack)[1..] == stack[1..];
    assert Word(m', head, 0) == Word(m, head, 0) && Word(m', head, 1) == Shorter(stack[0].length);
  }

  lemma ShorterRange(base: bv64, length: bv64, pages: seq<bv64>)
    requires RangeOk(base, length, pages) && length != PAGE
    ensures |pages| > 1 && RangeOk(base, Shorter(length), pages[..|pages| - 1])
  {
    hide Aligned, Shorter, Offset;
  }

  lemma RestIsElsewhere(m: Mem, head: bv64, stack: seq<Range>)
    requires Linked(m, head, stack) && stack != [] && NoDup(Flat(stack))
    ensures head !in Flat(stack[1..])
  {
    hide Word, Aligned;
    BaseIsFirst(head, stack[0].length, stack[0].pages);
    var a, b := stack[0].pages, Flat(stack[1..]);
    assert Flat(stack) == a + b;
    forall k | 0 <= k < |b|
      ensures b[k] != head
    {
      assert (a + b)[0] == head && (a + b)[|a| + k] == b[k];
    }
  }

  /** Memory after the last page of a range is taken: the pivot shows the next range, if any. */
  function Advanced(m: Mem, t: bv64, i: bv9, head: bv64, next: bv64): Mem
  {
    var m2 := Write(Write(m, head, 1, 0), t, i, FREE_ENTRY);
    if next == INVALID then m2 else Write(m2, t, i, PivotEntry(next))
  }

  lemma AdvanceOk(m: Mem, r: bv64, pv: seq<bv9>, head: bv64, stack: seq<Range>)
    requires StackOk(m, r, pv, head, stack) && stack != [] && stack[0].length == PAGE
    ensures var t, next := PivotTable(m, r, pv), Word(m, head, 0);
            var m' := Advanced(m, t, pv[3], head, next);
            && Quiet(m, m', Pages(stack), t, pv[3])
            && stack[0].pages != [] && Top(stack) == head && next != head && (next == INVALID || Aligned(next))
            && Pop(stack) == stack[1..] && StackOk(m', r, pv, next, stack[1..])
  {
    hide Node, Word, Entry, Quiet, Pages, Flat, Aligned, Advanced, RangeOk, PivotEntry, Present;
    var t, next := PivotTable(m, r, pv), Word(m, head, 0);
    var m' := Advanced(m, t, pv[3], head, next);
    HeadIsFree(m, head, stack);
    PopPages(stack);
    AdvancedQuiet(m, t, pv[3], head, next, Pages(stack));
    PivotLiveLess(m, r, pv, Pages(stack), Pages(stack[1..]));
    PivotKept(m, m', r, pv, Pages(stack), Pages(stack[1..]));
    NextRange(m, head, stack);
    assert t != head by { assert pv[..3] == pv[..3]; }
    AdvancedEntry(m, t, pv[3], head, next);
    AdvancedLinked(m, t, pv[3], head, stack);
  }

  lemma AdvancedQuiet(m: Mem, t: bv64, i: bv9, head: bv64, next: bv64, x: set<bv64>)
    requires head in x
    ensures Quiet(m, Advanced(m, t, i, head, next), x, t, i)
  {
    hide PivotEntry, Word, Write;
  }

  lemma NextRange(m: Mem, head: bv64, stack: seq<Range>)
    requires Linked(m, head, stack) && stack != [] && NoDup(Flat(stack))
    ensures var next := Word(m, head, 0);
            && Linked(m, next, stack[1..]) && next != head
            && (stack[1..] == [] ==> next == INVALID) && (stack[1..] != [] ==> Aligned(next) && next != INVALID)
  {
    hide Word, RangeOk, Aligned;
    HeadIsFree(m, head, stack);
    RestIsElsewhere(m, head, stack);
    WritableEntry(head);
    if stack[1..] != [] {
      HeadIsFree(m, Word(m, head, 0), stack[1..]);
      WritableEntry(Word(m, head, 0));
    }
  }

  lemma AdvancedEntry(m: Mem, t: bv64, i: bv9, head: bv64, next: bv64)
    requires next == INVALID || Aligned(next)
    ensures var w := Word(Advanced(m, t, i, head, next), t, i); if next == INVALID then !Present(w)
              else w == PivotEntry(next)
  {
    hide PivotEntry, Word, Write, Aligned, Present, FrameOf;
    WritableEntry(if next == INVALID then 0 else next);
  }

  lemma AdvancedLinked(m: Mem, t: bv64, i: bv9, head: bv64, stack: seq<Range>)
    requires Linked(m, head, stack) && stack != [] && NoDup(Flat(stack)) && t !in Pages(stack)
    ensures Linked(Advanced(m, t, i, head, Word(m, head, 0)), Word(m, head, 0), stack[1..])
  {
    hide PivotEntry, Word, Write, RangeOk, Aligned;
    RestIsElsewhere(m, head, stack);
    assert forall f :: f in Flat(stack[1..]) ==> f in Pages(stack);
    LinkedKept(m, Advanced(m, t, i, head, Word(m, head, 0)), Word(m, head, 0), stack[1..]);
  }

  // ---------------------------------------------------------------------
  // Giving pages back.

  /** Memory after the pivot is moved to the range at a, and its two link words are set. */
  function Linking(m: Mem, t: bv64, i: bv9, a: bv64, next: bv64, length: bv64): Mem
  {
    Write(Write(Write(Write(m, t, i, FREE_ENTRY), t, i, PivotEntry(a)), a, 0, next), a, 1, length)
  }

  lemma LinkingQuiet(m: Mem, t: bv64, i: bv9, a: bv64, next: bv64, length: bv64)
    ensures Quiet(m, Linking(m, t, i, a, next, length), {a}, t, i)
  {
    hide PivotEntry, Word, Write;
  }

  lemma LinkingWords(m: Mem, t: bv64, i: bv9, a: bv64, next: bv64, length: bv64)
    requires t != a && Aligned(a)
    ensures var m' := Linking(m, t, i, a, next, length);
            Word(m', a, 0) == next && Word(m', a, 1) == length && Word(m', t, i) == PivotEntry(a)
  {
    hide PivotEntry, Word, Write, Aligned, Present, FrameOf;
    WritableEntry(a);
  }

  lemma LinkOk(m: Mem, r: bv64, pv: seq<bv9>, head: bv64, stack: seq<Range>, a: bv64, length: bv64, pages: seq<bv64>)
    requires StackOk(m, r, pv, head, stack) && RangeOk(a, length, pages) && NoDup(pages)
    requires PivotLive(m, r, pv, Elements(pages)) && forall f :: f in pages ==> f !in Pages(stack)
    ensures var t := PivotTable(m, r, pv);
            var m' := Linking(m, t, pv[3], a, head, length);
            && Quiet(m, m', {a}, t, pv[3])
            && StackOk(m', r, pv, a, Push(stack, a, length, pages))
  {
    hide Node, Word, Entry, Quiet, Pages, Flat, Aligned, Linking, RangeOk, PivotEntry;
    var t := PivotTable(m, r, pv);
    var m', s := Linking(m, t, pv[3], a, head, length), Push(stack, a, length, pages);
    BaseIsFirst(a, length, pages);
    PushPages(stack, a, length, pages);
    LinkingQuiet(m, t, pv[3], a, head, length);
    PivotBoth(m, r, pv, Pages(stack), Elements(pages), Pages(s));
    PivotLiveLess(m, r, pv, Elements(pages), {a});
    PivotKept(m, m', r, pv, {a}, Pages(s));
    LinkingWords(m, t, pv[3], a, head, length);
    LinkingLinked(m, t, pv[3], head, stack, a, length);
    assert s[1..] == stack;
  }

  lemma PivotBoth(m: Mem, r: bv64, pv: seq<bv9>, x: set<bv64>, y: set<bv64>, z: set<bv64>)
    requires PivotLive(m, r, pv, x) && PivotLive(m, r, pv, y) && z == x + y
    ensures PivotLive(m, r, pv, z)
  {
    hide Node, Entry;
  }

  lemma LinkingLinked(m: Mem, t: bv64, i: bv9, head: bv64, stack: seq<Range>, a: bv64, length: bv64)
    requires Linked(m, head, stack) && t !in Pages(stack) && a !in Pages(stack)
    ensures Linked(Linking(m, t, i, a, head, length), head, stack)
  {
    hide PivotEntry, Word, Write, RangeOk, Aligned;
    assert forall f :: f in Flat(stack) ==> f in Pages(stack);
    LinkedKept(m, Linking(m, t, i, a, head, length), head, stack);
  }

  // ---------------------------------------------------------------------
  // What the pivot shows along the way.

  lemma PivotShows(m: Mem, r: bv64, pv: seq<bv9>, head: bv64, x: set<bv64>)
    requires PivotLive(m, r, pv, x) && Entry(m, PivotTable(m, r, pv), pv[3]) == Some(head)
    ensures Node(m, r, pv) == Some(head) && Upper(m, r, pv[..3], x)
  {
    hide Node, Entry;
    assert pv == pv[..3] + [pv[3]];
    NodeStep(m, r, pv[..3], pv[3]);
    PivotUpper(m, r, pv, x);
  }

  lemma PivotUpper(m: Mem, r: bv64, pv: seq<bv9>, x: set<bv64>)
    requires PivotLive(m, r, pv, x)
    ensures Upper(m, r, pv[..3], x)
  {
    hide Node, Entry;
    forall k | 0 <= k <= 3
      ensures pv[..3][..k] == pv[..k]
    {
    }
  }

  /** A store to a frame of x, or to the pivot's leaf, leaves the pivot alive. */
  lemma PivotAfter(m: Mem, r: bv64, pv: seq<bv9>, x: set<bv64>, f: bv64, i: bv9, w: bv64)
    requires PivotLive(m, r, pv, x) && (f in x || (f == PivotTable(m, r, pv) && i == pv[3]))
    ensures var m' := Write(m, f, i, w); PivotLive(m', r, pv, x) && PivotTable(m', r, pv) == PivotTable(m, r, pv)
  {
    hide Node, Entry, Word, Write, Quiet, PivotTable;
    OneWordQuiet(m, f, i, w, x, PivotTable(m, r, pv), pv[3]);
    PivotKept(m, Write(m, f, i, w), r, pv, x, x);
  }
}
