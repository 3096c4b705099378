/**
 The stack of free physical frames: ranges whose first frame holds, in its first
 two words, the address of the next range and the length of this one.
 */
module FrameStack {
  import opened PageWalk

  const INVALID: bv64 := 0xfff
  const PAGE: bv64 := 0x1000

  datatype Range = Range(base: bv64, length: bv64, pages: seq<bv64>)

  /** Page aligned and below 2^48, as the allocator asserts of every address it handles. */
  predicate Aligned(a: bv64) { a & 0xffff_0000_0000_0fff == 0 }

  /** A length with one page taken off, and an address at an offset. */
  function Shorter(length: bv64): bv64 { length - PAGE }
  function Offset(base: bv64, length: bv64): bv64 { base + length }

  lemma ShorterIsZero(length: bv64)
    ensures Shorter(length) == 0 <==> length == PAGE
  {
  }

  /** The pages of a range, base first, and its length in bytes. */
  predicate RangeOk(base: bv64, length: bv64, pages: seq<bv64>)
    decreases |pages|
  {
    && |pages| > 0 && length & 0xfff == 0 && Aligned(pages[|pages| - 1])
    && if |pages| == 1 then pages[0] == base && length == PAGE
       else && length != PAGE && pages[|pages| - 1] == Offset(base, Shorter(length))
            && RangeOk(base, Shorter(length), pages[..|pages| - 1])
  }

  lemma {:induction false} BaseIsFirst(base: bv64, length: bv64, pages: seq<bv64>)
    requires RangeOk(base, length, pages)
    ensures |pages| > 0 && pages[0] == base && Aligned(base) && (|pages| == 1 <==> length == PAGE)
    decreases |pages|
  {
    if |pages| > 1 {
      BaseIsFirst(base, Shorter(length), pages[..|pages| - 1]);
    }
  }

  /** The ranges linked from address head on. */
  predicate Linked(m: Mem, head: bv64, stack: seq<Range>)
    decreases |stack|
  {
    if stack == [] then head == INVALID
    else
      && stack[0].base == head && RangeOk(head, stack[0].length, stack[0].pages)
      && Word(m, head, 1) == stack[0].length
      && Linked(m, Word(m, head, 0), stack[1..])
  }

  /** All free frames, top of the stack first. */
  function Flat(stack: seq<Range>): seq<bv64>
  {
    if stack == [] then [] else stack[0].pages + Flat(stack[1..])
  }

  function Elements(s: seq<bv64>): set<bv64>
  {
    set f | f in s
  }

  function Pages(stack: seq<Range>): set<bv64>
  {
    Elements(Flat(stack))
  }

  predicate NoDup(s: seq<bv64>)
  {
    forall i, j :: 0 <= i < j < |s| ==> s[i] != s[j]
  }

  /** Only the first frame of each range carries links, and it is free itself. */
  lemma {:induction false} LinkedKept(m: Mem, m': Mem, head: bv64, stack: seq<Range>)
    requires Linked(m, head, stack)
    requires forall f, i :: f in Flat(stack) ==> Word(m', f, i) == Word(m, f, i)
    ensures Linked(m', head, stack)
    decreases |stack|
  {
    hide Word, RangeOk;
    if stack != [] {
      BaseIsFirst(head, stack[0].length, stack[0].pages);
      assert stack[0].pages[0] in Flat(stack);
      LinkedKept(m, m', Word(m, head, 0), stack[1..]);
    }
  }

  // ---------------------------------------------------------------------
  // Taking and adding a page.

  /** The page physical_alloc hands out. */
  function Top(stack: seq<Range>): bv64
    requires stack != [] && stack[0].pages != []
  {
    stack[0].pages[|stack[0].pages| - 1]
  }

  function Pop(stack: seq<Range>): seq<Range>
    requires stack != [] && stack[0].pages != []
  {
    var r := stack[0];
    if |r.pages| == 1 then stack[1..]
    else [Range(r.base, Shorter(r.length), r.pages[..|r.pages| - 1])] + stack[1..]
  }

  function Push(stack: seq<Range>, address: bv64, length: bv64, pages: seq<bv64>): seq<Range>
  {
    [Range(address, length, pages)] + stack
  }

  /** Taking a page takes exactly that page out of the free ones. */
  lemma PopPages(stack: seq<Range>)
    requires stack != [] && stack[0].pages != [] && NoDup(Flat(stack))
    ensures NoDup(Flat(Pop(stack))) && |Flat(Pop(stack))| == |Flat(stack)| - 1
    ensures Top(stack) in Pages(stack) && Pages(Pop(stack)) == Pages(stack) - {Top(stack)}
  {
    var p := stack[0].pages;
    var n := |p| - 1;
    var a, x, b := p[..n], p[n], Flat(stack[1..]);
    assert Flat(stack) == a + [x] + b by { assert p == a + [x]; }
    PopFlat(stack);
    Removed(a, x, b);
  }

  lemma PopFlat(stack: seq<Range>)
    requires stack != [] && stack[0].pages != []
    ensures Flat(Pop(stack)) == stack[0].pages[..|stack[0].pages| - 1] + Flat(stack[1..])
  {
    var n := |stack[0].pages| - 1;
    if n == 0 {
      assert stack[0].pages[..0] + Flat(stack[1..]) == Flat(stack[1..]);
    } else {
      assert Pop(stack)[1..] == stack[1..];
    }
  }

  lemma Removed(a: seq<bv64>, x: bv64, b: seq<bv64>)
    requires NoDup(a + [x] + b)
    ensures NoDup(a + b) && Elements(a + b) == Elements(a + [x] + b) - {x} && x in a + [x] + b
  {
    var s, t := a + [x] + b, a + b;
    assert s[|a|] == x;
    forall i | 0 <= i < |t|
      ensures t[i] == s[if i < |a| then i else i + 1] && t[i] != x
    {
    }
    forall f | f in s && f != x
      ensures f in t
    {
      var i :| 0 <= i < |s| && s[i] == f;
      assert f == t[if i < |a| then i else i - 1];
    }
  }

  /** Adding fresh pages adds exactly those. */
  lemma PushPages(stack: seq<Range>, address: bv64, length: bv64, pages: seq<bv64>)
    requires NoDup(Flat(stack)) && NoDup(pages) && forall f :: f in pages ==> f !in Pages(stack)
    ensures NoDup(Flat(Push(stack, address, length, pages)))
    ensures Flat(Push(stack, address, length, pages)) == pages + Flat(stack)
    ensures Pages(Push(stack, address, length, pages)) == Pages(stack) + Elements(pages)
  {
    var s := Push(stack, address, length, pages);
    assert s[1..] == stack;
    var t := Flat(stack);
    assert Flat(s) == pages + t;
    forall i, j | 0 <= i < j < |pages + t|
      ensures (pages + t)[i] != (pages + t)[j]
    {
      if i < |pages| <= j {
        assert t[j - |pages|] in Pages(stack);
      }
    }
  }

  /** The frame that carries a range's links is handed out last of that range. */
  lemma HeaderLast(m: Mem, head: bv64, stack: seq<Range>)
    requires Linked(m, head, stack) && stack != [] && NoDup(Flat(stack))
    ensures stack[0].pages != [] && (Top(stack) == head <==> |stack[0].pages| == 1)
    ensures Top(stack) != head ==> Pop(stack)[0].base == head && head in Pages(Pop(stack))
  {
    hide Word, RangeOk;
    var p := stack[0].pages;
    BaseIsFirst(head, stack[0].length, p);
    assert Flat(stack) == p + Flat(stack[1..]);
    assert p[0] == Flat(stack)[0] && p[|p| - 1] == Flat(stack)[|p| - 1];
    if |p| > 1 {
      PopFlat(stack);
      assert Flat(Pop(stack))[0] == head;
    }
  }
}
