/** The kernel heap: 16 pages of bytes, tiled by used and free regions. */
module Heap {
  import opened Bits
  import opened Regions

  const HEAP: nat := 16 * 4096
  const RED_ZONE: nat := 8
  const FILL: byte := 0xcc
  // ---------------------------------------------------------------------
  // Sums over regions.

  ghost function Sum(s: multiset<Region>, f: Region -> int): int
    decreases |s|
  {
    if s == multiset{} then 0 else var r :| r in s; f(r) + Sum(s - multiset{r}, f)
  }

  /** The order of summation does not matter. */
  lemma {:induction false} SumInsert(s: multiset<Region>, r: Region, f: Region -> int)
    ensures Sum(s + multiset{r}, f) == Sum(s, f) + f(r)
    decreases |s|
  {
    var t := s + multiset{r};
    var a :| a in t && Sum(t, f) == f(a) + Sum(t - multiset{a}, f);
    if a == r {
      assert t - multiset{r} == s;
    } else {
      var rest := s - multiset{a};
      assert t - multiset{a} == rest + multiset{r} && s == rest + multiset{a};
      SumInsert(rest, r, f);
      SumInsert(rest, a, f);
    }
  }

  lemma {:induction false} SumNatural(s: multiset<Region>, f: Region -> int)
    requires forall r :: f(r) >= 0
    ensures Sum(s, f) >= 0
    decreases |s|
  {
    if s != multiset{} {
      var r :| r in s;
      var rest := s - multiset{r};
      assert s == rest + multiset{r};
      SumNatural(rest, f);
      SumInsert(rest, r, f);
    }
  }

  /** Exchanging one region for two whose weights add up keeps the sum. */
  lemma SumSplit(s: multiset<Region>, s': multiset<Region>, t: Region, a: Region, b: Region, f: Region -> int)
    requires s' + multiset{t} == s + multiset{a} + multiset{b} && f(t) == f(a) + f(b)
    ensures Sum(s', f) == Sum(s, f)
  {
    SumInsert(s', t, f);
    SumInsert(s, a, f);
    SumInsert(s + multiset{a}, b, f);
  }

  function SizeOf(): Region -> int { (r: Region) => r.size }

  predicate Covers(r: Region, x: int) { r.address <= x < r.address + r.size }

  function CoverAt(x: int): Region -> int { (r: Region) => if Covers(r, x) then 1 else 0 }

  // ---------------------------------------------------------------------
  // Tiling.

  predicate InHeap(r: Region, base: nat)
  {
    0 < r.size && base <= r.address && r.address + r.size <= base + HEAP
  }

  /** Every byte of the heap lies in exactly one region, and no region leaves the heap. */
  ghost predicate Tiled(s: multiset<Region>, base: nat)
  {
    && (forall r :: r in s ==> InHeap(r, base))
    && (forall x {:trigger CoverAt(x)} :: base <= x < base + HEAP ==> Sum(s, CoverAt(x)) == 1)
  }

  /** So two regions of a tiling have no byte in common. */
  lemma Disjoint(s: multiset<Region>, base: nat, r: Region, t: Region, x: int)
    requires Tiled(s, base) && r in s && t in s - multiset{r} && Covers(r, x)
    ensures !Covers(t, x)
  {
    var a := s - multiset{r};
    var b := a - multiset{t};
    assert s == a + multiset{r} && a == b + multiset{t};
    assert InHeap(r, base);
    SumInsert(a, r, CoverAt(x));
    SumInsert(b, t, CoverAt(x));
    SumNatural(b, CoverAt(x));
  }

  lemma Tiling(s: multiset<Region>, base: nat, x: int)
    requires Tiled(s, base) && base <= x < base + HEAP
    ensures Sum(s, CoverAt(x)) == 1
  {
  }

  lemma TiledSplit(s: multiset<Region>, s': multiset<Region>, base: nat, t: Region, n: nat)
    requires Tiled(s, base) && t in s && 0 < n < t.size
    requires s' + multiset{t} == s + multiset{Region(t.address, n)} + multiset{Region(t.address + n, t.size - n)}
    ensures Tiled(s', base)
  {
    hide Sum, CoverAt;
    var a, b := Region(t.address, n), Region(t.address + n, t.size - n);
    assert InHeap(t, base);
    forall r | r in s'
      ensures InHeap(r, base)
    {
      assert r in s' + multiset{t};
      assert r in s || r == a || r == b;
    }
    forall x | base <= x < base + HEAP
      ensures Sum(s', CoverAt(x)) == 1
    {
      Tiling(s, base, x);
      CoverSplit(t, n, x);
      SumSplit(s, s', t, a, b, CoverAt(x));
    }
  }

  lemma CoverSplit(t: Region, n: nat, x: int)
    requires n <= t.size
    ensures CoverAt(x)(t) == CoverAt(x)(Region(t.address, n)) + CoverAt(x)(Region(t.address + n, t.size - n))
  {
  }

  // ---------------------------------------------------------------------
  // The bytes.

  predicate Filled(s: seq<byte>, lo: int, hi: int)
  {
    0 <= lo <= hi <= |s| && forall i :: lo <= i < hi ==> s[i] == FILL
  }

  /** A used region: room for a payload between two red zones that are still filled. */
  predicate Guarded(s: seq<byte>, base: nat, r: Region)
  {
    var lo := r.address - base;
    && r.size >= 2 * RED_ZONE
    && Filled(s, lo, lo + RED_ZONE) && Filled(s, lo + r.size - RED_ZONE, lo + r.size)
  }

  ghost predicate HeapOk(used: multiset<Region>, free: multiset<Region>, s: seq<byte>, base: nat, usage: int)
  {
    && |s| == HEAP && Tiled(used + free, base) && usage == Sum(used, SizeOf())
    && (forall r :: r in free ==> Filled(s, r.address - base, r.address - base + r.size))
    && (forall r :: r in used ==> Guarded(s, base, r))
  }

  /** The front n bytes of free region t become used. */
  lemma Allocated(used: multiset<Region>, free: multiset<Region>, s: seq<byte>, base: nat, usage: int,
                  used': multiset<Region>, free': multiset<Region>, t: Region, n: nat)
    requires HeapOk(used, free, s, base, usage) && t in free && 2 * RED_ZONE <= n < t.size
    requires used' == used + multiset{Region(t.address, n)}
    requires free' + multiset{t} == free + multiset{Region(t.address + n, t.size - n)}
    ensures HeapOk(used', free', s, base, usage + n) && InHeap(t, base)
    ensures Filled(s, t.address - base, t.address - base + t.size)
  {
    hide Sum, Tiled;
    var a, b := Region(t.address, n), Region(t.address + n, t.size - n);
    SplitParts(used, free, used', free', t, a, b);
    TiledSplit(used + free, used' + free', base, t, n);
    RegionsInHeap(used + free, base, t);
    SumInsert(used, a, SizeOf());
    forall r | r in free'
      ensures Filled(s, r.address - base, r.address - base + r.size)
    {
      assert r in free' + multiset{t};
      assert r in free || r == b;
    }
  }

  lemma RegionsInHeap(s: multiset<Region>, base: nat, t: Region)
    requires Tiled(s, base) && t in s
    ensures InHeap(t, base)
  {
  }

  lemma SplitParts(used: multiset<Region>, free: multiset<Region>, used': multiset<Region>, free': multiset<Region>,
                   t: Region, a: Region, b: Region)
    requires used' == used + multiset{a} && free' + multiset{t} == free + multiset{b}
    ensures (used' + free') + multiset{t} == (used + free) + multiset{a} + multiset{b}
  {
    assert (used' + free') + multiset{t} == used' + (free' + multiset{t});
  }

  /** Used region t becomes free, its bytes filled. */
  lemma Freed(used: multiset<Region>, free: multiset<Region>, s: seq<byte>, base: nat, usage: int,
              used': multiset<Region>, free': multiset<Region>, t: Region, s': seq<byte>)
    requires HeapOk(used, free, s, base, usage) && t in used && used' + multiset{t} == used
             && free' == free + multiset{t}
    requires InHeap(t, base) && Filling(s, s', t.address - base, t.size)
    ensures HeapOk(used', free', s', base, usage - t.size)
  {
    hide Sum, Tiled;
    assert used' + free' == used + free;
    SumInsert(used', t, SizeOf());
    forall r | r in used'
      ensures Guarded(s', base, r)
    {
      assert r in used' + multiset{t};
      assert Guarded(s, base, r);
    }
    forall r | r in free'
      ensures Filled(s', r.address - base, r.address - base + r.size)
    {
      if r in free {
        assert Filled(s, r.address - base, r.address - base + r.size);
      }
    }
  }

  /** s' is s with n bytes from lo on set to the fill byte. */
  predicate Filling(s: seq<byte>, s': seq<byte>, lo: int, n: nat)
  {
    && 0 <= lo && lo + n <= |s| == |s'|
    && forall i :: 0 <= i < |s| ==> s'[i] == if lo <= i < lo + n then FILL else s[i]
  }

  /** Writing inside the payload of a used region disturbs nothing. */
  lemma PayloadWritten(used: multiset<Region>, free: multiset<Region>, s: seq<byte>, base: nat, usage: int, t: Region,
                       s': seq<byte>)
    requires HeapOk(used, free, s, base, usage) && t in used && |s'| == |s|
    requires forall i :: 0 <= i < |s| && !InPayload(t, base, i) ==> s'[i] == s[i]
    ensures HeapOk(used, free, s', base, usage)
  {
    hide Sum, Tiled;
    forall r | r in free
      ensures Filled(s', r.address - base, r.address - base + r.size)
    {
      RegionsApart(used, free, base, t, r);
      Untouched(s, s', base, t, r);
    }
    forall r | r in used
      ensures Guarded(s', base, r)
    {
      assert Guarded(s, base, r);
      if r != t {
        RegionsApart(used, free, base, t, r);
        Untouched(s, s', base, t, r);
      }
    }
  }

  lemma Untouched(s: seq<byte>, s': seq<byte>, base: nat, t: Region, r: Region)
    requires |s'| == |s| && forall i :: 0 <= i < |s| && !InPayload(t, base, i) ==> s'[i] == s[i]
    requires forall x :: Covers(t, x) ==> !Covers(r, x)
    ensures forall i :: 0 <= i < |s| && r.address - base <= i < r.address - base + r.size ==> s'[i] == s[i]
  {
    forall i | 0 <= i < |s| && r.address - base <= i < r.address - base + r.size
      ensures s'[i] == s[i]
    {
      assert Covers(r, base + i);
      assert !Covers(t, base + i);
    }
  }

  predicate InPayload(t: Region, base: nat, i: int)
  {
    t.address - base + RED_ZONE <= i < t.address - base + t.size - RED_ZONE
  }

  lemma RegionsApart(used: multiset<Region>, free: multiset<Region>, base: nat, t: Region, r: Region)
    requires Tiled(used + free, base) && t in used && (r in free || (r in used && r != t))
    ensures forall x :: Covers(t, x) ==> !Covers(r, x)
  {
    hide Tiled;
    assert r in (used + free) - multiset{t};
    forall x | Covers(t, x)
      ensures !Covers(r, x)
    {
      Disjoint(used + free, base, t, r, x);
    }
  }

  /** Live regions are found by their address alone. */
  lemma OneAtAddress(used: multiset<Region>, free: multiset<Region>, s: seq<byte>, base: nat, usage: int, t: Region,
                     r: Region)
    requires HeapOk(used, free, s, base, usage) && t in used && r in used && r.address == t.address
    ensures r == t
  {
    hide Tiled;
    RegionsInHeap(used + free, base, t);
    RegionsInHeap(used + free, base, r);
    assert Covers(t, t.address) && Covers(r, t.address);
    if r != t {
      RegionsApart(used, free, base, t, r);
    }
  }

  // ---------------------------------------------------------------------
  // The arithmetic of a request.

  /** The size asked of the region vector: two red zones more, in 64 bits. */
  function Request(n: nat): nat { (n + 2 * RED_ZONE) % TWO64 }

  predicate Wraps(n: nat) { n + 2 * RED_ZONE >= TWO64 }

  function Times(count: nat, size: nat): (n: nat)
    ensures n < TWO64
  {
    (count * size) % TWO64
  }

  /** The four range assertions of kmalloc. */
  predicate InRange(n: nat, address: nat, base: nat)
  {
    base <= address < base + HEAP && base < (address + n) % TWO64 <= base + HEAP
  }

  /** An empty request served from the first byte, or a wrapped one served from the first few. */
  predicate OutOfRange(n: nat, address: nat, base: nat)
  {
    (n == 0 && address == base) || (Wraps(n) && address <= base + (TWO64 - n))
  }

  ghost predicate AllWithin(free: multiset<Region>, size: nat)
  {
    forall r :: r in free ==> r.size <= size
  }

  /** The record that would serve the request makes a range assertion fail. */
  ghost predicate Tripping(pages: Chain, n: nat, base: nat)
  {
    exists a :: FirstAt(pages, Request(n), a) && OutOfRange(n, a, base)
  }

  lemma NoFirst(pages: Chain, n: nat, base: nat)
    requires AllWithin(AllRegions(pages), Request(n))
    ensures !Tripping(pages, n, base)
  {
    hide FirstAt, AllRegions;
    forall a | FirstAt(pages, Request(n), a)
      ensures false
    {
      FirstIn(pages, Request(n), a);
    }
  }

  lemma FirstDecides(pages: Chain, i: nat, j: nat, n: nat, base: nat)
    requires FirstFit(pages, i, j, Request(n))
    ensures FirstAt(pages, Request(n), pages[i][j].address)
    ensures Tripping(pages, n, base) <==> OutOfRange(n, pages[i][j].address, base)
  {
    var b := pages[i][j].address;
    assert FirstAt(pages, Request(n), b);
    hide FirstAt, FirstFit, OutOfRange;
    forall a | FirstAt(pages, Request(n), a)
      ensures a == b
    {
      OneFirst(pages, Request(n), a, b);
    }
  }

  /** One free region lost its front. */
  ghost predicate Shortened(free: multiset<Region>, free': multiset<Region>, address: nat, size: nat)
  {
    exists t :: t in free && t.address == address && t.size > size
                && free' + multiset{t} == free + multiset{Region(address + size, t.size - size)}
  }

  lemma IsShortened(free: multiset<Region>, free': multiset<Region>, t: Region, size: nat)
    requires t in free && t.size > size
             && free' + multiset{t} == free + multiset{Region(t.address + size, t.size - size)}
    ensures Shortened(free, free', t.address, size)
  {
  }

  lemma RangeTest(n: nat, address: nat, size: nat, base: nat)
    requires n < TWO64 && 8 <= base && base + HEAP < TWO64 && InHeap(Region(address, size), base) && Request(n) < size
    ensures InRange(n, address, base) <==> !OutOfRange(n, address, base)
  {
    var k := TWO64 - n;
    if Wraps(n) {
      assert (address + n) % TWO64 == if address < k then address + n else address - k;
    } else {
      assert Request(n) == n + 2 * RED_ZONE;
      assert (address + n) % TWO64 == address + n;
    }
  }

  /** What a call of the allocator comes to; Trips is a failed assertion, Overrun a store outside the heap. */
  datatype Outcome = Null | Trips | Overrun | Block(p: nat)

  // ---------------------------------------------------------------------
  // The allocator.

  class KernelHeap {
    const base: nat
    const bytes: array<byte>
    const used: RegionVector
    const free: RegionVector
    var usage: nat

    ghost predicate Valid()
      reads this, used, free, bytes
    {
      && used != free && used.Valid() && free.Valid() && Packed(free.pages)
      && 8 <= base && base + HEAP < TWO64 && bytes.Length == HEAP
      && HeapOk(used.Contents(), free.Contents(), bytes[..], base, usage)
    }

    /** heap_init: one free region, every byte filled. */
    constructor (start: nat)
      requires 8 <= start && start + HEAP < TWO64
      ensures Valid() && base == start && used.Contents() == multiset{}
              && free.Contents() == multiset{Region(start, HEAP)} && usage == 0 && free.pages == [[Region(start, HEAP)]]
      ensures Filled(bytes[..], 0, HEAP)
      ensures fresh(bytes) && fresh(used) && fresh(free)
    {
      hide HeapOk, AllRegions;
      base := start;
      var u := new RegionVector();
      var f := new RegionVector();
      var i := f.Free(start, HEAP);
      assert i == 0 && f.pages[0] == [Region(start, HEAP)];
      used, free := u, f;
      var b := new byte[HEAP](_ => FILL);
      bytes := b;
      usage := 0;
      StartOk(u.Contents(), f.Contents(), b[..], start);
    }

    /** Reads n bytes from offset lo on and compares them with the fill pattern. */
    method CheckFill(lo: nat, n: nat) returns (ok: bool)
      requires lo + n <= bytes.Length
      ensures ok <==> Filled(bytes[..], lo, lo + n)
    {
      for i := 0 to n
        invariant forall k :: lo <= k < lo + i ==> bytes[k] == FILL
      {
        if bytes[lo + i] != FILL {
          return false;
        }
      }
      return true;
    }

    /** memset. */
    method Set(lo: nat, n: nat, b: byte)
      requires lo + n <= bytes.Length
      modifies bytes
      ensures forall i :: 0 <= i < bytes.Length ==> bytes[i] == if lo <= i < lo + n then b else old(bytes[i])
    {
      for i := 0 to n
        invariant forall k :: 0 <= k < bytes.Length ==> bytes[k] == if lo <= k < lo + i then b else old(bytes[k])
      {
        bytes[lo + i] := b;
      }
    }

    /** kmalloc, for every value of its size_t argument. */
    method KMalloc(n: nat) returns (r: Outcome)
      requires Valid() && n < TWO64
      modifies this, used, free
      ensures r.Null? <==> AllWithin(old(free.Contents()), Request(n))
      ensures r.Trips? <==> Tripping(old(free.pages), n, base)
      ensures r.Null? ==>
                && Valid() && used.Contents() == old(used.Contents()) && free.Contents() == old(free.Contents())
                && usage == old(usage) && free.pages == old(free.pages)
      ensures r.Block? ==> base + RED_ZONE <= r.p && Served(old(free.pages), free.pages, Request(n), r.p - RED_ZONE)
      ensures r.Block? ==> base + RED_ZONE <= r.p && FirstAt(old(free.pages), Request(n), r.p - RED_ZONE)
      ensures r.Block? ==> used.Contents() == old(used.Contents()) + multiset{Region(r.p - RED_ZONE, Request(n))}
      ensures r.Block? ==> Shortened(old(free.Contents()), free.Contents(), r.p - RED_ZONE, Request(n))
      ensures r.Block? ==> usage == old(usage) + Request(n) && (Valid() <==> !Wraps(n))
      ensures r.Block? && !Wraps(n) ==>
                r.p + n + RED_ZONE <= base + HEAP && Filled(bytes[..], r.p - base, r.p - base + n)
      ensures !r.Overrun?
    {
      hide HeapOk, AllRegions, Filled, FirstAt, FirstFit, Tripping, OutOfRange, Shortened, InRange, Served, Packed;
      var size := Request(n);
      ghost var u, f, pages := used.Contents(), free.Contents(), free.pages;
      var ok, address, i, j := free.Alloc(size);
      if !ok {
        NoFirst(pages, n, base);
        return Null;
      }
      FirstIs(pages, i, j, size);
      ghost var t := pages[i][j];
      IsShortened(f, free.Contents(), t, size);
      IsServed(pages, free.pages, i, j, size, address);
      var _ := used.Free(address, size);
      FreeRegion(u, f, bytes[..], base, usage, t);
      FilledWithin(bytes[..], t.address - base, t.size, 0, size / 8 * 8);
      var filled := CheckFill(address - base, size / 8 * 8);
      assert filled;
      RangeTest(n, address, t.size, base);
      FirstDecides(pages, i, j, n, base);
      if !InRange(n, address, base) {
        return Trips;
      }
      usage := usage + size;
      if Wraps(n) {
        NoRoom(used.Contents(), free.Contents(), bytes[..], base, usage, Region(address, size));
      } else {
        Allocated(u, f, bytes[..], base, old(usage), used.Contents(), free.Contents(), t, size);
        FilledWithin(bytes[..], t.address - base, t.size, RED_ZONE, n);
      }
      return Block(address + RED_ZONE);
    }

    /** kcalloc: the payload is zero. The product wraps around as size_t does. */
    method KCalloc(count: nat, size: nat) returns (r: Outcome)
      requires Valid() && count < TWO64 && size < TWO64
      modifies this, used, free, bytes
      ensures r.Null? <==> AllWithin(old(free.Contents()), Request(Times(count, size)))
      ensures r.Trips? <==> Tripping(old(free.pages), Times(count, size), base)
      ensures (r.Block? ==> !Wraps(Times(count, size))) && (r.Overrun? ==> Wraps(Times(count, size)))
      ensures r.Null? ==> Valid() && used.Contents() == old(used.Contents()) && bytes[..] == old(bytes[..])
      ensures r.Block? ==> Valid() && base + RED_ZONE <= r.p
                           && used.Contents() == old(used.Contents())
                               + multiset{Region(r.p - RED_ZONE, Times(count, size) + 2 * RED_ZONE)}
      ensures r.Block? ==> Served(old(free.pages), free.pages, Request(Times(count, size)), r.p - RED_ZONE)
      ensures r.Block? ==> forall i :: 0 <= i < HEAP ==>
                             bytes[i] == if r.p - base <= i < r.p - base + Times(count, size) then 0 else old(bytes[i])
    {
      hide HeapOk, AllRegions, Filled, Times, FirstAt, Tripping, Shortened, AllWithin, Served, Packed;
      var n := Times(count, size);
      r := KMalloc(n);
      if !r.Block? {
        return;
      }
      if Wraps(n) {
        // memset would leave the heap, and the address space with it.
        return Overrun;
      }
      ghost var s := bytes[..];
      Set(r.p - base, n, 0);
      PayloadWritten(used.Contents(), free.Contents(), s, base, usage, Region(r.p - RED_ZONE, n + 2 * RED_ZONE),
                     bytes[..]);
    }

    /** kfree of a live pointer, or of NULL. */
    method KFree(p: nat)
      requires Valid() && (p != 0 ==> p >= RED_ZONE && exists r :: r in used.Contents() && r.address == p - RED_ZONE)
      modifies this, used, free, bytes
      ensures Valid()
      ensures p == 0 ==>
                && used.Contents() == old(used.Contents()) && free.Contents() == old(free.Contents())
                && bytes[..] == old(bytes[..]) && free.pages == old(free.pages)
      ensures p != 0 ==>
                forall r :: r in old(used.Contents()) && r.address == p - RED_ZONE ==>
                  exists i :: Appended(old(free.pages), free.pages, i, r)
      ensures forall size: nat, a: nat :: FirstAt(old(free.pages), size, a) ==> FirstAt(free.pages, size, a)
      ensures p != 0 ==>
                forall r :: r in old(used.Contents()) && r.address == p - RED_ZONE ==>
                  && usage == old(usage) - r.size
                  && used.Contents() + multiset{r} == old(used.Contents())
                  && free.Contents() == old(free.Contents()) + multiset{r}
                  && base <= r.address && Filling(old(bytes[..]), bytes[..], r.address - base, r.size)
    {
      hide HeapOk, AllRegions, FirstAt, Packed, FirstThere, Without, Appended;
      if p == 0 {
        return;
      }
      var address := p - RED_ZONE;
      ghost var u, f, s := used.Contents(), free.Contents(), bytes[..];
      var size, t, _ := used.FindSizeAndFree(address);
      LiveRegion(u, f, s, base, usage, t);
      forall r | r in u && r.address == address
        ensures r == t
      {
        OneAtAddress(u, f, s, base, old(usage), t, r);
      }
      var prefix := CheckFill(address - base, RED_ZONE);
      var suffix := CheckFill(address - base + size - RED_ZONE, RED_ZONE);
      assert prefix && suffix;
      assert base <= address < base + HEAP && base < address + size <= base + HEAP;
      Set(address - base, size, FILL);
      assert Filling(s, bytes[..], t.address - base, t.size);
      usage := usage - size;
      ghost var pages := free.pages;
      var i := free.Free(address, size);
      PackedAfterAppend(pages, free.pages, i, t);
      forall n: nat, a: nat | FirstAt(pages, n, a)
        ensures FirstAt(free.pages, n, a)
      {
        FirstAfterAppend(pages, free.pages, i, t, n, a);
      }
      Freed(u, f, s, base, old(usage), used.Contents(), free.Contents(), t, bytes[..]);
    }

    /** A client writes one byte of a payload it holds. */
    method ClientStore(p: nat, i: nat, b: byte, ghost n: nat)
      requires Valid() && p >= RED_ZONE && Region(p - RED_ZONE, n + 2 * RED_ZONE) in used.Contents() && i < n
      requires base <= p + i && p + i - base < bytes.Length
      modifies bytes
      ensures Valid() && bytes[..] == old(bytes[..])[p + i - base := b]
    {
      hide HeapOk, AllRegions;
      ghost var s := bytes[..];
      bytes[p + i - base] := b;
      PayloadWritten(used.Contents(), free.Contents(), s, base, usage, Region(p - RED_ZONE, n + 2 * RED_ZONE),
                     bytes[..]);
    }
  }

  /** Eight fill bytes are the 64-bit pattern of the red zones. */
  lemma FillPattern(s: seq<byte>, lo: nat)
    requires lo + RED_ZONE <= |s| && Filled(s, lo, lo + RED_ZONE)
    ensures s[lo] as int + 0x100 * s[lo + 1] as int + 0x1_0000 * s[lo + 2] as int + 0x100_0000 * s[lo + 3] as int
            + 0x1_0000_0000 * s[lo + 4] as int + 0x100_0000_0000 * s[lo + 5] as int
            + 0x1_0000_0000_0000 * s[lo + 6] as int + 0x100_0000_0000_0000 * s[lo + 7] as int
            == 0xcccc_cccc_cccc_cccc
  {
  }

  lemma FilledWithin(s: seq<byte>, lo: int, n: nat, k: nat, l: nat)
    requires Filled(s, lo, lo + n) && k + l <= n
    ensures Filled(s, lo + k, lo + k + l)
  {
  }

  lemma FreeRegion(used: multiset<Region>, free: multiset<Region>, s: seq<byte>, base: nat, usage: int, t: Region)
    requires HeapOk(used, free, s, base, usage) && t in free
    ensures InHeap(t, base) && Filled(s, t.address - base, t.address - base + t.size)
  {
    assert t in used + free;
  }

  /** A used region too small for its red zones breaks the heap. */
  lemma NoRoom(used: multiset<Region>, free: multiset<Region>, s: seq<byte>, base: nat, usage: int, t: Region)
    requires t in used && t.size < 2 * RED_ZONE
    ensures !HeapOk(used, free, s, base, usage)
  {
    assert !Guarded(s, base, t);
  }

  lemma LiveRegion(used: multiset<Region>, free: multiset<Region>, s: seq<byte>, base: nat, usage: int, t: Region)
    requires HeapOk(used, free, s, base, usage) && t in used
    ensures InHeap(t, base) && Guarded(s, base, t) && usage >= t.size
  {
    hide Sum;
    assert t in used + free;
    var rest := used - multiset{t};
    assert used == rest + multiset{t};
    SumInsert(rest, t, SizeOf());
    SumNatural(rest, SizeOf());
  }

  lemma StartOk(used: multiset<Region>, free: multiset<Region>, s: seq<byte>, base: nat)
    requires used == multiset{} && free == multiset{Region(base, HEAP)} && |s| == HEAP && forall i :: 0 <= i < HEAP ==>
               s[i] == FILL
    ensures HeapOk(used, free, s, base, 0)
  {
    hide Sum;
    var t := Region(base, HEAP);
    assert used + free == multiset{} + multiset{t};
    SumEmpty(SizeOf());
    forall x | base <= x < base + HEAP
      ensures Sum(used + free, CoverAt(x)) == 1
    {
      SumEmpty(CoverAt(x));
      SumInsert(multiset{}, t, CoverAt(x));
    }
  }

  lemma SumEmpty(f: Region -> int)
    ensures Sum(multiset{}, f) == 0
  {
  }

  /** With a single free region every request that finds a place finds it there. */
  lemma SingleFirst(pages: Chain, t: Region, size: nat, a: nat)
    requires AllRegions(pages) == multiset{t} && FirstAt(pages, size, a)
    ensures a == t.address
  {
    hide AllRegions, FirstAt;
    FirstIn(pages, size, a);
  }

  /** kmalloc on a heap with the single free region t. */
  method SingleRequest(h: KernelHeap, t: Region, n: nat) returns (r: Outcome)
    requires h.Valid() && n < TWO64 && h.free.Contents() == multiset{t} && Request(n) < t.size
    modifies h, h.used, h.free
    ensures r == if OutOfRange(n, t.address, h.base) then Trips else Block(t.address + RED_ZONE)
    ensures r.Block? ==> Served(old(h.free.pages), h.free.pages, Request(n), t.address)
    ensures r.Block? ==> h.used.Contents() == old(h.used.Contents()) + multiset{Region(t.address, Request(n))}
    ensures r.Block? ==>
              h.free.Contents() == multiset{Region(t.address + Request(n), t.size - Request(n))}
              && (h.Valid() <==> !Wraps(n))
  {
    hide HeapOk, AllRegions, FirstAt, Filled, Request, OutOfRange;
    ghost var f, pages := h.free.Contents(), h.free.pages;
    assert t in f;
    r := h.KMalloc(n);
    if r.Trips? {
      ghost var a :| FirstAt(pages, Request(n), a) && OutOfRange(n, a, h.base);
      SingleFirst(pages, t, Request(n), a);
    }
    if r.Block? {
      SingleFirst(pages, t, Request(n), r.p - RED_ZONE);
      SingleShortened(f, h.free.Contents(), t, Request(n));
    }
  }

  lemma Cancel(s: multiset<Region>, t: Region, b: Region)
    requires s + multiset{t} == multiset{t} + multiset{b}
    ensures s == multiset{b}
  {
    forall e: Region
      ensures s[e] == multiset{b}[e]
    {
      assert (s + multiset{t})[e] == (multiset{t} + multiset{b})[e];
    }
  }

  lemma ShortenedBy(free: multiset<Region>, free': multiset<Region>, address: nat, size: nat) returns (t: Region)
    requires Shortened(free, free', address, size)
    ensures t in free && t.address == address && t.size > size
    ensures free' + multiset{t} == free + multiset{Region(address + size, t.size - size)}
  {
    t :| t in free && t.address == address && t.size > size
         && free' + multiset{t} == free + multiset{Region(address + size, t.size - size)};
  }

  lemma SingleShortened(free: multiset<Region>, free': multiset<Region>, t: Region, size: nat)
    requires free == multiset{t} && Shortened(free, free', t.address, size)
    ensures size < t.size && free' == multiset{Region(t.address + size, t.size - size)}
  {
    hide Shortened;
    var u := ShortenedBy(free, free', t.address, size);
    assert u == t;
    Cancel(free', t, Region(t.address + size, t.size - size));
  }

  /** kmalloc(0) on a fresh heap trips the third range assertion. */
  method EmptyRequest(start: nat) returns (r: Outcome)
    requires 8 <= start && start + HEAP < TWO64
    ensures r == Trips
  {
    hide HeapOk, AllRegions, Filled;
    var h := new KernelHeap(start);
    r := SingleRequest(h, Region(start, HEAP), 0);
  }

  /** After kmalloc(8), a request for 2^64 - 1 bytes is granted with a used region of 15 bytes. */
  method WrappedRequest(start: nat) returns (h: KernelHeap, r: Outcome)
    requires 8 <= start && start + HEAP < TWO64
    ensures fresh(h) && r == Block(start + 32) && Region(start + 24, 15) in h.used.Contents() && !h.Valid()
  {
    hide HeapOk, AllRegions, Filled;
    h := new KernelHeap(start);
    r := SingleRequest(h, Region(start, HEAP), 8);
    r := SingleRequest(h, Region(start + 24, HEAP - 24), TWO64 - 1);
  }

  lemma OnlyServed(pages: Chain, pages': Chain, t: Region, size: nat, a: nat)
    requires pages == [[t]] && Served(pages, pages', size, a)
    ensures a == t.address && size < t.size && pages' == [[Region(a + size, t.size - size)]]
  {
    var i: nat, j: nat :| FirstFit(pages, i, j, size) && ServedAt(pages, pages', i, j, size, a);
    assert i == 0 && j == 0;
    var x := Region(a + size, t.size - size);
    assert [t][0 := x] == [x] && [[t]][0 := [x]] == [[x]];
  }

  /** The first fitting record decides the outcome. */
  lemma FirstServes(pages: Chain, n: nat, base: nat, a: nat)
    requires FirstAt(pages, Request(n), a) && !OutOfRange(n, a, base)
    ensures !AllWithin(AllRegions(pages), Request(n)) && !Tripping(pages, n, base)
    ensures forall b :: FirstAt(pages, Request(n), b) ==> b == a
  {
    hide FirstAt, AllRegions, OutOfRange;
    FirstIn(pages, Request(n), a);
    forall b | FirstAt(pages, Request(n), b)
      ensures b == a
    {
      OneFirst(pages, Request(n), a, b);
    }
  }

  lemma OnlyFirst(pages: Chain, t: Region, size: nat)
    requires pages == [[t]] && size < t.size
    ensures FirstAt(pages, size, t.address)
  {
    assert FirstFit(pages, 0, 0, size);
  }

  /** A request that the first record can serve is not served from a region freed in between. */
  method FreeThenRequest(start: nat) returns (a: Outcome, b: Outcome)
    requires 8 <= start && start + HEAP < TWO64
    ensures a == Block(start + 8) && b == Block(start + 124)
  {
    hide HeapOk, AllRegions, Filled, FirstAt, Served, Packed, Appended;
    var h := new KernelHeap(start);
    ghost var pages := h.free.pages;
    a := SingleRequest(h, Region(start, HEAP), 100);
    OnlyServed(pages, h.free.pages, Region(start, HEAP), 116, start);
    OnlyFirst(h.free.pages, Region(start + 116, HEAP - 116), 66);
    assert Region(start, 116) in h.used.Contents();
    h.KFree(start + 8);
    FirstServes(h.free.pages, 50, start, start + 116);
    b := h.KMalloc(50);
  }
}
