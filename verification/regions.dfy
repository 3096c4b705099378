/**
 Region vectors: chained pages of (address, size) records with first-fit
 allocation, append, and removal by swapping in the last record. A chain is the
 sequence of its pages, head first; a page is the sequence of its used records.
 */
module Regions {

  datatype Region = Region(address: nat, size: nat)

  /** How many records fit a page behind the two-word header. */
  const REGIONS: nat := (4096 - 16) / 16

  type Chain = seq<seq<Region>>

  function AllRegions(pages: Chain): multiset<Region>
  {
    if pages == [] then multiset{} else multiset(pages[0]) + AllRegions(pages[1..])
  }

  lemma {:induction false} PageIn(pages: Chain, i: nat)
    requires i < |pages|
    ensures multiset(pages[i]) <= AllRegions(pages)
  {
    if i > 0 {
      PageIn(pages[1..], i - 1);
    }
  }

  /** Replacing one page exchanges its records. */
  lemma {:induction false} ReplacePage(pages: Chain, i: nat, page: seq<Region>)
    requires i < |pages|
    ensures AllRegions(pages[i := page]) + multiset(pages[i]) == AllRegions(pages) + multiset(page)
  {
    if i == 0 {
      assert pages[0 := page][1..] == pages[1..];
    } else {
      ReplacePage(pages[1..], i - 1, page);
      assert pages[i := page][1..] == pages[1..][i - 1 := page];
      var a, b, p := AllRegions(pages[1..]), AllRegions(pages[1..][i - 1 := page]), multiset(pages[0]);
      assert (p + b) + multiset(pages[i]) == p + (b + multiset(pages[i]));
      assert (p + a) + multiset(page) == p + (a + multiset(page));
    }
  }

  lemma {:induction false} AppendPage(pages: Chain, page: seq<Region>)
    ensures AllRegions(pages + [page]) == AllRegions(pages) + multiset(page)
  {
    if pages == [] {
      assert (pages + [page])[1..] == [];
    } else {
      assert (pages + [page])[1..] == pages[1..] + [page];
      AppendPage(pages[1..], page);
    }
  }

  /** An empty page carries nothing. */
  lemma {:induction false} DropEmptyPage(pages: Chain, i: nat)
    requires i < |pages| && pages[i] == []
    ensures AllRegions(pages[..i] + pages[i + 1..]) == AllRegions(pages)
  {
    if i == 0 {
      assert pages[..0] + pages[1..] == pages[1..];
    } else {
      DropEmptyPage(pages[1..], i - 1);
      var rest := pages[..i] + pages[i + 1..];
      assert rest[1..] == pages[1..][..i - 1] + pages[1..][i..];
    }
  }

  lemma UpdateRecord(page: seq<Region>, j: nat, r: Region)
    requires j < |page|
    ensures multiset(page[j := r]) + multiset{page[j]} == multiset(page) + multiset{r}
  {
  }

  /** The page with record j overwritten by the last one, which is dropped. */
  function SwapRemoved(page: seq<Region>, j: nat): seq<Region>
    requires j < |page|
  {
    page[j := page[|page| - 1]][..|page| - 1]
  }

  lemma SwapRemovedIs(page: seq<Region>, j: nat)
    requires j < |page|
    ensures multiset(SwapRemoved(page, j)) + multiset{page[j]} == multiset(page)
  {
    var n := |page| - 1;
    var p := page[j := page[n]];
    assert p == p[..n] + [p[n]];
    assert page == page[..n] + [page[n]];
    UpdateRecord(page, j, page[n]);
  }

  /** Exchanging p for q in a, where p with y is q with x, exchanges x for y. */
  lemma Exchange(a: multiset<Region>, b: multiset<Region>, p: multiset<Region>, q: multiset<Region>,
                 x: multiset<Region>, y: multiset<Region>)
    requires b + p == a + q && q + x == p + y
    ensures b + x == a + y
  {
    forall e: Region
      ensures (b + x)[e] == (a + y)[e]
    {
      assert (b + p)[e] == (a + q)[e] && (q + x)[e] == (p + y)[e];
    }
  }

  lemma SplitRecord(pages: Chain, i: nat, j: nat, r: Region)
    requires i < |pages| && j < |pages[i]|
    ensures pages[i][j] in AllRegions(pages)
    ensures AllRegions(pages[i := pages[i][j := r]]) + multiset{pages[i][j]} == AllRegions(pages) + multiset{r}
  {
    var page := pages[i];
    Found(pages, i, j);
    UpdateRecord(page, j, r);
    ReplacePage(pages, i, page[j := r]);
    Exchange(AllRegions(pages), AllRegions(pages[i := page[j := r]]), multiset(page), multiset(page[j := r]),
             multiset{page[j]}, multiset{r});
  }

  lemma AppendRecord(pages: Chain, i: nat, r: Region)
    requires i < |pages|
    ensures AllRegions(pages[i := pages[i] + [r]]) == AllRegions(pages) + multiset{r}
  {
    var page := pages[i];
    ReplacePage(pages, i, page + [r]);
    assert multiset(page + [r]) == multiset(page) + multiset{r};
    Exchange(AllRegions(pages), AllRegions(pages[i := page + [r]]), multiset(page), multiset(page + [r]), multiset{},
             multiset{r});
  }

  lemma RemoveRecord(pages: Chain, i: nat, j: nat)
    requires i < |pages| && j < |pages[i]|
    ensures pages[i][j] in AllRegions(pages)
    ensures AllRegions(pages[i := SwapRemoved(pages[i], j)]) + multiset{pages[i][j]} == AllRegions(pages)
  {
    var page := pages[i];
    Found(pages, i, j);
    SwapRemovedIs(page, j);
    ReplacePage(pages, i, SwapRemoved(page, j));
    Exchange(AllRegions(pages), AllRegions(pages[i := SwapRemoved(page, j)]), multiset(page),
             multiset(SwapRemoved(page, j)),
             multiset{page[j]}, multiset{});
  }

  /** No record before record j of page i is longer than size. */
  ghost predicate NoneBefore(pages: Chain, i: nat, j: nat, size: nat)
  {
    forall k, l :: 0 <= k < |pages| && 0 <= l < |pages[k]| && (k < i || (k == i && l < j)) ==> pages[k][l].size <= size
  }

  /** Record j of page i is the first longer than size. */
  ghost predicate FirstFit(pages: Chain, i: nat, j: nat, size: nat)
  {
    i < |pages| && j < |pages[i]| && pages[i][j].size > size && NoneBefore(pages, i, j, size)
  }

  /** The first record longer than size starts at address. */
  ghost predicate FirstAt(pages: Chain, size: nat, address: nat)
  {
    exists i: nat, j: nat :: FirstFit(pages, i, j, size) && pages[i][j].address == address
  }

  lemma FirstIs(pages: Chain, i: nat, j: nat, size: nat)
    requires FirstFit(pages, i, j, size)
    ensures i < |pages| && j < |pages[i]| && pages[i][j].size > size && FirstAt(pages, size, pages[i][j].address)
  {
  }

  lemma OneFirst(pages: Chain, size: nat, a: nat, b: nat)
    requires FirstAt(pages, size, a) && FirstAt(pages, size, b)
    ensures a == b
  {
  }

  lemma FirstIn(pages: Chain, size: nat, a: nat)
    requires FirstAt(pages, size, a)
    ensures exists r :: r in AllRegions(pages) && r.address == a && r.size > size
  {
    var i: nat, j: nat :| FirstFit(pages, i, j, size) && pages[i][j].address == a;
    Found(pages, i, j);
  }

  /** The first longer record gives its front, in place. */
  ghost predicate Served(pages: Chain, pages': Chain, size: nat, address: nat)
  {
    exists i: nat, j: nat :: FirstFit(pages, i, j, size) && ServedAt(pages, pages', i, j, size, address)
  }

  ghost predicate ServedAt(pages: Chain, pages': Chain, i: nat, j: nat, size: nat, address: nat)
    requires FirstFit(pages, i, j, size)
  {
    && pages[i][j].address == address
    && pages' == pages[i := pages[i][j := Region(address + size, pages[i][j].size - size)]]
  }

  /** All pages before i are full, and r has become the last record of page i, or the one of a new last page i. */
  ghost predicate Appended(pages: Chain, pages': Chain, i: nat, r: Region)
  {
    && i <= |pages| && (forall k :: 0 <= k < i ==> |pages[k]| == REGIONS)
    && if i < |pages| then |pages[i]| < REGIONS && pages' == pages[i := pages[i] + [r]] else pages' == pages + [[r]]
  }

  /** Record j of page i is the first at the address. */
  ghost predicate FirstThere(pages: Chain, i: nat, j: nat, address: nat)
  {
    && i < |pages| && j < |pages[i]| && pages[i][j].address == address
    && forall k, l :: 0 <= k < |pages| && 0 <= l < |pages[k]| && (k < i || (k == i && l < j)) ==>
         pages[k][l].address != address
  }

  /** Without record j of page i, whose place the last one takes; a page behind the head goes with its only record. */
  function Without(pages: Chain, i: nat, j: nat): Chain
    requires i < |pages| && j < |pages[i]|
  {
    if i > 0 && |pages[i]| == 1 then pages[..i] + pages[i + 1..] else pages[i := SwapRemoved(pages[i], j)]
  }

  // ---------------------------------------------------------------------
  // A chain that never loses a record.

  /** Only the last page has room. */
  ghost predicate Packed(pages: Chain)
  {
    |pages| >= 1 && forall k :: 0 <= k < |pages| - 1 ==> |pages[k]| == REGIONS
  }

  lemma PackedAfterAppend(pages: Chain, pages': Chain, i: nat, r: Region)
    requires Packed(pages) && Appended(pages, pages', i, r)
    ensures Packed(pages')
  {
  }

  lemma IsServed(pages: Chain, pages': Chain, i: nat, j: nat, size: nat, address: nat)
    requires FirstFit(pages, i, j, size) && ServedAt(pages, pages', i, j, size, address)
    ensures Served(pages, pages', size, address) && (Packed(pages) ==> Packed(pages'))
  {
  }

  /** No record is longer than size. */
  ghost predicate NoneFits(pages: Chain, size: nat) { NoneBefore(pages, |pages|, 0, size) }

  lemma FirstOf(pages: Chain, size: nat, a: nat) returns (k: nat, l: nat)
    requires FirstAt(pages, size, a)
    ensures FirstFit(pages, k, l, size) && k < |pages| && l < |pages[k]| && pages[k][l].address == a
  {
    k, l :| FirstFit(pages, k, l, size) && pages[k][l].address == a;
  }

  /** In a packed chain an appended record comes last, and the others stay where they are. */
  lemma AppendedLast(pages: Chain, pages': Chain, i: nat, r: Region, k: nat, l: nat)
    requires Packed(pages) && Appended(pages, pages', i, r) && k < |pages'| && l < |pages'[k]|
    ensures if k < |pages| && l < |pages[k]| then pages'[k][l] == pages[k][l]
            && (k < i || (k == i && l < |pages'[i]| - 1))
            else i < |pages'| && k == i && l == |pages'[i]| - 1 && pages'[k][l] == r
  {
  }

  lemma FitKept(pages: Chain, pages': Chain, i: nat, r: Region, size: nat, k: nat, l: nat)
    requires Packed(pages) && Appended(pages, pages', i, r) && k < |pages| && l < |pages[k]|
    ensures k < |pages'| && l < |pages'[k]| && pages'[k][l] == pages[k][l]
    ensures FirstFit(pages', k, l, size) <==> FirstFit(pages, k, l, size)
  {
    forall c: nat, d: nat {:trigger pages[c][d]} | c < |pages| && d < |pages[c]|
      ensures c < |pages'| && d < |pages'[c]| && pages'[c][d] == pages[c][d]
    {
      assert c <= i && |pages'[c]| >= |pages[c]|;
    }
    forall c: nat, d: nat {:trigger pages'[c][d]} | c < |pages'| && d < |pages'[c]| && (c < k || (c == k && d < l))
      ensures c < |pages| && d < |pages[c]| && pages[c][d] == pages'[c][d]
    {
      AppendedLast(pages, pages', i, r, c, d);
      AppendedLast(pages, pages', i, r, k, l);
    }
  }

  lemma NewFit(pages: Chain, pages': Chain, i: nat, r: Region, size: nat)
    requires Packed(pages) && Appended(pages, pages', i, r)
    ensures i < |pages'| && |pages'[i]| > 0 && pages'[i][|pages'[i]| - 1] == r
    ensures FirstFit(pages', i, |pages'[i]| - 1, size) <==> NoneFits(pages, size) && r.size > size
  {
    forall c: nat, d: nat {:trigger pages[c][d]} | c < |pages| && d < |pages[c]|
      ensures && c < |pages'| && d < |pages'[c]| && pages'[c][d] == pages[c][d]
              && (c < i || (c == i && d < |pages'[i]| - 1))
    {
      assert c <= i && |pages'[c]| >= |pages[c]|;
      AppendedLast(pages, pages', i, r, c, d);
    }
    forall c: nat, d: nat {:trigger pages'[c][d]}
      | c < |pages'| && d < |pages'[c]| && (c < i || (c == i && d < |pages'[i]| - 1))
      ensures c < |pages| && d < |pages[c]| && pages[c][d] == pages'[c][d]
    {
      AppendedLast(pages, pages', i, r, c, d);
    }
  }

  /** So it serves only what nothing served before. */
  lemma FirstAfterAppend(pages: Chain, pages': Chain, i: nat, r: Region, size: nat, a: nat)
    requires Packed(pages) && Appended(pages, pages', i, r)
    ensures FirstAt(pages', size, a) <==>
              FirstAt(pages, size, a) || (NoneFits(pages, size) && r.size > size && a == r.address)
  {
    hide Packed, Appended, FirstFit, NoneFits, FirstAt;
    NewFit(pages, pages', i, r, size);
    if FirstAt(pages, size, a) {
      var k, l := FirstOf(pages, size, a);
      FitKept(pages, pages', i, r, size, k, l);
      FirstIs(pages', k, l, size);
    }
    if NoneFits(pages, size) && r.size > size {
      FirstIs(pages', i, |pages'[i]| - 1, size);
    }
    if FirstAt(pages', size, a) {
      var k, l := FirstOf(pages', size, a);
      AppendedLast(pages, pages', i, r, k, l);
      if k < |pages| && l < |pages[k]| {
        FitKept(pages, pages', i, r, size, k, l);
        FirstIs(pages, k, l, size);
      }
    }
  }

  class RegionVector {
    var pages: Chain

    ghost predicate Valid()
      reads this
    {
      |pages| >= 1 && forall i :: 0 <= i < |pages| ==> |pages[i]| <= REGIONS
    }

    ghost function Contents(): multiset<Region>
      reads this
    {
      AllRegions(pages)
    }

    /** region_vector_init. */
    constructor ()
      ensures Valid() && Contents() == multiset{} && pages == [[]]
    {
      pages := [[]];
    }

    /** region_alloc: the front of the first record longer than size. */
    method Alloc(size: nat) returns (ok: bool, address: nat, ghost i: nat, ghost j: nat)
      requires Valid()
      modifies this
      ensures Valid()
      ensures ok <==> exists r :: r in old(Contents()) && r.size > size
      ensures !ok ==> pages == old(pages)
      ensures ok ==> FirstFit(old(pages), i, j, size) && old(pages)[i][j] in old(Contents())
      ensures ok ==> var r := old(pages)[i][j];
                     && address == r.address
                     && pages == old(pages)[i := old(pages)[i][j := Region(address + size, r.size - size)]]
                     && Contents() + multiset{r} == old(Contents()) + multiset{Region(address + size, r.size - size)}
    {
      hide AllRegions;
      ghost var before := pages;
      var k := 0;
      while k < |pages|
        invariant 0 <= k <= |pages| && pages == before && NoneBefore(before, k, 0, size)
      {
        var page := pages[k];
        var l := 0;
        while l < |page| && l < REGIONS
          invariant 0 <= l <= |page| && pages == before && NoneBefore(before, k, l, size)
        {
          if page[l].size > size {
            address := page[l].address;
            var newSize := page[l].size - size;
            // The record is longer than size, so it is never used up.
            assert newSize != 0;
            var r := Region(address + size, newSize);
            SplitRecord(before, k, l, r);
            pages := pages[k := page[l := r]];
            return true, address, k, l;
          }
          l := l + 1;
        }
        k := k + 1;
      }
      NoneLonger(before, size);
      return false, 0, 0, 0;
    }

    /** region_free: appended to the first page with room, or to a new page at the end. */
    method Free(address: nat, size: nat) returns (ghost at: nat)
      requires Valid()
      modifies this
      ensures Valid() && Contents() == old(Contents()) + multiset{Region(address, size)}
      ensures Appended(old(pages), pages, at, Region(address, size))
    {
      hide AllRegions, SwapRemoved;
      ghost var before := pages;
      var r := Region(address, size);
      var i := 0;
      while i < |pages|
        invariant 0 <= i <= |pages| && pages == before
        invariant forall k :: 0 <= k < i ==> |pages[k]| == REGIONS
      {
        if |pages[i]| != REGIONS {
          AppendRecord(before, i, r);
          pages := pages[i := pages[i] + [r]];
          return i;
        }
        i := i + 1;
      }
      AppendPage(before, [r]);
      pages := pages + [[r]];
      at := i;
    }

    /**
     region_find_size_and_free: removes the first record at the address; an emptied page leaves
     the chain unless it is its head.
     */
    method FindSizeAndFree(address: nat) returns (size: nat, ghost taken: Region, ghost at: (nat, nat))
      requires Valid()
      modifies this
      ensures Valid()
      ensures (exists r :: r in old(Contents()) && r.address == address) ==>
                && taken in old(Contents()) && taken == Region(address, size)
                && Contents() + multiset{taken} == old(Contents())
                && FirstThere(old(pages), at.0, at.1, address) && pages == Without(old(pages), at.0, at.1)
      ensures !(exists r :: r in old(Contents()) && r.address == address) ==> size == 0 && pages == old(pages)
    {
      hide AllRegions;
      ghost var before := pages;
      var i := 0;
      taken, at := Region(0, 0), (0, 0);
      while i < |pages|
        invariant 0 <= i <= |pages| && pages == before
        invariant forall k, l :: 0 <= k < i && 0 <= l < |pages[k]| ==> pages[k][l].address != address
      {
        var page := pages[i];
        var j := 0;
        while j < |page| && j < REGIONS
          invariant 0 <= j <= |page| && pages == before
          invariant forall l :: 0 <= l < j ==> page[l].address != address
        {
          if page[j].address == address {
            taken, at := page[j], (i, j);
            size := page[j].size;
            RemoveRecord(before, i, j);
            pages := pages[i := SwapRemoved(page, j)];
            if |page| - 1 == 0 && i != 0 {
              DropEmptyPage(pages, i);
              pages := pages[..i] + pages[i + 1..];
            }
            return;
          }
          j := j + 1;
        }
        i := i + 1;
      }
      NoneThere(before, address);
      size := 0;
    }
  }

  lemma Found(pages: Chain, i: nat, j: nat)
    requires i < |pages| && j < |pages[i]|
    ensures pages[i][j] in AllRegions(pages)
  {
    PageIn(pages, i);
    assert pages[i][j] in multiset(pages[i]);
  }

  lemma {:induction false} Located(pages: Chain, r: Region) returns (i: nat, j: nat)
    requires r in AllRegions(pages)
    ensures i < |pages| && j < |pages[i]| && pages[i][j] == r
  {
    if r in multiset(pages[0]) {
      i := 0;
      j :| 0 <= j < |pages[0]| && pages[0][j] == r;
    } else {
      i, j := Located(pages[1..], r);
      i := i + 1;
    }
  }

  lemma NoneLonger(pages: Chain, size: nat)
    requires forall k, l :: 0 <= k < |pages| && 0 <= l < |pages[k]| ==> pages[k][l].size <= size
    ensures forall r :: r in AllRegions(pages) ==> r.size <= size
  {
    forall r | r in AllRegions(pages)
      ensures r.size <= size
    {
      var i, j := Located(pages, r);
    }
  }

  lemma NoneThere(pages: Chain, address: nat)
    requires forall k, l :: 0 <= k < |pages| && 0 <= l < |pages[k]| ==> pages[k][l].address != address
    ensures forall r :: r in AllRegions(pages) ==> r.address != address
  {
    forall r | r in AllRegions(pages)
      ensures r.address != address
    {
      var i, j := Located(pages, r);
    }
  }
}
