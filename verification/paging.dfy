/**
 The kernel's page tables and frame allocator. Every table is read and written at
 its virtual address in the recursive slot, through the hardware walk, so a method
 here cannot touch a table that the current address space does not reach.
 */
module Paging {
  import opened PageWalk
  import opened PageTree
  import opened FrameStack
  import opened Pivot
  import opened PagedSteps

  /** PageFault is no return value of the source: the kernel's own access faults. */
  datatype Status = Ok | ErrorPermissions | ErrorAbsent | ErrorPresent | ErrorNoMemory | PageFault

  const LOWER_HALF_END: bv64 := 0x0000_7fff_ffff_ffff
  const TABLE_FLAGS: bv64 := JUST_WRITABLE | USER | 1

  /** The page that ends at 2^48, which the allocator's range assertion refuses. */
  const LAST_PAGE: bv64 := 0x0000_ffff_ffff_f000

  /** The assertions of physical_free hold for one page at f. */
  predicate Frees(f: bv64)
  {
    f & 0xfff == 0 && f & 0xffff_0000_0000_0000 == 0 && (f + PAGE) & 0xffff_0000_0000_0000 == 0
  }

  lemma FramesAre(w: bv64)
    ensures Frees(FrameOf(w)) <==> Aligned(FrameOf(w)) && FrameOf(w) != LAST_PAGE
  {
  }

  /** The permission test at the head of map_page and map_update_page. */
  predicate Refused(v: bv64, perms: bv64)
  {
    (perms & WRITABLE != 0 && perms & NO_EXECUTE == 0) || (v > LOWER_HALF_END && perms & USER != 0)
  }

  function LeafWord(phys: bv64, perms: bv64): bv64
  {
    (phys & !PERMISSIONS_MASK) | perms | 1
  }

  /** How many of a page's three upper tables are missing. */
  function Missing(m: Mem, r: bv64, q: seq<bv9>): (n: nat)
    requires |q| == 4
    ensures n <= 3
  {
    if Node(m, r, q[..3]).Some? then 0 else if Node(m, r, q[..2]).Some? then 1
    else if Node(m, r, q[..1]).Some? then 2 else 3
  }

  function Unmapped(m: Mem, r: bv64, q: seq<bv9>): Mem
    requires |q| == 4
  {
    match Node(m, r, q[..3])
    case None => m
    case Some(t) => Write(m, t, q[3], FREE_ENTRY)
  }

  lemma FirstSteps(m: Mem, r: bv64, v: bv64)
    ensures Path(v)[..1] == [Index4(v)] && Path(v)[..2] == [Index4(v), Index3(v)]
    ensures Path(v)[..3] == [Index4(v), Index3(v), Index2(v)] && Path(v)[3] == Index1(v)
    ensures Node(m, r, Path(v)[..1]) == Entry(m, r, Index4(v))
    ensures Node(m, r, Path(v)[..2])
            == match Node(m, r, Path(v)[..1]) { case None => None case Some(f) => Entry(m, f, Index3(v)) }
    ensures Node(m, r, Path(v)[..3])
            == match Node(m, r, Path(v)[..2]) { case None => None case Some(f) => Entry(m, f, Index2(v)) }
  {
    hide Node, Entry, Index1, Index2, Index3, Index4;
    var p := Path(v);
    NodeEmpty(m, r);
    assert p[..1] == [] + [p[0]] && p[..2] == p[..1] + [p[1]] && p[..3] == p[..2] + [p[2]];
    NodeStep(m, r, [], p[0]);
    NodeStep(m, r, p[..1], p[1]);
    NodeStep(m, r, p[..2], p[2]);
  }

  class Kernel {
    var mem: Mem
    var cr3: bv64
    var physicalPage: bv64
    const pivot: bv64
    ghost var stack: seq<Range>

    ghost predicate AllocatorOk()
      reads this
    {
      StackOk(mem, cr3, Path(pivot), physicalPage, stack)
    }

    /** The tables form a tree of frames none of which is free, and the allocator is consistent. */
    ghost predicate Paged()
      reads this
    {
      PagedOk(mem, cr3, Path(pivot), physicalPage, stack)
    }

    // -------------------------------------------------------------------
    // Memory accesses at virtual addresses.

    method Fetch(a: bv64, i: bv9) returns (w: bv64)
      requires Node(mem, cr3, Path(a)).Some? && Upper(mem, cr3, Path(a)[..3], Pages(stack))
      ensures w == Word(mem, Node(mem, cr3, Path(a)).value, i)
    {
      hide *;
      w := Word(mem, Node(mem, cr3, Path(a)).value, i);
    }

    method Store(a: bv64, i: bv9, w: bv64)
      requires Node(mem, cr3, Path(a)).Some? && Upper(mem, cr3, Path(a)[..3], Pages(stack))
      modifies this`mem
      ensures mem == Write(old(mem), Node(old(mem), cr3, Path(a)).value, i, w)
    {
      hide *;
      mem := Write(mem, Node(mem, cr3, Path(a)).value, i, w);
    }

    /** A table entry; the table and all above it are in use. */
    method LoadEntry(table: bv64, i: bv9, ghost p: seq<bv9>) returns (w: bv64)
      requires |p| <= 3 && table == TableAddress(p) && SelfMap(mem, cr3)
      requires Node(mem, cr3, p).Some? && Upper(mem, cr3, p, Pages(stack))
      ensures w == Word(mem, Node(mem, cr3, p).value, i)
    {
      hide Node, Path, TableAddress, SelfMap, Upper, Word, Pages;
      SelfMapReachesTable(mem, cr3, p);
      TableWalk(mem, cr3, p, Pages(stack));
      UpperPrefix(mem, cr3, Path(table), 3, Pages(stack));
      w := Fetch(table, i);
    }

    method StoreEntry(table: bv64, i: bv9, w: bv64, ghost p: seq<bv9>)
      requires |p| <= 3 && table == TableAddress(p) && SelfMap(mem, cr3)
      requires Node(mem, cr3, p).Some? && Upper(mem, cr3, p, Pages(stack))
      modifies this`mem
      ensures mem == Write(old(mem), Node(old(mem), cr3, p).value, i, w)
    {
      hide Node, Path, TableAddress, SelfMap, Upper, Write, Pages;
      SelfMapReachesTable(mem, cr3, p);
      TableWalk(mem, cr3, p, Pages(stack));
      UpperPrefix(mem, cr3, Path(table), 3, Pages(stack));
      Store(table, i, w);
    }

    /** memset of a table to zero. */
    method ClearTable(table: bv64, ghost p: seq<bv9>)
      requires |p| <= 3 && table == TableAddress(p) && SelfMap(mem, cr3)
      requires Node(mem, cr3, p).Some? && Upper(mem, cr3, p, Pages(stack))
      modifies this`mem
      ensures mem == Clear(old(mem), Node(old(mem), cr3, p).value)
    {
      hide Node, Path, TableAddress, SelfMap, Upper, Clear, Pages;
      SelfMapReachesTable(mem, cr3, p);
      mem := Clear(mem, Node(mem, cr3, Path(table)).value);
    }

    /** is_pl3_present, is_pl2_present and is_pl1_present in turn. */
    method HasTables(v: bv64) returns (b: bool)
      requires SelfMap(mem, cr3) && Upper(mem, cr3, Path(v)[..3], Pages(stack))
      ensures b == Node(mem, cr3, Path(v)[..3]).Some?
    {
      hide Node, Word, Index1, Index2, Index3, Index4, GetPl1, GetPl2, GetPl3, GetPl4, Upper, SelfMap, Present, FrameOf;
      ghost var p := Path(v);
      FirstSteps(mem, cr3, v);
      NodeEmpty(mem, cr3);
      UpperPrefix(mem, cr3, p[..3], 0, Pages(stack));
      assert p[..3][..0] == [] && p[..3][..1] == p[..1] && p[..3][..2] == p[..2];
      var w := LoadEntry(GetPl4(), Index4(v), []);
      if !Present(w) {
        return false;
      }
      UpperPrefix(mem, cr3, p[..3], 1, Pages(stack));
      w := LoadEntry(GetPl3(Index4(v)), Index3(v), p[..1]);
      if !Present(w) {
        return false;
      }
      UpperPrefix(mem, cr3, p[..3], 2, Pages(stack));
      w := LoadEntry(GetPl2(Index4(v), Index3(v)), Index2(v), p[..2]);
      return Present(w);
    }

    /** unmap_page: clears the leaf, and gives its frame back when asked to. Trips is an assertion of physical_free. */
    method UnmapPage(v: bv64, freePhysical: bool) returns (trips: bool)
      requires SelfMap(mem, cr3) && Upper(mem, cr3, Path(v)[..3], Pages(stack))
      requires freePhysical && Node(mem, cr3, Path(v)[..3]).Some? ==>
                 Paged() && Outside(Path(v)) && Path(v) != Path(pivot) && Returnable(FrameOf(Leaf(mem, cr3, Path(v))))
      modifies this`mem, this`physicalPage, this`stack
      ensures trips <==>
                && freePhysical && old(Node(mem, cr3, Path(v)[..3])).Some?
                && !Frees(FrameOf(old(Leaf(mem, cr3, Path(v)))))
      ensures trips ==> mem == old(mem) && physicalPage == old(physicalPage) && stack == old(stack)
      ensures !freePhysical || old(Node(mem, cr3, Path(v)[..3])).None? ==>
                mem == Unmapped(old(mem), cr3, Path(v)) && physicalPage == old(physicalPage) && stack == old(stack)
      ensures freePhysical && !trips && old(Node(mem, cr3, Path(v)[..3])).Some? ==>
                var f := FrameOf(old(Leaf(mem, cr3, Path(v))));
                && Paged() && stack == Push(old(stack), f, PAGE, [f]) && Pages(stack) == Pages(old(stack)) + {f}
                && Leaf(mem, cr3, Path(v)) == FREE_ENTRY && Evolves(old(mem), mem, cr3, Path(pivot), Path(v))
      decreases 0, if freePhysical then 4 else 0, 0
    {
      hide Node, Word, Write, Upper, SelfMap, Pages, Index1, GetPl1, GetPl2, GetPl3, GetPl4, Index2, Index3, Index4,
           FrameOf, PagedOk, Evolves, StackOk, PivotLive, Push, NoneIn, Quiet, PivotTable, Aligned, Frees;
      FirstSteps(mem, cr3, v);
      var b := HasTables(v);
      if b {
        ghost var q := Path(v);
        var levelOne := GetPl1(Index4(v), Index3(v), Index2(v));
        if freePhysical {
          OutsidePrefix(q, 3);
          var w := LoadEntry(levelOne, Index1(v), q[..3]);
          FramesAre(w);
          if !Frees(FrameOf(w)) {
            return true;
          }
          ghost var m0, head0, stack0, f := mem, physicalPage, stack, FrameOf(w);
          StackOf(m0, cr3, Path(pivot), head0, stack0);
          PivotLiveOf(m0, cr3, Path(pivot), head0, stack0, f);
          PhysicalFree(FrameOf(w));
          ghost var m1 := mem;
          FreeStep(m0, m1, cr3, Path(pivot), head0, stack0, f, q);
          StillUpper(m1, cr3, Path(pivot), physicalPage, stack, q);
          StoreEntry(levelOne, Index1(v), FREE_ENTRY, q[..3]);
          LeafStep(m1, cr3, Path(pivot), physicalPage, stack, q, Node(m1, cr3, q[..3]).value, FREE_ENTRY);
          EvolvesThrough(m0, m1, mem, cr3, Path(pivot), q);
        } else {
          StoreEntry(levelOne, Index1(v), FREE_ENTRY, q[..3]);
        }
      }
      return false;
    }

    /** A frame that the allocator would take is not free already, and not a page table. */
    ghost predicate Returnable(f: bv64)
      reads this
    {
      Frees(f) ==> f !in Pages(stack) && NoneIn(mem, cr3, {f})
    }

    /** One of the three blocks of map_page that create a missing table. */
    method EnsureTable(upper: bv64, i: bv9, lower: bv64, ghost p: seq<bv9>, ghost q: seq<bv9>) returns (status: Status)
      requires 1 <= |p| <= 3 && p <= q && upper == TableAddress(p[..|p| - 1]) && lower == TableAddress(p)
               && i == p[|p| - 1]
      requires SelfMap(mem, cr3) && Upper(mem, cr3, p, Pages(stack)) && Node(mem, cr3, p[..|p| - 1]).Some?
      requires Node(mem, cr3, p).None? ==> Paged() && Outside(p)
      modifies this`mem, this`physicalPage, this`stack
      ensures status == if old(Node(mem, cr3, p)).Some? || old(stack) != [] then Ok else PageFault
      ensures status == Ok ==> Node(mem, cr3, p).Some?
      ensures status != Ok ==> stack == old(stack)
      ensures old(Node(mem, cr3, p)).Some? ==>
                mem == old(mem) && physicalPage == old(physicalPage) && stack == old(stack)
      ensures status == Ok && old(Node(mem, cr3, p)).None? ==>
                && Paged() && Evolves(old(mem), mem, cr3, Path(pivot), q)
                && |Flat(stack)| == |Flat(old(stack))| - 1 && Pages(stack) <= Pages(old(stack))
                && (|q| == 4 && Outside(q) && q != Path(pivot) ==> Leaf(mem, cr3, q) == Leaf(old(mem), cr3, q))
                && (forall l {:trigger Node(mem, cr3, l)} :: p <= l && l != p && |l| <= 3 ==> Node(mem, cr3, l) == None)
      decreases 0, if Node(mem, cr3, p).None? then 3 else 0, 0
    {
      hide Node, Word, Write, Entry, Upper, SelfMap, Pages, Flat, TableAddress, PagedOk, Evolves, Leaf, Present,
           FrameOf, TableEntry, Path;
      ghost var n := |p| - 1;
      UpperPrefix(mem, cr3, p, n, Pages(stack));
      assert p == p[..n] + [p[n]];
      NodeStep(mem, cr3, p[..n], p[n]);
      EntryPresent(mem, Node(mem, cr3, p[..n]).value, i);
      var w := LoadEntry(upper, i, p[..n]);
      if !Present(w) {
        status := AddTable(upper, i, lower, p, q);
      } else {
        status := Ok;
      }
    }

    method AddTable(upper: bv64, i: bv9, lower: bv64, ghost p: seq<bv9>, ghost q: seq<bv9>) returns (status: Status)
      requires 1 <= |p| <= 3 && p <= q && upper == TableAddress(p[..|p| - 1]) && lower == TableAddress(p)
               && i == p[|p| - 1]
      requires Paged() && Outside(p) && Node(mem, cr3, p[..|p| - 1]).Some? && Node(mem, cr3, p).None?
      modifies this`mem, this`physicalPage, this`stack
      ensures status == (if old(stack) != [] then Ok else PageFault) && (status != Ok ==> stack == old(stack))
      ensures status == Ok ==>
                && Node(mem, cr3, p).Some? && Paged() && Evolves(old(mem), mem, cr3, Path(pivot), q)
                && |Flat(stack)| == |Flat(old(stack))| - 1 && Pages(stack) <= Pages(old(stack))
                && (|q| == 4 && Outside(q) && q != Path(pivot) ==> Leaf(mem, cr3, q) == Leaf(old(mem), cr3, q))
                && (forall l {:trigger Node(mem, cr3, l)} :: p <= l && l != p && |l| <= 3 ==> Node(mem, cr3, l) == None)
      decreases 0, 2, 2
    {
      hide Node, Word, Write, Clear, Entry, Upper, SelfMap, Pages, Flat, TableAddress, Evolves, Leaf, Present, FrameOf,
           TableEntry, Path, Injective, NoneIn, Quiet, Aligned, PivotTable, StackOk, Top, Pop;
      ghost var n, pv, m0, head0, stack0 := |p| - 1, Path(pivot), mem, physicalPage, stack;
      var fault, phys := PhysicalAlloc();
      if fault {
        return PageFault;
      }
      if phys == INVALID {
        return ErrorNoMemory;
      }
      ghost var m1 := mem;
      AllocStep(m0, m1, cr3, pv, head0, stack0, q);
      OutsidePrefix(p, n);
      ghost var t, w := Node(m1, cr3, p[..n]).value, TableEntry(phys);
      TableEntryIs(phys);
      HangsNow(m1, cr3, p, t, w, phys);
      UpperOf(m1, cr3, p[..n], Pages(stack));
      StoreEntry(upper, i, TableEntry(phys), p[..n]);
      EntrySet(m1, cr3, p, t, w, phys, Pages(stack));
      ClearTable(lower, p);
      TableStep(m1, cr3, pv, physicalPage, stack, p, t, w, phys, q);
      EvolvesThrough(m0, m1, mem, cr3, pv, q);
      status := Ok;
    }

    /** The three blocks in turn. */
    method EnsureTables(v: bv64) returns (status: Status)
      requires SelfMap(mem, cr3) && Upper(mem, cr3, Path(v)[..3], Pages(stack))
      requires Missing(mem, cr3, Path(v)) > 0 ==> Paged() && Outside(Path(v))
      modifies this`mem, this`physicalPage, this`stack
      ensures status == if |Flat(old(stack))| >= old(Missing(mem, cr3, Path(v))) then Ok else PageFault
      ensures status == Ok ==>
                Node(mem, cr3, Path(v)[..3]).Some? && SelfMap(mem, cr3) && Upper(mem, cr3, Path(v)[..3], Pages(stack))
      ensures status == Ok ==>
                Prepared(old(mem), mem, cr3, Path(pivot), Path(v), old(physicalPage), physicalPage, old(stack), stack)
      decreases Missing(mem, cr3, Path(v)), 0, 2
    {
      hide Node, Upper, SelfMap, Pages, Flat, PagedOk, Evolves, Leaf, Path, Missing, Progress;
      var q := Path(v);
      ghost var m0, head0, stack0, pv := mem, physicalPage, stack, Path(pivot);
      ghost var d := 3 - Missing(mem, cr3, q);
      Started(m0, cr3, pv, q, head0, stack0);
      for k := 0 to 3
        invariant Progress(m0, mem, cr3, pv, q, head0, physicalPage, stack0, stack, k, d)
      {
        status := EnsureLevel(q, k, m0, head0, stack0, d);
        if status != Ok {
          return;
        }
      }
      Finished(m0, mem, cr3, pv, q, head0, physicalPage, stack0, stack, d);
      status := Ok;
    }

    method EnsureLevel(q: seq<bv9>, k: nat, ghost m0: Mem, ghost head0: bv64, ghost stack0: seq<Range>, ghost d: int)
      returns (status: Status)
      requires k < 3 && |q| == 4 && Progress(m0, mem, cr3, Path(pivot), q, head0, physicalPage, stack0, stack, k, d)
      modifies this`mem, this`physicalPage, this`stack
      ensures status == Ok ==> Progress(m0, mem, cr3, Path(pivot), q, head0, physicalPage, stack0, stack, k + 1, d)
      ensures status != Ok ==> status == PageFault && d <= k && |Flat(stack0)| == k - d
      decreases if d < 3 then 1 else 0, 0, 1
    {
      hide Node, Upper, SelfMap, Pages, Flat, PagedOk, Evolves, Leaf, Path, TableAddress, Progress;
      ghost var m1, head1, stack1, pv := mem, physicalPage, stack, Path(pivot);
      assert q[..k + 1][..k] == q[..k] && q[..3][..k + 1] == q[..k + 1];
      ProgressParts(m0, mem, cr3, pv, q, head0, physicalPage, stack0, stack, k, d);
      UpperPrefix(mem, cr3, q[..3], k + 1, Pages(stack));
      if k >= d {
        MayGrow(m0, mem, cr3, pv, q, head0, physicalPage, stack0, stack, k, d);
      }
      status := EnsureTable(TableAddress(q[..k]), q[k], TableAddress(q[..k + 1]), q[..k + 1], q);
      if status == Ok {
        if k >= d {
          LevelMade(m0, m1, mem, cr3, pv, q, head0, head1, physicalPage, stack0, stack1, stack, k, d);
        } else {
          LevelThere(m0, mem, cr3, pv, q, head0, physicalPage, stack0, stack, k, d);
        }
      }
    }

    /** map_page. */
    method MapPage(v: bv64, phys: bv64, perms: bv64) returns (status: Status)
      requires SelfMap(mem, cr3) && Upper(mem, cr3, Path(v)[..3], Pages(stack))
      requires Missing(mem, cr3, Path(v)) > 0 && !Refused(v, perms) ==>
                 Paged() && Outside(Path(v))
      modifies this`mem, this`physicalPage, this`stack
      ensures MapOutcome(old(mem), mem, cr3, Path(pivot), Path(v), old(physicalPage), physicalPage, old(stack), stack,
                         Refused(v, perms),
                         LeafWord(phys, perms), status)
      decreases Missing(mem, cr3, Path(v)), 1, 0
    {
      hide Node, Upper, SelfMap, Pages, Flat, PagedOk, LeafWord, Refused, Path, Missing, LeafIsSet, Prepared,
           MapOutcome;
      ghost var m0, q, pv, head0, stack0, word := mem, Path(v), Path(pivot), physicalPage, stack, LeafWord(phys, perms);
      if Refused(v, perms) {
        RefusedOutcome(m0, cr3, pv, q, head0, stack0, word);
        return ErrorPermissions;
      }
      status := EnsureTables(v);
      if status != Ok {
        FaultOutcome(m0, mem, cr3, pv, q, head0, physicalPage, stack0, stack, word);
        return;
      }
      ghost var m1 := mem;
      status := SetLeaf(v, LeafWord(phys, perms));
      MappedOutcome(m0, m1, mem, cr3, pv, q, head0, physicalPage, stack0, stack, word, status);
    }

    /** The last part of map_page, once the tables are there. */
    method SetLeaf(v: bv64, word: bv64) returns (status: Status)
      requires SelfMap(mem, cr3) && Upper(mem, cr3, Path(v)[..3], Pages(stack)) && Node(mem, cr3, Path(v)[..3]).Some?
      modifies this`mem
      ensures LeafIsSet(old(mem), mem, cr3, Path(v), word, status) && (status == Ok || status == ErrorPresent)
    {
      hide Node, Word, Write, Upper, SelfMap, Pages, Index1, GetPl1, GetPl2, GetPl3, GetPl4, Index2, Index3, Index4,
           Present;
      var levelOne := GetPl1(Index4(v), Index3(v), Index2(v));
      var w := LoadEntry(levelOne, Index1(v), Path(v)[..3]);
      if Present(w) {
        return ErrorPresent;
      }
      StoreEntry(levelOne, Index1(v), word, Path(v)[..3]);
      return Ok;
    }

    // -------------------------------------------------------------------
    // Frames.

    /**
     physical_alloc: takes the top page off the stack. Its first access, through the pivot,
     faults on an empty stack.
     */
    method PhysicalAlloc() returns (fault: bool, phys: bv64)
      requires AllocatorOk()
      modifies this`mem, this`physicalPage, this`stack
      ensures AllocatorOk() && (fault <==> old(stack) == [])
      ensures fault ==> mem == old(mem) && physicalPage == old(physicalPage) && stack == old(stack)
      ensures !fault ==> old(stack[0].pages) != [] && phys == Top(old(stack)) && stack == Pop(old(stack))
      ensures Quiet(old(mem), mem, Pages(old(stack)), PivotTable(old(mem), cr3, Path(pivot)), Path(pivot)[3])
      ensures !fault ==> Aligned(phys) && phys != INVALID && phys != physicalPage
      decreases 0, 2, 1
    {
      hide Node, Word, Write, Quiet, Pages, Flat, Aligned, PivotTable, Path, Upper, StackOk, Top, Pop, Shorter, Offset;
      ghost var pv, head := Path(pivot), physicalPage;
      fault := Node(mem, cr3, Path(pivot)).None?;
      PivotReadable(mem, cr3, pv, head, stack);
      if fault {
        QuietSame(mem, Pages(stack), PivotTable(mem, cr3, pv), pv[3]);
        return true, INVALID;
      }
      BeforeLength(mem, cr3, pv, head, stack);
      var length := Fetch(pivot, 1);
      assert length & 0xfff == 0;
      var shorter := Shorter(length);
      ShorterIsZero(length);
      Store(pivot, 1, shorter);
      AfterLength(old(mem), cr3, pv, head, stack, shorter);
      length := Fetch(pivot, 1);
      if length == 0 {
        phys := TakeHeader(old(mem));
      } else {
        ShrinkOk(old(mem), cr3, pv, head, stack, shorter, mem);
        phys := Offset(physicalPage, length);
        stack := Pop(stack);
      }
    }

    /** The branch of physical_alloc that hands out the frame holding the links. */
    method TakeHeader(ghost m: Mem) returns (phys: bv64)
      requires StackOk(m, cr3, Path(pivot), physicalPage, stack) && stack != [] && stack[0].length == PAGE
      requires mem == Write(m, physicalPage, 1, 0)
      modifies this`mem, this`physicalPage, this`stack
      ensures old(stack[0].pages) != [] && phys == Top(old(stack)) && stack == Pop(old(stack)) && AllocatorOk()
      ensures Quiet(m, mem, Pages(old(stack)), PivotTable(m, cr3, Path(pivot)), Path(pivot)[3])
      ensures Aligned(phys) && phys != INVALID && phys != physicalPage
      decreases 0, 2, 0
    {
      hide Node, Word, Entry, Write, Quiet, Pages, Flat, Aligned, PivotLive, Path, Upper, Present, LeafWord, StackOk,
           Refused, PivotEntry, Top, Pop;
      ghost var pv, x, head := Path(pivot), Pages(stack), physicalPage;
      AdvanceOk(m, cr3, pv, head, stack);
      phys := physicalPage;
      AfterLength(m, cr3, pv, head, stack, 0);
      ghost var t := PivotTable(m, cr3, pv);
      var next := Fetch(pivot, 0);
      var _ := UnmapPage(pivot, false);
      PivotAfter(Write(m, head, 1, 0), cr3, pv, x, t, pv[3], FREE_ENTRY);
      if next != INVALID {
        PivotUpper(mem, cr3, pv, x);
        PivotParts(mem, cr3, pv, x);
        FreshLeaf(Write(m, head, 1, 0), cr3, pv, t, mem);
        PivotEntryWord(next);
        var status := MapPage(pivot, next, WRITABLE);
        if status != Ok {
          phys := INVALID;
          return;
        }
      }
      physicalPage := next;
      assert phys != next;
      assert mem == Advanced(m, t, pv[3], head, next);
      stack := stack[1..];
    }

    /** physical_free_range: the range becomes the new top of the stack. */
    method PhysicalFreeRange(address: bv64, length: bv64, ghost pages: seq<bv64>)
      requires AllocatorOk() && RangeOk(address, length, pages) && NoDup(pages)
      requires PivotLive(mem, cr3, Path(pivot), Elements(pages)) && forall f :: f in pages ==> f !in Pages(stack)
      requires length != 0 && (address + length) & 0xffff_0000_0000_0000 == 0
      modifies this`mem, this`physicalPage, this`stack
      ensures AllocatorOk() && stack == Push(old(stack), address, length, pages) && physicalPage == address
      ensures Quiet(old(mem), mem, {address}, PivotTable(old(mem), cr3, Path(pivot)), Path(pivot)[3])
      decreases 0, 3, 0
    {
      hide Node, Word, Entry, Write, Quiet, Pages, Aligned, PivotLive, Path, Upper, Present, LeafWord, StackOk, Refused,
           PivotEntry, RangeOk, Elements, NoDup;
      ghost var pv, head, m := Path(pivot), physicalPage, mem;
      ghost var z := Pages(stack) + Elements(pages);
      RangeWords(address, length, pages);
      assert address & 0xfff == 0 && length & 0xfff == 0 && address & 0xffff_0000_0000_0000 == 0;
      LinkOk(m, cr3, pv, head, stack, address, length, pages);
      LiveWith(m, cr3, pv, head, stack, Elements(pages), z);
      ghost var t := PivotTable(m, cr3, pv);
      var prev := physicalPage;
      PivotReady(m, cr3, pv, z, Pages(stack));
      var _ := UnmapPage(pivot, false);
      PivotAfter(m, cr3, pv, z, t, pv[3], FREE_ENTRY);
      PivotReady(mem, cr3, pv, z, Pages(stack));
      FreshLeaf(m, cr3, pv, t, mem);
      PivotEntryWord(address);
      ghost var m1 := mem;
      var status := MapPage(pivot, address, WRITABLE);
      assert status == Ok;
      ShowsRange(m1, cr3, pv, z, Pages(stack), t, address);
      ghost var m2 := mem;
      Store(pivot, 0, prev);
      StillShows(m2, cr3, pv, z, Pages(stack), t, address, prev);
      Store(pivot, 1, length);
      physicalPage := address;
      stack := Push(stack, address, length, pages);
    }

    /** physical_free: one page. */
    method PhysicalFree(address: bv64)
      requires AllocatorOk() && PivotLive(mem, cr3, Path(pivot), {address})
      requires Aligned(address) && address != LAST_PAGE && address !in Pages(stack)
      modifies this`mem, this`physicalPage, this`stack
      ensures AllocatorOk() && stack == Push(old(stack), address, PAGE, [address]) && physicalPage == address
      ensures Quiet(old(mem), mem, {address}, PivotTable(old(mem), cr3, Path(pivot)), Path(pivot)[3])
      decreases 0, 3, 1
    {
      hide PivotLive, StackOk, Aligned, RangeOk, NoDup, Quiet, Pages, Path, PivotTable;
      OnePageRange(address);
      NotTheLast(address);
      assert Elements([address]) == {address};
      PhysicalFreeRange(address, PAGE, [address]);
    }
  }

  lemma NotTheLast(a: bv64)
    requires Aligned(a) && a != LAST_PAGE
    ensures (a + PAGE) & 0xffff_0000_0000_0000 == 0
  {
  }

  lemma RangeWords(a: bv64, length: bv64, pages: seq<bv64>)
    requires RangeOk(a, length, pages)
    ensures Aligned(a) && a & 0xfff == 0 && length & 0xfff == 0 && a & 0xffff_0000_0000_0000 == 0
            && a in Elements(pages)
  {
    BaseIsFirst(a, length, pages);
    AlignedParts(a);
  }

  lemma AlignedParts(a: bv64)
    requires Aligned(a)
    ensures a & 0xfff == 0 && a & 0xffff_0000_0000_0000 == 0
  {
  }

  lemma LiveWith(m: Mem, r: bv64, pv: seq<bv9>, head: bv64, stack: seq<Range>, x: set<bv64>, z: set<bv64>)
    requires StackOk(m, r, pv, head, stack) && PivotLive(m, r, pv, x) && z == Pages(stack) + x
    ensures PivotLive(m, r, pv, z) && |pv| == 4 && Node(m, r, pv[..3]).Some?
  {
    hide Node, Linked, NoDup, Flat, Entry, PivotLive, Pages;
    PivotBoth(m, r, pv, Pages(stack), x, z);
    PivotParts(m, r, pv, z);
  }

  lemma PivotReady(m: Mem, r: bv64, pv: seq<bv9>, z: set<bv64>, x: set<bv64>)
    requires PivotLive(m, r, pv, z) && x <= z
    ensures |pv| == 4 && SelfMap(m, r) && Node(m, r, pv[..3]) == Some(PivotTable(m, r, pv)) && Missing(m, r, pv) == 0
    ensures Upper(m, r, pv[..3], x)
  {
    hide Node, PivotLive, Missing, PivotTable;
    PivotParts(m, r, pv, z);
    PivotLiveLess(m, r, pv, z, x);
    PivotUpper(m, r, pv, x);
  }

  lemma ShowsRange(m: Mem, r: bv64, pv: seq<bv9>, z: set<bv64>, x: set<bv64>, t: bv64, a: bv64)
    requires PivotLive(m, r, pv, z) && x <= z && t == PivotTable(m, r, pv) && Aligned(a)
    ensures var m' := Write(m, t, pv[3], PivotEntry(a));
            && PivotLive(m', r, pv, z) && Node(m', r, pv[..3]) == Some(t) && Entry(m', t, pv[3]) == Some(a)
            && Node(m', r, pv) == Some(a) && Upper(m', r, pv[..3], x)
  {
    hide Node, Word, Write, PivotEntry, PivotLive, Present, FrameOf, Aligned;
    PivotParts(m, r, pv, z);
    var m' := Write(m, t, pv[3], PivotEntry(a));
    PivotAfter(m, r, pv, z, t, pv[3], PivotEntry(a));
    PivotReady(m', r, pv, z, x);
    WritableEntry(a);
    PivotShows(m', r, pv, a, z);
  }

  lemma StillShows(m: Mem, r: bv64, pv: seq<bv9>, z: set<bv64>, x: set<bv64>, t: bv64, a: bv64, w: bv64)
    requires PivotLive(m, r, pv, z) && x <= z && Node(m, r, pv[..3]) == Some(t) && Entry(m, t, pv[3]) == Some(a)
             && a in z
    ensures var m' := Write(m, a, 0, w);
            Node(m', r, pv) == Some(a) && Upper(m', r, pv[..3], x)
  {
    hide Node, Word, Write, Entry, PivotLive;
    PivotParts(m, r, pv, z);
    HeaderApart(m, r, pv, a, z);
    PivotAfter(m, r, pv, z, a, 0, w);
    EntryAway(m, a, 0, w, t, pv[3]);
    PivotReady(Write(m, a, 0, w), r, pv, z, x);
    PivotShows(Write(m, a, 0, w), r, pv, a, z);
  }

  /** The entry of an upper table: writable, user-accessible, present. */
  function TableEntry(f: bv64): bv64 { f | TABLE_FLAGS }

  lemma TableEntryIs(f: bv64)
    requires Aligned(f)
    ensures Present(TableEntry(f)) && FrameOf(TableEntry(f)) == f && Grants(TableEntry(f))
  {
  }

  lemma EntryPresent(m: Mem, f: bv64, i: bv9)
    ensures Entry(m, f, i).Some? <==> Present(Word(m, f, i))
  {
  }

  lemma EvolvesSame(m: Mem, r: bv64, pv: seq<bv9>, q: seq<bv9>)
    ensures Evolves(m, m, r, pv, q)
  {
    hide Node, Leaf;
  }

  /** An ordinary page: outside the recursive slot and not the pivot. */
  predicate Ordinary(q: seq<bv9>, pv: seq<bv9>)
  {
    |q| == 4 && Outside(q) && q != pv
  }

  /** A present leaf is left alone; any other one is written. */
  ghost predicate LeafIsSet(m: Mem, m': Mem, r: bv64, q: seq<bv9>, word: bv64, status: Status)
    requires |q| == 4
  {
    Node(m, r, q[..3]).Some? &&
    if Present(Leaf(m, r, q)) then status == ErrorPresent && m' == m
    else status == Ok && m' == Write(m, Node(m, r, q[..3]).value, q[3], word)
  }

  /** Page q has the new leaf unless it was present; only the tables it lacked were made; nothing else changed. */
  ghost predicate PageIsMapped(m: Mem, m': Mem, r: bv64, pv: seq<bv9>, q: seq<bv9>, head: bv64, stack: seq<Range>,
                               stack': seq<Range>, word: bv64, status: Status)
    requires |q| == 4
  {
    && PagedOk(m', r, pv, head, stack') && Evolves(m, m', r, pv, q) && Pages(stack') <= Pages(stack)
    && |Flat(stack')| == |Flat(stack)| - Missing(m, r, q) && Node(m', r, q[..3]).Some?
    && if Present(Leaf(m, r, q)) then status == ErrorPresent && Leaf(m', r, q) == Leaf(m, r, q)
       else status == Ok && Leaf(m', r, q) == word
  }

  /** The missing tables of q were made, and nothing else changed. */
  ghost predicate Prepared(m0: Mem, m: Mem, r: bv64, pv: seq<bv9>, q: seq<bv9>, head0: bv64, head: bv64,
                           stack0: seq<Range>, stack: seq<Range>)
    requires |q| == 4
  {
    if Missing(m0, r, q) == 0 then m == m0 && head == head0 && stack == stack0
    else && PagedOk(m, r, pv, head, stack) && Evolves(m0, m, r, pv, q) && Ordinary(q, pv)
         && Leaf(m, r, q) == Leaf(m0, r, q)
         && |Flat(stack)| == |Flat(stack0)| - Missing(m0, r, q) && Pages(stack) <= Pages(stack0)
  }

  /**
   What map_page does. It faults exactly when a table is missing and there are too few
   frames for the missing ones. A refused page changes nothing. With all tables there
   only the leaf is touched; in a well-formed address space an ordinary page is mapped.
   */
  ghost predicate MapOutcome(m: Mem, m': Mem, r: bv64, pv: seq<bv9>, q: seq<bv9>, head: bv64, head': bv64,
                             stack: seq<Range>, stack': seq<Range>, refused: bool, word: bv64, status: Status)
    requires |q| == 4
  {
    && (status == PageFault <==> !refused && |Flat(stack)| < Missing(m, r, q))
    && (refused ==> status == ErrorPermissions && m' == m && head' == head && stack' == stack)
    && (!refused && Missing(m, r, q) == 0 ==> head' == head && stack' == stack && LeafIsSet(m, m', r, q, word, status))
    && (!refused && status != PageFault && (Missing(m, r, q) > 0 || (PagedOk(m, r, pv, head, stack) && Ordinary(q, pv))) ==>
          PageIsMapped(m, m', r, pv, q, head', stack, stack', word, status))
  }

  lemma RefusedOutcome(m: Mem, r: bv64, pv: seq<bv9>, q: seq<bv9>, head: bv64, stack: seq<Range>, word: bv64)
    requires |q| == 4
    ensures MapOutcome(m, m, r, pv, q, head, head, stack, stack, true, word, ErrorPermissions)
  {
    hide Missing, Flat;
  }

  lemma FaultOutcome(m: Mem, m': Mem, r: bv64, pv: seq<bv9>, q: seq<bv9>, head: bv64, head': bv64, stack: seq<Range>,
                     stack': seq<Range>, word: bv64)
    requires |q| == 4 && |Flat(stack)| < Missing(m, r, q)
    ensures MapOutcome(m, m', r, pv, q, head, head', stack, stack', false, word, PageFault)
  {
    hide Missing, Flat;
  }

  lemma MappedOutcome(m0: Mem, m1: Mem, m2: Mem, r: bv64, pv: seq<bv9>, q: seq<bv9>, head0: bv64, head: bv64,
                      stack0: seq<Range>, stack: seq<Range>, word: bv64, status: Status)
    requires |q| == 4 && |Flat(stack0)| >= Missing(m0, r, q) && Prepared(m0, m1, r, pv, q, head0, head, stack0, stack)
    requires LeafIsSet(m1, m2, r, q, word, status) && status != PageFault
    ensures MapOutcome(m0, m2, r, pv, q, head0, head, stack0, stack, false, word, status)
  {
    hide Missing, Flat, PagedOk, Node, LeafIsSet, PageIsMapped, Evolves, Leaf, Pages, Ordinary;
    if Missing(m0, r, q) > 0 || (PagedOk(m0, r, pv, head0, stack0) && Ordinary(q, pv)) {
      NowMapped(m0, m1, m2, r, pv, head0, head, stack0, stack, q, word, status);
    }
  }

  lemma NowMapped(m0: Mem, m1: Mem, m2: Mem, r: bv64, pv: seq<bv9>, head0: bv64, head: bv64, stack0: seq<Range>,
                  stack: seq<Range>, q: seq<bv9>, word: bv64, status: Status)
    requires |q| == 4 && Prepared(m0, m1, r, pv, q, head0, head, stack0, stack) && LeafIsSet(m1, m2, r, q, word, status)
    requires Missing(m0, r, q) == 0 ==> PagedOk(m0, r, pv, head0, stack0) && Ordinary(q, pv)
    ensures PageIsMapped(m0, m2, r, pv, q, head, stack0, stack, word, status)
  {
    hide Node, Write, PagedOk, Leaf, Present, Evolves, Flat, Pages, Missing;
    EvolvesSame(m0, r, pv, q);
    LeafSet(m0, m1, m2, r, pv, head, stack, q, word);
  }

  /** Setting the leaf, or leaving it when it is present, after the tables were made. */
  lemma LeafSet(m0: Mem, m1: Mem, m2: Mem, r: bv64, pv: seq<bv9>, head: bv64, stack: seq<Range>, q: seq<bv9>, w: bv64)
    requires PagedOk(m1, r, pv, head, stack) && Evolves(m0, m1, r, pv, q) && |q| == 4 && Outside(q) && q != pv
    requires Node(m1, r, q[..3]).Some? && Leaf(m1, r, q) == Leaf(m0, r, q)
    requires m2 == if Present(Leaf(m1, r, q)) then m1 else Write(m1, Node(m1, r, q[..3]).value, q[3], w)
    ensures PagedOk(m2, r, pv, head, stack) && Evolves(m0, m2, r, pv, q) && Node(m2, r, q[..3]).Some?
    ensures Leaf(m2, r, q) == if Present(Leaf(m0, r, q)) then Leaf(m0, r, q) else w
  {
    hide Node, Write, PagedOk, Leaf, Present;
    if !Present(Leaf(m1, r, q)) {
      LeafStep(m1, r, pv, head, stack, q, Node(m1, r, q[..3]).value, w);
      EvolvesThrough(m0, m1, m2, r, pv, q);
      OutsidePrefix(q, 3);
    }
  }

  lemma Depths(m: Mem, r: bv64, q: seq<bv9>)
    requires |q| == 4
    ensures forall k {:trigger q[..k]} :: 0 <= k <= 3 ==> (Node(m, r, q[..k]).Some? <==> k <= 3 - Missing(m, r, q))
  {
    hide Node;
    NodeEmpty(m, r);
    assert q[..0] == [] && q[..3][..2] == q[..2] && q[..3][..1] == q[..1] && q[..2][..1] == q[..1];
    if Node(m, r, q[..3]).Some? {
      NodePrefix(m, r, q[..3], 2);
    }
    if Node(m, r, q[..2]).Some? {
      NodePrefix(m, r, q[..2], 1);
    }
  }

  lemma NoPage(stack: seq<Range>)
    ensures stack == [] ==> |Flat(stack)| == 0 && Pages(stack) == {}
  {
  }

  /** The pivot shows a frame exactly while the list is not empty. */
  lemma PivotReadable(m: Mem, r: bv64, pv: seq<bv9>, head: bv64, stack: seq<Range>)
    requires StackOk(m, r, pv, head, stack)
    ensures |pv| == 4 && Node(m, r, pv[..3]).Some? && (Node(m, r, pv).Some? <==> stack != [])
  {
    hide Node, Linked, NoDup, Flat, Pages;
    assert pv[..3] + [pv[3]] == pv;
    NodeStep(m, r, pv[..3], pv[3]);
    if stack != [] {
      HeadIsFree(m, head, stack);
      WritableEntry(head);
    }
  }

  lemma QuietSame(m: Mem, x: set<bv64>, t: bv64, i: bv9)
    ensures Quiet(m, m, x, t, i)
  {
  }

  /** A page with a missing table is not the pivot page. */
  lemma NotThePivot(m: Mem, r: bv64, pv: seq<bv9>, head: bv64, stack: seq<Range>, q: seq<bv9>)
    requires PagedOk(m, r, pv, head, stack) && |q| == 4 && Missing(m, r, q) > 0
    ensures q != pv
  {
    hide Node;
  }

  lemma StackOf(m: Mem, r: bv64, pv: seq<bv9>, head: bv64, stack: seq<Range>)
    requires PagedOk(m, r, pv, head, stack)
    ensures StackOk(m, r, pv, head, stack)
  {
  }

  lemma StillUpper(m: Mem, r: bv64, pv: seq<bv9>, head: bv64, stack: seq<Range>, q: seq<bv9>)
    requires PagedOk(m, r, pv, head, stack) && |q| == 4 && Outside(q)
    ensures SelfMap(m, r) && Upper(m, r, q[..3], Pages(stack))
  {
    hide Node, Pages, SelfMap, Injective;
    OutsidePrefix(q, 3);
    UpperOf(m, r, q[..3], Pages(stack));
  }

  /** n tables were created on the way to q; nothing else changed but the pivot's leaf. */
  ghost predicate Grown(m0: Mem, m: Mem, r: bv64, pv: seq<bv9>, q: seq<bv9>, head: bv64, stack0: seq<Range>,
                        stack: seq<Range>, n: int)
  {
    && PagedOk(m, r, pv, head, stack) && Evolves(m0, m, r, pv, q)
    && |Flat(stack)| == |Flat(stack0)| - n && Pages(stack) <= Pages(stack0)
    && |q| == 4 && Leaf(m, r, q) == Leaf(m0, r, q)
  }

  /** Before the tables of q that are missing from depth d on are made. */
  ghost predicate Progressing(m0: Mem, r: bv64, pv: seq<bv9>, q: seq<bv9>, head0: bv64, stack0: seq<Range>, d: int)
  {
    PagedOk(m0, r, pv, head0, stack0) && |q| == 4 && Outside(q) && q != pv && 0 <= d < 3
  }

  /** The tables of q exist down to depth k; they did so at the start down to depth d. */
  ghost predicate Progress(m0: Mem, m: Mem, r: bv64, pv: seq<bv9>, q: seq<bv9>, head0: bv64, head: bv64,
                           stack0: seq<Range>, stack: seq<Range>, k: nat, d: int)
  {
    && |q| == 4 && k <= 3 && 0 <= d <= 3 && (d < 3 ==> Progressing(m0, r, pv, q, head0, stack0, d))
    && Node(m, r, q[..k]).Some? && SelfMap(m, r) && Upper(m, r, q[..3], Pages(stack))
    && (k <= d ==> m == m0 && head == head0 && stack == stack0)
    && (k > d ==> Grown(m0, m, r, pv, q, head, stack0, stack, k - d))
    && (forall l {:trigger q[..l]} :: k < l <= 3 ==> (Node(m, r, q[..l]).Some? <==> l <= d))
  }

  lemma Started(m: Mem, r: bv64, pv: seq<bv9>, q: seq<bv9>, head: bv64, stack: seq<Range>)
    requires |q| == 4 && SelfMap(m, r) && Upper(m, r, q[..3], Pages(stack))
    requires Missing(m, r, q) > 0 ==> PagedOk(m, r, pv, head, stack) && Outside(q)
    ensures Progress(m, m, r, pv, q, head, head, stack, stack, 0, 3 - Missing(m, r, q))
  {
    hide Node, Upper, SelfMap, Pages, Flat, PagedOk, Missing, Grown;
    Depths(m, r, q);
    assert q[..0] == [];
    if Missing(m, r, q) > 0 {
      NotThePivot(m, r, pv, head, stack, q);
    }
  }

  lemma Finished(m0: Mem, m: Mem, r: bv64, pv: seq<bv9>, q: seq<bv9>, head0: bv64, head: bv64, stack0: seq<Range>,
                 stack: seq<Range>, d: int)
    requires Progress(m0, m, r, pv, q, head0, head, stack0, stack, 3, d)
    ensures |q| == 4 && Node(m, r, q[..3]).Some? && SelfMap(m, r) && Upper(m, r, q[..3], Pages(stack))
    ensures d >= 3 ==> m == m0 && head == head0 && stack == stack0
    ensures d < 3 ==> && PagedOk(m, r, pv, head, stack) && Evolves(m0, m, r, pv, q) && Ordinary(q, pv)
                      && |Flat(stack)| == |Flat(stack0)| - (3 - d) && Pages(stack) <= Pages(stack0)
                      && Leaf(m, r, q) == Leaf(m0, r, q)
  {
    hide Node, Upper, SelfMap, Pages, Flat, PagedOk, Evolves, Leaf;
  }

  lemma MayGrow(m0: Mem, m: Mem, r: bv64, pv: seq<bv9>, q: seq<bv9>, head0: bv64, head: bv64, stack0: seq<Range>,
                stack: seq<Range>, k: nat, d: int)
    requires k < 3 && k >= d && Progress(m0, m, r, pv, q, head0, head, stack0, stack, k, d)
    ensures PagedOk(m, r, pv, head, stack) && Outside(q[..k + 1]) && Outside(q) && q != pv
    ensures (k == d ==> stack == stack0) && (stack == [] ==> |Flat(stack0)| == k - d)
    ensures k > d ==>
              && Evolves(m0, m, r, pv, q) && |Flat(stack)| == |Flat(stack0)| - (k - d)
              && Pages(stack) <= Pages(stack0) && Leaf(m, r, q) == Leaf(m0, r, q)
    ensures Node(m, r, q[..k + 1]) == None
  {
    hide Node, Upper, SelfMap, Pages, Flat, PagedOk, Evolves, Leaf;
    OutsidePrefix(q, k + 1);
    NoPage(stack);
  }

  lemma ProgressParts(m0: Mem, m: Mem, r: bv64, pv: seq<bv9>, q: seq<bv9>, head0: bv64, head: bv64, stack0: seq<Range>,
                      stack: seq<Range>, k: nat, d: int)
    requires k < 3 && Progress(m0, m, r, pv, q, head0, head, stack0, stack, k, d)
    ensures |q| == 4 && Node(m, r, q[..k]).Some? && SelfMap(m, r) && Upper(m, r, q[..3], Pages(stack))
    ensures Node(m, r, q[..k + 1]).Some? <==> k < d
  {
    hide Node, Upper, SelfMap, Pages, Grown, Progressing;
  }

  /** The table at depth k + 1 was there. */
  lemma LevelThere(m0: Mem, m: Mem, r: bv64, pv: seq<bv9>, q: seq<bv9>, head0: bv64, head: bv64, stack0: seq<Range>,
                   stack: seq<Range>, k: nat, d: int)
    requires k < 3 && k < d && Progress(m0, m, r, pv, q, head0, head, stack0, stack, k, d)
    ensures Progress(m0, m, r, pv, q, head0, head, stack0, stack, k + 1, d)
  {
    hide Node, Upper, SelfMap, Pages, Grown, Progressing;
  }

  /** It was made. */
  lemma LevelMade(m0: Mem, m1: Mem, m: Mem, r: bv64, pv: seq<bv9>, q: seq<bv9>, head0: bv64, head1: bv64, head: bv64,
                  stack0: seq<Range>, stack1: seq<Range>, stack: seq<Range>, k: nat, d: int)
    requires k < 3 && k >= d && Progress(m0, m1, r, pv, q, head0, head1, stack0, stack1, k, d)
    requires PagedOk(m, r, pv, head, stack) && Node(m, r, q[..k + 1]).Some? && Evolves(m1, m, r, pv, q)
    requires |Flat(stack)| == |Flat(stack1)| - 1 && Pages(stack) <= Pages(stack1) && Leaf(m, r, q) == Leaf(m1, r, q)
    requires forall l {:trigger Node(m, r, l)} :: q[..k + 1] <= l && l != q[..k + 1] && |l| <= 3 ==>
               Node(m, r, l) == None
    ensures Progress(m0, m, r, pv, q, head0, head, stack0, stack, k + 1, d)
  {
    hide Node, Upper, SelfMap, Pages, Flat, PagedOk, Evolves, Leaf, Grown;
    MayGrow(m0, m1, r, pv, q, head0, head1, stack0, stack1, k, d);
    StillUpper(m, r, pv, head, stack, q);
    GrownOneMore(m0, m1, m, r, pv, q, head, stack0, stack1, stack, k - d);
    forall l {:trigger q[..l]} | k + 1 < l <= 3
      ensures Node(m, r, q[..l]) == None
    {
      assert q[..k + 1] <= q[..l] && |q[..l]| == l;
    }
  }

  lemma GrownOneMore(m0: Mem, m1: Mem, m: Mem, r: bv64, pv: seq<bv9>, q: seq<bv9>, head: bv64, stack0: seq<Range>,
                     stack1: seq<Range>, stack: seq<Range>, n: int)
    requires (n == 0 && m1 == m0 && stack1 == stack0) ||
             (Evolves(m0, m1, r, pv, q) && |Flat(stack1)| == |Flat(stack0)| - n && Pages(stack1) <= Pages(stack0)
              && |q| == 4 && Leaf(m1, r, q) == Leaf(m0, r, q))
    requires PagedOk(m, r, pv, head, stack) && Evolves(m1, m, r, pv, q) && |Flat(stack)| == |Flat(stack1)| - 1
    requires Pages(stack) <= Pages(stack1) && |q| == 4 && Leaf(m, r, q) == Leaf(m1, r, q)
    ensures Grown(m0, m, r, pv, q, head, stack0, stack, n + 1)
  {
    hide PagedOk, Evolves, Flat, Pages, Leaf;
    if m1 != m0 {
      EvolvesThrough(m0, m1, m, r, pv, q);
    }
  }

  lemma HangsNow(m: Mem, r: bv64, p: seq<bv9>, t: bv64, w: bv64, f: bv64)
    requires 1 <= |p| <= 3 && Outside(p) && Injective(m, r) && NoneIn(m, r, {f})
    requires Node(m, r, p[..|p| - 1]) == Some(t) && Node(m, r, p) == None && Present(w) && FrameOf(w) == f
    requires Grants(w)
    ensures Hangs(m, r, p, t, w, f)
  {
    hide Node, Entry, Injective, Present, FrameOf, Grants;
    assert p == p[..|p| - 1] + [p[|p| - 1]];
    NodeStep(m, r, p[..|p| - 1], p[|p| - 1]);
  }

  /** After the length word is stored, the pivot still shows the same range. */
  lemma AfterLength(m: Mem, r: bv64, pv: seq<bv9>, head: bv64, stack: seq<Range>, length: bv64)
    requires StackOk(m, r, pv, head, stack) && stack != []
    ensures |pv| == 4 && Node(m, r, pv[..3]).Some? && PivotTable(m, r, pv) != head
    ensures var m', x := Write(m, head, 1, length), Pages(stack);
            && PivotLive(m', r, pv, x) && Node(m', r, pv[..3]) == Some(PivotTable(m, r, pv)) && SelfMap(m', r)
            && Missing(m', r, pv) == 0 && Node(m', r, pv) == Some(head) && Upper(m', r, pv[..3], x)
            && Word(m', head, 0) == Word(m, head, 0) && Word(m', head, 1) == length
            && head in x && Aligned(head) && head != INVALID
  {
    hide Node, Word, Entry, Write, Pages, Flat, Aligned, PivotTable, PivotLive, Linked, NoDup, Missing, RangeOk,
         PivotEntry;
    var m', x := Write(m, head, 1, length), Pages(stack);
    PivotParts(m, r, pv, x);
    HeadIsFree(m, head, stack);
    WritableEntry(head);
    HeaderApart(m, r, pv, head, x);
    PivotShown(m, PivotTable(m, r, pv), pv[3], head);
    PivotAfter(m, r, pv, x, head, 1, length);
    PivotParts(m', r, pv, x);
    EntryAway(m, head, 1, length, PivotTable(m, r, pv), pv[3]);
    PivotShows(m', r, pv, head, x);
  }

  lemma FreshLeaf(m: Mem, r: bv64, pv: seq<bv9>, t: bv64, m': Mem)
    requires |pv| == 4 && m' == Write(m, t, pv[3], FREE_ENTRY) && Node(m', r, pv[..3]) == Some(t)
    ensures !Present(Leaf(m', r, pv))
  {
    hide Node, Word, Write;
  }

  lemma PivotEntryWord(next: bv64)
    requires Aligned(next)
    ensures LeafWord(next, WRITABLE) == PivotEntry(next) && forall v :: !Refused(v, WRITABLE)
  {
  }

  lemma BeforeLength(m: Mem, r: bv64, pv: seq<bv9>, head: bv64, stack: seq<Range>)
    requires StackOk(m, r, pv, head, stack) && stack != []
    ensures |pv| == 4 && Node(m, r, pv[..3]).Some? && stack[0].pages != []
    ensures Node(m, r, pv) == Some(head) && Upper(m, r, pv[..3], Pages(stack))
    ensures Word(m, head, 1) == stack[0].length && stack[0].length & 0xfff == 0
    ensures stack[0].length != PAGE ==> Aligned(Top(stack)) && Top(stack) != INVALID && Top(stack) != head
  {
    hide Node, Word, Entry, Pages, Flat, Aligned, PivotTable, PivotLive, NoDup, RangeOk, PivotEntry;
    PivotParts(m, r, pv, Pages(stack));
    HeadIsFree(m, head, stack);
    HeaderLast(m, head, stack);
    PivotShown(m, PivotTable(m, r, pv), pv[3], head);
    PivotShows(m, r, pv, head, Pages(stack));
    if stack[0].length != PAGE {
      WritableEntry(Top(stack));
    }
  }

  lemma PivotParts(m: Mem, r: bv64, pv: seq<bv9>, x: set<bv64>)
    requires PivotLive(m, r, pv, x)
    ensures |pv| == 4 && SelfMap(m, r) && Node(m, r, pv[..3]) == Some(PivotTable(m, r, pv)) && Missing(m, r, pv) == 0
  {
    hide Node;
  }

  /** Frames are handed out until the list is empty, each of them once; the next request faults. */
  method Drain(k: Kernel) returns (taken: seq<bv64>)
    requires k.AllocatorOk()
    modifies k`mem, k`physicalPage, k`stack
    ensures k.AllocatorOk() && k.stack == [] && |taken| == |Flat(old(k.stack))|
    ensures forall f :: f in taken <==> f in Pages(old(k.stack))
  {
    hide StackOk, Path, Quiet, Aligned, Top, Pop, Flat, Pages;
    taken := [];
    NoPage([]);
    while true
      invariant k.AllocatorOk() && |taken| + |Flat(k.stack)| == |Flat(old(k.stack))|
      invariant forall f :: f in taken || f in Pages(k.stack) <==> f in Pages(old(k.stack))
      decreases |Flat(k.stack)|
    {
      ghost var stack := k.stack;
      StackNoDup(k.mem, k.cr3, Path(k.pivot), k.physicalPage, stack);
      var fault, phys := k.PhysicalAlloc();
      if fault {
        break;
      }
      PopPages(stack);
      taken := taken + [phys];
    }
  }

  lemma StackNoDup(m: Mem, r: bv64, pv: seq<bv9>, head: bv64, stack: seq<Range>)
    requires StackOk(m, r, pv, head, stack)
    ensures NoDup(Flat(stack))
  {
  }
}
