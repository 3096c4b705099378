/**
 An address space as a partial map from pages to frames and permissions: what
 updating, mapping and unmapping do to it, one page or a range at a time, and what
 no sequence of them ever makes true of a leaf.
 */
module AddressSpace {
  import opened PageWalk
  import opened PageTree
  import opened FrameStack
  import opened Pivot
  import opened PagedSteps
  import opened Paging

  // ---------------------------------------------------------------------
  // Leaves.

  /** A present leaf is not both writable and executable, and not user-accessible in the higher half. */
  predicate Safe(q: seq<bv9>, w: bv64)
    requires |q| == 4
  {
    Present(w) ==> !(w & JUST_WRITABLE != 0 && w & NO_EXECUTE == 0) && (q[0] >= 256 ==> w & USER == 0)
  }

  ghost predicate AllSafe(m: Mem, r: bv64)
  {
    forall q {:trigger Leaf(m, r, q)} :: |q| == 4 && Outside(q) ==> Safe(q, Leaf(m, r, q))
  }

  /** The permission test lets through only safe leaves. */
  lemma AdmittedIsSafe(v: bv64, phys: bv64, perms: bv64)
    requires !Refused(v, perms)
    ensures Safe(Path(v), LeafWord(phys, perms))
  {
    LowerHalfIndex(v);
  }

  lemma LowerHalfIndex(v: bv64)
    ensures v <= LOWER_HALF_END ==> Index4(v) < 256
  {
  }

  /** Bits 47 to 63 are equal. */
  predicate Canonical(v: bv64)
  {
    v & 0xffff_8000_0000_0000 == 0 || v & 0xffff_8000_0000_0000 == 0xffff_8000_0000_0000
  }

  /**
   The test refuses exactly the leaves that are not safe, and besides them user access to
   addresses that are not canonical but lie in the first 256 slots.
   */
  lemma RefusedIs(v: bv64, phys: bv64, perms: bv64)
    ensures Refused(v, perms) <==>
              !Safe(Path(v), LeafWord(phys, perms)) || (perms & USER != 0 && !Canonical(v) && Index4(v) < 256)
    ensures Canonical(v) ==> (Refused(v, perms) <==> !Safe(Path(v), LeafWord(phys, perms)))
  {
    hide Index4, LeafWord, Canonical;
    HalfIs(v);
    LeafBits(phys, perms);
  }

  lemma HalfIs(v: bv64)
    ensures v <= LOWER_HALF_END <==> Canonical(v) && Index4(v) < 256
  {
  }

  lemma LeafBits(phys: bv64, perms: bv64)
    ensures var w := LeafWord(phys, perms);
            && Present(w) && w & JUST_WRITABLE == perms & JUST_WRITABLE && w & USER == perms & USER
                && w & NO_EXECUTE == perms & NO_EXECUTE
  {
  }

  // ---------------------------------------------------------------------
  // What the processor allows: every level of the walk has its say.

  predicate MayWrite(m: Mem, r: bv64, q: seq<bv9>)
    requires |q| == 4
  {
    && Link(m, r, q[..1]) & JUST_WRITABLE != 0 && Link(m, r, q[..2]) & JUST_WRITABLE != 0
    && Link(m, r, q[..3]) & JUST_WRITABLE != 0 && Leaf(m, r, q) & JUST_WRITABLE != 0
  }

  predicate UserMayAccess(m: Mem, r: bv64, q: seq<bv9>)
    requires |q| == 4
  {
    && Link(m, r, q[..1]) & USER != 0 && Link(m, r, q[..2]) & USER != 0
    && Link(m, r, q[..3]) & USER != 0 && Leaf(m, r, q) & USER != 0
  }

  predicate MayExecute(m: Mem, r: bv64, q: seq<bv9>)
    requires |q| == 4
  {
    && Link(m, r, q[..1]) & NO_EXECUTE == 0 && Link(m, r, q[..2]) & NO_EXECUTE == 0
    && Link(m, r, q[..3]) & NO_EXECUTE == 0 && Leaf(m, r, q) & NO_EXECUTE == 0
  }

  /** Where no upper table takes a right away, a mapped page has exactly the rights it was mapped with. */
  lemma RightsAre(m: Mem, r: bv64, q: seq<bv9>, f: bv64, perms: bv64)
    requires |q| == 4 && Outside(q) && Open(m, r) && Mapping(m, r, q) == Some((f, perms))
    ensures MayWrite(m, r, q) <==> perms & JUST_WRITABLE != 0
    ensures UserMayAccess(m, r, q) <==> perms & USER != 0
    ensures MayExecute(m, r, q) <==> perms & NO_EXECUTE == 0
  {
    hide Node, Word, Link, Open, Leaf, Present, FrameOf;
    OpenAbove(m, r, q);
    MaskedBits(Leaf(m, r, q));
  }

  lemma OpenAbove(m: Mem, r: bv64, q: seq<bv9>)
    requires |q| == 4 && Outside(q) && Open(m, r) && Mapping(m, r, q).Some?
    ensures Grants(Link(m, r, q[..1])) && Grants(Link(m, r, q[..2])) && Grants(Link(m, r, q[..3]))
  {
    hide Node, Word, Grants;
    assert !Present(0) by {
      ZeroAbsent();
    }
    OutsidePrefix(q, 3);
    OutsidePrefix(q, 2);
    OutsidePrefix(q, 1);
    assert q[..3][..2] == q[..2] && q[..3][..1] == q[..1];
    NodePrefix(m, r, q[..3], 2);
    NodePrefix(m, r, q[..3], 1);
  }

  lemma MaskedBits(w: bv64)
    ensures var p := w & PERMISSIONS_MASK;
            && p & JUST_WRITABLE == w & JUST_WRITABLE && p & USER == w & USER && p & NO_EXECUTE == w & NO_EXECUTE
  {
  }

  /** With safe leaves no page can be both written and executed, and no page of the higher half reached by users. */
  lemma NeverBoth(m: Mem, r: bv64, q: seq<bv9>)
    requires |q| == 4 && Outside(q) && AllSafe(m, r) && Present(Leaf(m, r, q))
    ensures !(MayWrite(m, r, q) && MayExecute(m, r, q)) && (q[0] >= 256 ==> !UserMayAccess(m, r, q))
  {
    hide Node, Word, Link, Leaf, Present;
  }

  /** The pivot's leaf is always safe. */
  lemma PivotIsSafe(m: Mem, r: bv64, pv: seq<bv9>, head: bv64, stack: seq<Range>)
    requires StackOk(m, r, pv, head, stack)
    ensures Safe(pv, Leaf(m, r, pv))
  {
    hide Node, Word, Linked, NoDup, Flat, Present, PivotEntry;
    PivotEntrySafe(head, pv);
    if stack == [] {
    }
    if stack != [] {
      HeadIsFree(m, head, stack);
    }
  }

  lemma PivotEntrySafe(f: bv64, q: seq<bv9>)
    requires |q| == 4
    ensures Aligned(f) ==> Safe(q, PivotEntry(f))
  {
  }

  /** The frame and permissions a new leaf maps to. */
  lemma LeafMapping(phys: bv64, perms: bv64)
    requires perms & !PERMISSIONS_MASK == 0
    ensures var w := LeafWord(phys, perms);
            Present(w) && FrameOf(w) == FrameOf(phys) && w & PERMISSIONS_MASK == perms | 1
  {
  }

  lemma FreeEntryAbsent()
    ensures !Present(FREE_ENTRY)
  {
  }

  /** A step that changes only the leaves pv and q keeps all leaves safe, if it leaves those two so. */
  lemma EvolvesSafely(m: Mem, m': Mem, r: bv64, pv: seq<bv9>, head: bv64, stack: seq<Range>, q: seq<bv9>)
    requires Evolves(m, m', r, pv, q) && AllSafe(m, r) && StackOk(m', r, pv, head, stack) && |q| == 4
             && Safe(q, Leaf(m', r, q))
    ensures AllSafe(m', r)
  {
    hide Node, Leaf, Safe, StackOk;
    PivotLength(m', r, pv, head, stack);
    PivotIsSafe(m', r, pv, head, stack);
  }

  lemma PivotLength(m: Mem, r: bv64, pv: seq<bv9>, head: bv64, stack: seq<Range>)
    requires StackOk(m, r, pv, head, stack)
    ensures |pv| == 4
  {
  }

  // ---------------------------------------------------------------------
  // One page.

  /** Everything but page q maps as before; the tree, the allocator and leaf safety are kept. */
  ghost predicate OnlyPage(m: Mem, m': Mem, r: bv64, pv: seq<bv9>, q: seq<bv9>)
  {
    && (forall l {:trigger Leaf(m', r, l)} :: Ordinary(l, pv) && l != q ==> Leaf(m', r, l) == Leaf(m, r, l))
    && KeepsRights(m, m', r)
  }

  /** Safe leaves stay safe, and no upper table begins to take a right away. */
  ghost predicate KeepsRights(m: Mem, m': Mem, r: bv64)
  {
    (AllSafe(m, r) ==> AllSafe(m', r)) && (Open(m, r) ==> Open(m', r))
  }

  lemma EvolvesOnlyPage(m: Mem, m': Mem, r: bv64, pv: seq<bv9>, head: bv64, stack: seq<Range>, q: seq<bv9>)
    requires Evolves(m, m', r, pv, q) && PagedOk(m', r, pv, head, stack) && |q| == 4 && Outside(q)
    requires Safe(q, Leaf(m, r, q)) ==> Safe(q, Leaf(m', r, q))
    ensures OnlyPage(m, m', r, pv, q)
  {
    hide Node, Leaf, Safe, StackOk;
    if AllSafe(m, r) {
      EvolvesSafely(m, m', r, pv, head, stack, q);
    }
  }

  /** map_page on an ordinary page. */
  method Map(k: Kernel, v: bv64, phys: bv64, perms: bv64) returns (status: Status)
    requires k.Paged() && Ordinary(Path(v), Path(k.pivot)) && perms & !PERMISSIONS_MASK == 0
    modifies k`mem, k`physicalPage, k`stack
    ensures status == if Refused(v, perms) then ErrorPermissions
                      else if |Flat(old(k.stack))| < old(Missing(k.mem, k.cr3, Path(v))) then PageFault
                      else if old(Mapping(k.mem, k.cr3, Path(v))).Some? then ErrorPresent else Ok
    ensures status != PageFault ==>
              k.Paged() && OnlyPage(old(k.mem), k.mem, k.cr3, Path(k.pivot), Path(v))
              && Pages(k.stack) <= Pages(old(k.stack))
    ensures status != PageFault ==>
              Mapping(k.mem, k.cr3, Path(v)) == if status == Ok then Some((FrameOf(phys), perms | 1))
                  else old(Mapping(k.mem, k.cr3, Path(v)))
    ensures status != PageFault && !Refused(v, perms) ==>
              && Evolves(old(k.mem), k.mem, k.cr3, Path(k.pivot), Path(v)) && Node(k.mem, k.cr3, Path(v)[..3]).Some?
              && |Flat(k.stack)| == |Flat(old(k.stack))| - Missing(old(k.mem), k.cr3, Path(v))
  {
    hide Node, Leaf, PagedOk, Flat, Pages, Missing, Refused, LeafWord, Present, Path, Evolves, SelfMap, Upper, OnlyPage,
         Mapping, AllSafe, Write;
    ghost var m := k.mem;
    StillUpper(k.mem, k.cr3, Path(k.pivot), k.physicalPage, k.stack, Path(v));
    status := k.MapPage(v, phys, perms);
    if status != PageFault {
      MapStep(m, k.mem, k.cr3, Path(k.pivot), k.physicalPage, k.stack, v, phys, perms, status);
    }
  }

  lemma MapStep(m: Mem, m': Mem, r: bv64, pv: seq<bv9>, head: bv64, stack: seq<Range>, v: bv64, phys: bv64, perms: bv64,
                status: Status)
    requires PagedOk(m', r, pv, head, stack) && Ordinary(Path(v), pv) && perms & !PERMISSIONS_MASK == 0
    requires Refused(v, perms) ==> status == ErrorPermissions && m' == m
    requires !Refused(v, perms) ==>
               && Evolves(m, m', r, pv, Path(v))
               && if Present(Leaf(m, r, Path(v))) then status == ErrorPresent
                   && Leaf(m', r, Path(v)) == Leaf(m, r, Path(v))
                  else status == Ok && Leaf(m', r, Path(v)) == LeafWord(phys, perms)
    ensures OnlyPage(m, m', r, pv, Path(v))
    ensures status == if Refused(v, perms) then ErrorPermissions else if Mapping(m, r, Path(v)).Some? then ErrorPresent
              else Ok
    ensures Mapping(m', r, Path(v)) == if status == Ok then Some((FrameOf(phys), perms | 1)) else Mapping(m, r, Path(v))
  {
    hide Node, Leaf, Safe, PagedOk, Refused, LeafWord, FrameOf, Present, Path, Evolves, OnlyPage;
    LeafMapping(phys, perms);
    if Refused(v, perms) {
      EvolvesSame(m, r, pv, Path(v));
    } else {
      AdmittedIsSafe(v, phys, perms);
    }
    EvolvesOnlyPage(m, m', r, pv, head, stack, Path(v));
  }

  /** unmap_page without freeing, on an ordinary page. */
  method Unmap(k: Kernel, v: bv64)
    requires k.Paged() && Ordinary(Path(v), Path(k.pivot))
    modifies k`mem, k`physicalPage, k`stack
    ensures k.Paged() && OnlyPage(old(k.mem), k.mem, k.cr3, Path(k.pivot), Path(v))
    ensures Mapping(k.mem, k.cr3, Path(v)) == None && k.stack == old(k.stack) && k.physicalPage == old(k.physicalPage)
  {
    hide Node, Leaf, Safe, PagedOk, Flat, Pages, Present, Path, Evolves, SelfMap, Upper, Write;
    ghost var m, q, pv := k.mem, Path(v), Path(k.pivot);
    StillUpper(k.mem, k.cr3, pv, k.physicalPage, k.stack, q);
    var _ := k.UnmapPage(v, false);
    UnmapStep(m, k.cr3, pv, k.physicalPage, k.stack, q);
    EvolvesOnlyPage(m, k.mem, k.cr3, pv, k.physicalPage, k.stack, q);
  }

  lemma UnmapStep(m: Mem, r: bv64, pv: seq<bv9>, head: bv64, stack: seq<Range>, q: seq<bv9>)
    requires PagedOk(m, r, pv, head, stack) && Ordinary(q, pv)
    ensures var m' := Unmapped(m, r, q);
            PagedOk(m', r, pv, head, stack) && Evolves(m, m', r, pv, q) && !Present(Leaf(m', r, q))
                && Safe(q, Leaf(m', r, q))
  {
    hide Node, PagedOk, Evolves, Write, Word;
    FreeEntryAbsent();
    if Node(m, r, q[..3]).Some? {
      LeafStep(m, r, pv, head, stack, q, Node(m, r, q[..3]).value, FREE_ENTRY);
    } else {
      EvolvesSame(m, r, pv, q);
    }
  }

  /**
   unmap_page with its frame given back, on an ordinary page. Whatever frame the leaf
   names is given back; it is the frame of the page exactly if the page is mapped.
   */
  method UnmapAndFree(k: Kernel, v: bv64) returns (trips: bool)
    requires k.Paged() && Ordinary(Path(v), Path(k.pivot))
    requires Node(k.mem, k.cr3, Path(v)[..3]).Some? ==> k.Returnable(FrameOf(Leaf(k.mem, k.cr3, Path(v))))
    modifies k`mem, k`physicalPage, k`stack
    ensures trips <==> old(Node(k.mem, k.cr3, Path(v)[..3])).Some? && !Frees(FrameOf(old(Leaf(k.mem, k.cr3, Path(v)))))
    ensures trips ==> k.mem == old(k.mem) && k.stack == old(k.stack)
    ensures old(Node(k.mem, k.cr3, Path(v)[..3])).None? ==> k.mem == old(k.mem) && k.stack == old(k.stack)
    ensures !trips ==>
              && k.Paged() && OnlyPage(old(k.mem), k.mem, k.cr3, Path(k.pivot), Path(v))
              && Mapping(k.mem, k.cr3, Path(v)) == None
    ensures !trips ==> Pages(k.stack) == Pages(old(k.stack)) + old(Named(k.mem, k.cr3, Path(v)))
    ensures !trips ==> Evolves(old(k.mem), k.mem, k.cr3, Path(k.pivot), Path(v))
                       && (Node(k.mem, k.cr3, Path(v)[..3]).Some? <==> old(Node(k.mem, k.cr3, Path(v)[..3])).Some?)
  {
    hide Node, Leaf, Safe, PagedOk, Flat, Pages, Present, Path, Evolves, SelfMap, Upper, FrameOf, Push, Frees;
    ghost var m, q, pv := k.mem, Path(v), Path(k.pivot);
    StillUpper(k.mem, k.cr3, pv, k.physicalPage, k.stack, q);
    trips := k.UnmapPage(v, true);
    if trips {
      return;
    }
    FreeEntrySafe(q);
    if Node(m, k.cr3, q[..3]).None? {
      NoLeaf(m, k.cr3, q);
      EvolvesSame(m, k.cr3, pv, q);
    } else {
      TableKept(m, k.mem, k.cr3, pv, q);
    }
    EvolvesOnlyPage(m, k.mem, k.cr3, pv, k.physicalPage, k.stack, q);
  }

  /** The frame that the leaf of a page names, mapped or not; none if there is no table for it. */
  ghost function Named(m: Mem, r: bv64, q: seq<bv9>): set<bv64>
    requires |q| == 4
  {
    if Node(m, r, q[..3]).Some? then {FrameOf(Leaf(m, r, q))} else {}
  }

  /** The frame given back is one that the page maps to if and only if the leaf is present. */
  lemma NamedIsMapped(m: Mem, r: bv64, q: seq<bv9>)
    requires |q| == 4 && Node(m, r, q[..3]).Some?
    ensures (exists f, perms :: Mapping(m, r, q) == Some((f, perms)) && Named(m, r, q) == {f})
              <==> Present(Leaf(m, r, q))
  {
    hide Node, Leaf, Present, FrameOf;
    if Present(Leaf(m, r, q)) {
      var f, perms := FrameOf(Leaf(m, r, q)), Leaf(m, r, q) & PERMISSIONS_MASK;
      assert Mapping(m, r, q) == Some((f, perms)) && Named(m, r, q) == {f};
    }
  }

  lemma NoLeaf(m: Mem, r: bv64, q: seq<bv9>)
    requires |q| == 4 && Node(m, r, q[..3]).None?
    ensures Unmapped(m, r, q) == m && Leaf(m, r, q) == 0 && !Present(0)
  {
    hide Node;
  }

  lemma TableKept(m: Mem, m': Mem, r: bv64, pv: seq<bv9>, q: seq<bv9>)
    requires |q| == 4 && Outside(q) && Node(m, r, q[..3]).Some? && Evolves(m, m', r, pv, q)
    ensures Node(m', r, q[..3]).Some?
  {
    hide Node, Leaf;
    OutsidePrefix(q, 3);
  }

  /** Freeing a page that an earlier unmap already cleared trips the range assertion of the allocator. */
  method SecondUnmap(k: Kernel, v: bv64) returns (trips: bool)
    requires k.Paged() && Ordinary(Path(v), Path(k.pivot)) && Node(k.mem, k.cr3, Path(v)[..3]).Some?
    modifies k`mem, k`physicalPage, k`stack
    ensures trips
  {
    hide Node, Leaf, PagedOk, Flat, Pages, Present, Path, Evolves, SelfMap, Upper, FrameOf, Push, Frees, Write;
    ghost var m, q, pv := k.mem, Path(v), Path(k.pivot);
    StillUpper(m, k.cr3, pv, k.physicalPage, k.stack, q);
    var _ := k.UnmapPage(v, false);
    UnmapStep(m, k.cr3, pv, k.physicalPage, k.stack, q);
    ClearedLeaf(m, k.cr3, pv, k.physicalPage, k.stack, q);
    FreeEntryTrips();
    trips := UnmapAndFree(k, v);
  }

  lemma ClearedLeaf(m: Mem, r: bv64, pv: seq<bv9>, head: bv64, stack: seq<Range>, q: seq<bv9>)
    requires PagedOk(m, r, pv, head, stack) && Ordinary(q, pv) && Node(m, r, q[..3]).Some?
    ensures Node(Unmapped(m, r, q), r, q[..3]).Some? && Leaf(Unmapped(m, r, q), r, q) == FREE_ENTRY
  {
    hide Node, PagedOk, Evolves, Write, Word, Leaf;
    OutsidePrefix(q, 3);
    LeafStep(m, r, pv, head, stack, q, Node(m, r, q[..3]).value, FREE_ENTRY);
    TableKept(m, Unmapped(m, r, q), r, pv, q);
  }

  lemma FreeEntryTrips()
    ensures !Frees(FrameOf(FREE_ENTRY))
  {
  }

  lemma ZeroLeafFreesZero()
    ensures FrameOf(0) == 0 && Frees(0) && !Present(0)
  {
  }

  /** Freeing a page that was never mapped, in a table that is there, makes frame 0 free. */
  method UnwrittenUnmap(k: Kernel, v: bv64) returns (trips: bool)
    requires k.Paged() && Ordinary(Path(v), Path(k.pivot)) && Node(k.mem, k.cr3, Path(v)[..3]).Some?
    requires Leaf(k.mem, k.cr3, Path(v)) == 0 && k.Returnable(0)
    modifies k`mem, k`physicalPage, k`stack
    ensures old(Mapping(k.mem, k.cr3, Path(v))) == None && !trips && k.Paged()
    ensures 0 in Pages(k.stack) && Pages(k.stack) == Pages(old(k.stack)) + {0}
  {
    hide Node, Leaf, PagedOk, Flat, Pages, Present, Path, Evolves, SelfMap, Upper, FrameOf, Push, Frees, Write;
    ZeroLeafFreesZero();
    trips := UnmapAndFree(k, v);
  }

  lemma FreeEntrySafe(q: seq<bv9>)
    requires |q| == 4
    ensures Safe(q, FREE_ENTRY) && !Present(FREE_ENTRY)
  {
  }

  /** map_update_page on an ordinary page: the frame stays, the permissions are replaced. */
  method Update(k: Kernel, v: bv64, perms: bv64) returns (status: Status)
    requires k.Paged() && Ordinary(Path(v), Path(k.pivot)) && perms & !PERMISSIONS_MASK == 0
    modifies k`mem
    ensures k.Paged() && OnlyPage(old(k.mem), k.mem, k.cr3, Path(k.pivot), Path(v))
    ensures status == if Refused(v, perms) then ErrorPermissions
                      else if old(Mapping(k.mem, k.cr3, Path(v))).None? then ErrorAbsent else Ok
    ensures status != Ok ==> k.mem == old(k.mem)
    ensures status == Ok ==>
              Mapping(k.mem, k.cr3, Path(v)) == Some((old(Mapping(k.mem, k.cr3, Path(v))).value.0, perms | 1))
  {
    hide Node, Word, Safe, PagedOk, Flat, Pages, Refused, LeafWord, FrameOf, Present, Evolves, SelfMap, Upper, Write,
         AllSafe, Index1, Index2, Index3, Index4, GetPl1, GetPl2, GetPl3, GetPl4;
    ghost var m, q, pv := k.mem, Path(v), Path(k.pivot);
    StillUpper(k.mem, k.cr3, pv, k.physicalPage, k.stack, q);
    EvolvesSame(m, k.cr3, pv, q);
    if Refused(v, perms) {
      EvolvesOnlyPage(m, k.mem, k.cr3, pv, k.physicalPage, k.stack, q);
      return ErrorPermissions;
    }
    FirstSteps(m, k.cr3, v);
    ZeroAbsent();
    EvolvesOnlyPage(m, k.mem, k.cr3, pv, k.physicalPage, k.stack, q);
    var b := k.HasTables(v);
    if !b {
      return ErrorAbsent;
    }
    var levelOne := GetPl1(Index4(v), Index3(v), Index2(v));
    var w := k.LoadEntry(levelOne, Index1(v), q[..3]);
    if !Present(w) {
      return ErrorAbsent;
    }
    k.StoreEntry(levelOne, Index1(v), LeafWord(w, perms), q[..3]);
    UpdateStep(m, k.cr3, pv, k.physicalPage, k.stack, v, w, perms);
    return Ok;
  }

  lemma ZeroAbsent()
    ensures !Present(0)
  {
  }

  lemma UpdateStep(m: Mem, r: bv64, pv: seq<bv9>, head: bv64, stack: seq<Range>, v: bv64, w: bv64, perms: bv64)
    requires PagedOk(m, r, pv, head, stack) && Ordinary(Path(v), pv) && !Refused(v, perms)
             && perms & !PERMISSIONS_MASK == 0
    requires Node(m, r, Path(v)[..3]).Some? && Leaf(m, r, Path(v)) == w
    ensures var m' := Write(m, Node(m, r, Path(v)[..3]).value, Path(v)[3], LeafWord(w, perms));
            && PagedOk(m', r, pv, head, stack) && OnlyPage(m, m', r, pv, Path(v))
            && Mapping(m', r, Path(v)) == Some((FrameOf(w), perms | 1))
  {
    hide Node, Leaf, Safe, PagedOk, Refused, LeafWord, FrameOf, Present, Evolves, Write, Path, OnlyPage;
    var q := Path(v);
    var t := Node(m, r, q[..3]).value;
    LeafStep(m, r, pv, head, stack, q, t, LeafWord(w, perms));
    LeafMapping(w, perms);
    AdmittedIsSafe(v, w, perms);
    EvolvesOnlyPage(m, Write(m, t, q[3], LeafWord(w, perms)), r, pv, head, stack, q);
  }
}
