/**
 Physical memory as frames of 512 words, the hardware's four-level walk, and the
 recursive slot that lets the kernel address its own tables.
 */
module PageWalk {

  datatype Frame = Frame(address: bv64)
  datatype Slot = Slot(index: bv9)
  datatype Cell = Cell(word: bv64)
  type Mem = map<Frame, map<Slot, Cell>>

  /** Word i of the frame at physical address f; words never written read as zero. */
  function Word(m: Mem, f: bv64, i: bv9): bv64
  {
    if Frame(f) in m && Slot(i) in m[Frame(f)] then m[Frame(f)][Slot(i)].word else 0
  }

  function Write(m: Mem, f: bv64, i: bv9, w: bv64): (m': Mem)
    ensures forall g, j :: Word(m', g, j) == if g == f && j == i then w else Word(m, g, j)
  {
    m[Frame(f) := (if Frame(f) in m then m[Frame(f)] else map[])[Slot(i) := Cell(w)]]
  }

  /** memset of one page to zero. */
  function Clear(m: Mem, f: bv64): (m': Mem)
    ensures forall g, j :: Word(m', g, j) == if g == f then 0 else Word(m, g, j)
  {
    m[Frame(f) := map[]]
  }

  predicate Present(w: bv64) { w & 1 == 1 }

  const JUST_WRITABLE: bv64 := 2
  const USER: bv64 := 4
  const NO_EXECUTE: bv64 := 0x8000_0000_0000_0000

  const PHYS_ADDR_MASK: bv64 := 0x000f_ffff_ffff_f000
  const PERMISSIONS_MASK: bv64 := 0x8000_0000_0000_0fff

  /** page_entry_to_phys. */
  function FrameOf(w: bv64): bv64 { w & PHYS_ADDR_MASK }

  datatype Option<T> = None | Some(value: T)

  function Entry(m: Mem, f: bv64, i: bv9): Option<bv64>
  {
    if Present(Word(m, f, i)) then Some(FrameOf(Word(m, f, i))) else None
  }

  /** The frame the walk from table r along indices p ends in. */
  function Node(m: Mem, r: bv64, p: seq<bv9>): Option<bv64>
    decreases |p|
  {
    if p == [] then Some(r)
    else
      match Node(m, r, p[..|p| - 1])
      case None => None
      case Some(f) => Entry(m, f, p[|p| - 1])
  }

  lemma NodeStep(m: Mem, r: bv64, p: seq<bv9>, i: bv9)
    ensures Node(m, r, p + [i])
            == match Node(m, r, p) { case None => None case Some(f) => Entry(m, f, i) }
  {
    hide Entry;
    assert (p + [i])[..|p|] == p;
  }

  /** Walks compose. */
  lemma {:induction false} NodeAppend(m: Mem, r: bv64, p: seq<bv9>, q: seq<bv9>)
    ensures Node(m, r, p + q) == match Node(m, r, p) { case None => None case Some(f) => Node(m, f, q) }
    decreases |q|
  {
    hide Entry, Node;
    if q == [] {
      assert p + q == p;
      NodeEmpty(m, r);
      if Node(m, r, p).Some? {
        NodeEmpty(m, Node(m, r, p).value);
      }
    } else {
      var n := |q| - 1;
      NodeAppend(m, r, p, q[..n]);
      assert p + q == (p + q[..n]) + [q[n]] && q == q[..n] + [q[n]];
      NodeStep(m, r, p + q[..n], q[n]);
      if Node(m, r, p).Some? {
        NodeStep(m, Node(m, r, p).value, q[..n], q[n]);
      }
    }
  }

  lemma NodeEmpty(m: Mem, r: bv64)
    ensures Node(m, r, []) == Some(r)
  {
  }

  /** If a node exists, so does every node above it. */
  lemma {:induction false} NodePrefix(m: Mem, r: bv64, p: seq<bv9>, k: nat)
    requires Node(m, r, p).Some? && k <= |p|
    ensures Node(m, r, p[..k]).Some?
    decreases |p|
  {
    hide Entry;
    if k < |p| {
      NodePrefix(m, r, p[..|p| - 1], k);
      assert p[..|p| - 1][..k] == p[..k];
    } else {
      assert p[..k] == p;
    }
  }

  // ---------------------------------------------------------------------
  // Virtual addresses.

  const FRACTAL: bv9 := 256

  /** pl4_index, pl3_index, pl2_index and pl1_index of an address. */
  function Index4(v: bv64): bv9 { ((v >> 39) & 0x1ff) as bv9 }
  function Index3(v: bv64): bv9 { ((v >> 30) & 0x1ff) as bv9 }
  function Index2(v: bv64): bv9 { ((v >> 21) & 0x1ff) as bv9 }
  function Index1(v: bv64): bv9 { ((v >> 12) & 0x1ff) as bv9 }

  function Path(v: bv64): (p: seq<bv9>)
    ensures |p| == 4
  {
    [Index4(v), Index3(v), Index2(v), Index1(v)]
  }

  /** get_pl4, get_pl3_index, get_pl2_index, get_pl1_index: addresses inside the recursive slot. */
  function GetPl4(): bv64 { 0xffff_8040_2010_0000 }

  function GetPl3(i4: bv9): bv64
  {
    0xffff_8040_2000_0000 | (i4 as bv64 << 12)
  }

  function GetPl2(i4: bv9, i3: bv9): bv64
  {
    0xffff_8040_0000_0000 | (i4 as bv64 << 21) | (i3 as bv64 << 12)
  }

  function GetPl1(i4: bv9, i3: bv9, i2: bv9): bv64
  {
    0xffff_8000_0000_0000 | (i4 as bv64 << 30) | (i3 as bv64 << 21) | (i2 as bv64 << 12)
  }

  lemma PathOfPl4()
    ensures Path(GetPl4()) == [FRACTAL, FRACTAL, FRACTAL, FRACTAL]
  {
  }

  lemma PathOfPl3(i4: bv9)
    ensures Path(GetPl3(i4)) == [FRACTAL, FRACTAL, FRACTAL, i4]
  {
  }

  lemma PathOfPl2(i4: bv9, i3: bv9)
    ensures Path(GetPl2(i4, i3)) == [FRACTAL, FRACTAL, i4, i3]
  {
  }

  lemma PathOfPl1(i4: bv9, i3: bv9, i2: bv9)
    ensures Path(GetPl1(i4, i3, i2)) == [FRACTAL, i4, i3, i2]
  {
  }

  /** Slot 256 of the top table points at the top table. */
  predicate SelfMap(m: Mem, r: bv64)
  {
    Entry(m, r, FRACTAL) == Some(r)
  }

  /** Any number of leading recursive indices leaves the walk at the top table. */
  lemma {:induction false} FractalPrefix(m: Mem, r: bv64, n: nat, p: seq<bv9>)
    requires SelfMap(m, r)
    ensures Node(m, r, seq(n, _ => FRACTAL) + p) == Node(m, r, p)
  {
    hide Entry, Node;
    var a := seq(n, _ => FRACTAL);
    if n == 0 {
      assert a + p == p;
    } else {
      var b := seq(n - 1, _ => FRACTAL);
      FractalPrefix(m, r, n - 1, []);
      assert a == b + [FRACTAL] && b + [] == b;
      NodeEmpty(m, r);
      NodeStep(m, r, b, FRACTAL);
      NodeAppend(m, r, a, p);
    }
  }

  /** The address through which the table at depth |p| of path p is edited. */
  function TableAddress(p: seq<bv9>): bv64
    requires |p| <= 3
  {
    if |p| == 0 then GetPl4() else if |p| == 1 then GetPl3(p[0])
    else if |p| == 2 then GetPl2(p[0], p[1]) else GetPl1(p[0], p[1], p[2])
  }

  lemma PathOfTable(p: seq<bv9>)
    requires |p| <= 3
    ensures Path(TableAddress(p)) == seq(4 - |p|, _ => FRACTAL) + p
  {
    hide Path, GetPl1, GetPl2, GetPl3, GetPl4;
    if |p| == 0 {
      PathOfPl4();
    } else if |p| == 1 {
      PathOfPl3(p[0]);
    } else if |p| == 2 {
      PathOfPl2(p[0], p[1]);
    } else {
      PathOfPl1(p[0], p[1], p[2]);
    }
  }

  /** The hardware walk of a table's address in the recursive slot ends in that table. */
  lemma SelfMapReachesTable(m: Mem, r: bv64, p: seq<bv9>)
    requires SelfMap(m, r) && |p| <= 3
    ensures Node(m, r, Path(TableAddress(p))) == Node(m, r, p)
  {
    hide Node, Path, TableAddress, SelfMap;
    PathOfTable(p);
    FractalPrefix(m, r, 4 - |p|, p);
  }
}
