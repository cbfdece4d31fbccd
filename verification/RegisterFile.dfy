/**
 The definitions of overlapping registers that reach the end of what has been translated of a
 block. A register file that keeps every bit by itself says what they should come to.
 */
module RegisterFiles {
  import opened Wrappers

  /** A register of one domain: a range of its bits. */
  datatype Register = Register(lsb: nat, size: nat) {
    function Msb(): nat { lsb + size }

    predicate Has(b: int) { lsb <= b < Msb() }

    predicate Covers(r: Register) { lsb <= r.lsb && r.Msb() <= Msb() }
  }

  /** Bit `index` of some computation, or of a domain when the procedure is entered. */
  datatype Bit = Computed(op: nat, index: nat) | Initial(index: nat) | Undefined

  datatype Node =
    | Leaf(bits: seq<Bit>)
    | Slice(width: nat, value: Node, offset: nat)
    | Sequence(parts: seq<Node>)   // most significant part first

  function Cut(bits: seq<Bit>, offset: nat, width: nat): (r: seq<Bit>)
    ensures |r| == width
    ensures forall k :: 0 <= k < width ==> r[k] == if offset + k < |bits| then bits[offset + k] else Undefined
  {
    seq(width, k requires 0 <= k < width => if offset + k < |bits| then bits[offset + k] else Undefined)
  }

  /** The bits of a node, least significant first. */
  function Bits(n: Node): seq<Bit>
    decreases n, 1, 0
  {
    match n
    case Leaf(bits) => bits
    case Slice(width, value, offset) => Cut(Bits(value), offset, width)
    case Sequence(parts) => AllBits(n, parts)
  }

  function AllBits(whole: Node, parts: seq<Node>): seq<Bit>
    requires forall i :: 0 <= i < |parts| ==> parts[i] < whole
    decreases whole, 0, |parts|
  {
    if parts == [] then [] else AllBits(whole, parts[1..]) + Bits(parts[0])
  }

  /** The bits of nodes laid end to end, the first node's being the least significant. */
  function Joined(nodes: seq<Node>): seq<Bit> {
    if nodes == [] then [] else Joined(nodes[..|nodes| - 1]) + Bits(nodes[|nodes| - 1])
  }

  function Reversed(nodes: seq<Node>): (r: seq<Node>)
    ensures |r| == |nodes|
    ensures forall i :: 0 <= i < |nodes| ==> r[i] == nodes[|nodes| - 1 - i]
  {
    seq(|nodes|, i requires 0 <= i < |nodes| => nodes[|nodes| - 1 - i])
  }

  lemma {:induction false} AllBitsOfReversed(whole: Node, nodes: seq<Node>)
    requires forall i :: 0 <= i < |nodes| ==> nodes[i] < whole
    ensures AllBits(whole, Reversed(nodes)) == Joined(nodes)
  {
    var rev := Reversed(nodes);
    if nodes != [] {
      assert rev[1..] == Reversed(nodes[..|nodes| - 1]);
      AllBitsOfReversed(whole, nodes[..|nodes| - 1]);
    }
  }

  lemma SequenceBits(nodes: seq<Node>)
    ensures Bits(Sequence(Reversed(nodes))) == Joined(nodes)
  {
    var whole := Sequence(Reversed(nodes));
    forall i | 0 <= i < |nodes|
      ensures nodes[i] < whole
    {
      assert nodes[i] == whole.parts[|nodes| - 1 - i];
    }
    AllBitsOfReversed(whole, nodes);
  }

  // ---- the list of definitions ----

  datatype Def = Def(reg: Register, node: Node)

  ghost predicate DefOk(d: Def) {
    d.reg.size > 0 && |Bits(d.node)| == d.reg.size
  }

  ghost predicate DefsOk(defs: seq<Def>) {
    forall i :: 0 <= i < |defs| ==> DefOk(defs[i])
  }

  /** The most recent definition of a bit. */
  function Latest(defs: seq<Def>, b: nat): (r: Option<nat>)
    ensures r.Some? ==> r.value < |defs| && defs[r.value].reg.Has(b)
    ensures r.Some? ==> forall j :: r.value < j < |defs| ==> !defs[j].reg.Has(b)
    ensures r.None? ==> forall j :: 0 <= j < |defs| ==> !defs[j].reg.Has(b)
  {
    if defs == [] then None
    else
      var n := |defs| - 1;
      if defs[n].reg.Has(b) then Some(n) else Latest(defs[..n], b)
  }

  lemma LatestIs(defs: seq<Def>, b: nat, i: nat)
    requires i < |defs| && defs[i].reg.Has(b) && forall j :: i < j < |defs| ==> !defs[j].reg.Has(b)
    ensures Latest(defs, b) == Some(i)
  {
  }

  /** The bit that the list of definitions has for bit `b` of the domain. */
  ghost function Held(defs: seq<Def>, b: nat): Option<Bit>
    requires DefsOk(defs)
  {
    var i := Latest(defs, b);
    if i.None? then None
    else
      assert DefOk(defs[i.value]);
      Some(Bits(defs[i.value].node)[b - defs[i.value].reg.lsb])
  }

  /** The list holds the same bits as the register file that keeps every bit by itself. */
  ghost predicate Refines(defs: seq<Def>, file: map<nat, Bit>) {
    && DefsOk(defs)
    && forall b: nat ::
         && (b in file <==> Held(defs, b).Some?)
         && (b in file ==> Held(defs, b) == Some(file[b]))
  }

  /** Writing a register: each of its bits is written by itself. */
  function Overlay(file: map<nat, Bit>, reg: Register, bits: seq<Bit>): map<nat, Bit>
    requires |bits| == reg.size
  {
    map b: nat | b in file.Keys + BitsOf(reg) :: if reg.Has(b) then bits[b - reg.lsb] else file[b]
  }

  function BitsOf(reg: Register): (r: set<nat>)
    ensures forall b: nat :: b in r <==> reg.Has(b)
  {
    set b: nat | b < reg.Msb() && reg.Has(b)
  }

  function Uncovered(defs: seq<Def>, reg: Register): seq<Def> {
    if defs == [] then []
    else
      var n := |defs| - 1;
      Uncovered(defs[..n], reg) + if reg.Covers(defs[n].reg) then [] else [defs[n]]
  }

  lemma {:induction false} UncoveredHolds(defs: seq<Def>, reg: Register, b: nat)
    requires DefsOk(defs) && !reg.Has(b)
    ensures DefsOk(Uncovered(defs, reg)) && Held(Uncovered(defs, reg), b) == Held(defs, b)
  {
    if defs != [] {
      var n := |defs| - 1;
      UncoveredHolds(defs[..n], reg, b);
      assert DefOk(defs[n]) && defs[..n] + [defs[n]] == defs;
      HeldAppend(defs[..n], defs[n], b);
      HeldAppend(Uncovered(defs[..n], reg), defs[n], b);
      if reg.Covers(defs[n].reg) {
        assert Uncovered(defs, reg) == Uncovered(defs[..n], reg);
      }
    }
  }

  lemma HeldAppend(defs: seq<Def>, d: Def, b: nat)
    requires DefsOk(defs) && DefOk(d)
    ensures DefsOk(defs + [d])
    ensures Held(defs + [d], b) == if d.reg.Has(b) then Some(Bits(d.node)[b - d.reg.lsb]) else Held(defs, b)
  {
    assert (defs + [d])[..|defs|] == defs;
  }

  lemma {:induction false} UncoveredOk(defs: seq<Def>, reg: Register)
    requires DefsOk(defs)
    ensures DefsOk(Uncovered(defs, reg))
  {
    if defs != [] {
      UncoveredOk(defs[..|defs| - 1], reg);
    }
  }

  /** A new definition in front of the ones it does not cover is a write of each bit. */
  lemma WriteRefines(defs: seq<Def>, file: map<nat, Bit>, reg: Register, node: Node)
    requires Refines(defs, file) && DefOk(Def(reg, node))
    ensures Refines(Uncovered(defs, reg) + [Def(reg, node)], Overlay(file, reg, Bits(node)))
  {
    hide Held, Uncovered, Overlay;
    var defs' := Uncovered(defs, reg) + [Def(reg, node)];
    var file' := Overlay(file, reg, Bits(node));
    UncoveredOk(defs, reg);
    forall b: nat
      ensures b in file' <==> Held(defs', b).Some?
      ensures b in file' ==> Held(defs', b) == Some(file'[b])
    {
      BitRefines(defs, file, b);
      WrittenBit(defs, file, reg, node, b);
    }
  }

  lemma BitRefines(defs: seq<Def>, file: map<nat, Bit>, b: nat)
    requires Refines(defs, file)
    ensures b in file <==> Held(defs, b).Some?
    ensures b in file ==> Held(defs, b) == Some(file[b])
  {
  }

  /** One bit of the domain. */
  lemma WrittenBit(defs: seq<Def>, file: map<nat, Bit>, reg: Register, node: Node, b: nat)
    requires DefsOk(defs) && DefOk(Def(reg, node))
    requires b in file <==> Held(defs, b).Some?
    requires b in file ==> Held(defs, b) == Some(file[b])
    ensures DefsOk(Uncovered(defs, reg) + [Def(reg, node)])
    ensures var defs', file' := Uncovered(defs, reg) + [Def(reg, node)], Overlay(file, reg, Bits(node));
            && (b in file' <==> Held(defs', b).Some?)
            && (b in file' ==> Held(defs', b) == Some(file'[b]))
  {
    hide Held, Uncovered;
    UncoveredOk(defs, reg);
    HeldAppend(Uncovered(defs, reg), Def(reg, node), b);
    if !reg.Has(b) {
      UncoveredHolds(defs, reg, b);
    }
  }

  // ---- reading ----

  /** What a read of the register must come to: where no definition reaches, the given bits. */
  ghost function Wanted(defs: seq<Def>, reg: Register, before: seq<Bit>, b: nat): Bit
    requires DefsOk(defs) && |before| == reg.size && reg.Has(b)
  {
    if Held(defs, b).Some? then Held(defs, b).value else before[b - reg.lsb]
  }

  /** The bit is to be had from all of a definition, or from one whose bit 0 is the domain's. */
  ghost predicate FromWhole(defs: seq<Def>, reg: Register, b: nat) {
    var i := Latest(defs, b);
    if i.Some? then
      defs[i.value].reg.lsb == 0
      || forall a: nat {:trigger Latest(defs, a)} :: defs[i.value].reg.Has(a) ==> reg.Has(a) && Latest(defs, a) == i
    else
      reg.lsb == 0 || forall a: nat {:trigger Latest(defs, a)} :: reg.Has(a) ==> Latest(defs, a).None?
  }

  ghost predicate Distinct(bits: seq<Bit>) {
    && (forall i, j :: 0 <= i < j < |bits| ==> bits[i] != bits[j])
    && Undefined !in bits
  }

  ghost predicate AllDistinct(defs: seq<Def>, before: seq<Bit>) {
    Distinct(before) && forall i :: 0 <= i < |defs| ==> Distinct(Bits(defs[i].node))
  }

  /** The part of the use `[lo, hi)` that one definition supplies. */
  ghost predicate IsPiece(defs: seq<Def>, lo: nat, hi: nat, i: nat, from: nat, to: nat) {
    && i < |defs| && lo <= from < to <= hi
    && (forall a: nat {:trigger Latest(defs, a)} :: lo <= a < from ==> Latest(defs, a).None?)
    && (forall a: nat {:trigger Latest(defs, a)} :: from <= a < to ==> Latest(defs, a) == Some(i))
    && (to < hi ==> to == defs[i].reg.Msb() || Latest(defs, to) != Some(i))
  }

  /**
   One definition's share of the bits `from` up to `to`, cut out of its node at the offset that
   is counted from bit 0 of the domain.
   */
  ghost function ShareOf(value: Node, from: nat, to: nat): seq<Bit>
    requires from <= to
  {
    if to - from < |Bits(value)| then Cut(Bits(value), from, to - from) else Bits(value)
  }

  /** The use can be taken apart at `lo`: no definition supplies bits on both sides of it. */
  ghost predicate Boundary(defs: seq<Def>, reg: Register, lo: nat) {
    && reg.lsb <= lo <= reg.Msb()
    && (reg.lsb < lo < reg.Msb() ==> Latest(defs, lo - 1).Some? && Latest(defs, lo) != Latest(defs, lo - 1))
  }

  lemma PieceIsWhole(defs: seq<Def>, reg: Register, i: nat, lo: nat, from: nat, to: nat, b: nat)
    requires DefsOk(defs) && Boundary(defs, reg, lo)
    requires IsPiece(defs, lo, reg.Msb(), i, from, to) && from <= b < to
    ensures defs[i].reg.lsb <= from && to <= defs[i].reg.Msb()
    ensures FromWhole(defs, reg, b) <==> defs[i].reg.lsb == 0 || to - from == defs[i].reg.size
  {
    var r := defs[i].reg;
    assert Latest(defs, from) == Some(i) && Latest(defs, to - 1) == Some(i) && Latest(defs, b) == Some(i);
    if FromWhole(defs, reg, b) && r.lsb != 0 {
      ghost var f := from - 1;
      assert r.lsb < from ==> r.Has(f) && Latest(defs, f) == Some(i);
      assert r.Has(to) ==> Latest(defs, to) == Some(i);
      assert r.lsb == from && to == r.Msb();
    }
    if to - from == r.size {
      assert r.lsb == from && to == r.Msb();
      forall a: nat | r.Has(a)
        ensures reg.Has(a)
        ensures Latest(defs, a) == Some(i)
      {
        assert from <= a < to;
      }
    }
  }

  lemma PieceIsRight(defs: seq<Def>, reg: Register, before: seq<Bit>, i: nat, lo: nat, from: nat, to: nat, b: nat)
    requires DefsOk(defs) && |before| == reg.size && Boundary(defs, reg, lo)
    requires IsPiece(defs, lo, reg.Msb(), i, from, to) && from <= b < to
    ensures |ShareOf(defs[i].node, from, to)| == to - from
    ensures FromWhole(defs, reg, b) ==> ShareOf(defs[i].node, from, to)[b - from] == Wanted(defs, reg, before, b)
    ensures AllDistinct(defs, before) && ShareOf(defs[i].node, from, to)[b - from] == Wanted(defs, reg, before, b) ==>
              FromWhole(defs, reg, b)
  {
    hide FromWhole, ShareOf, Bits, Distinct;
    var d := defs[i];
    assert DefOk(d) && Latest(defs, b) == Some(i);
    PieceIsWhole(defs, reg, i, lo, from, to, b);
    ShareAt(d.node, from, to, b);
    if AllDistinct(defs, before) {
      DistinctAt(Bits(d.node), b - d.reg.lsb, b);
    }
  }

  /** The bits from `lo` up to `to` are defined nowhere in the block. */
  ghost predicate IsGap(defs: seq<Def>, lo: nat, hi: nat, to: nat) {
    && lo < to <= hi
    && (forall a: nat {:trigger Latest(defs, a)} :: lo <= a < to ==> Latest(defs, a).None?)
    && (to < hi ==> Latest(defs, to).Some?)
  }

  lemma GapIsWhole(defs: seq<Def>, reg: Register, lo: nat, to: nat, b: nat)
    requires Boundary(defs, reg, lo) && IsGap(defs, lo, reg.Msb(), to) && lo <= b < to
    ensures FromWhole(defs, reg, b) <==> reg.lsb == 0 || to - lo == reg.size
  {
    assert Latest(defs, b).None?;
    assert reg.lsb < lo ==> reg.Has(lo - 1);
    assert to < reg.Msb() ==> reg.Has(to);
  }

  /** The share at an index is the bit at the domain's offset, or at the node's own if it is whole. */
  lemma ShareAt(value: Node, from: nat, to: nat, b: nat)
    requires from <= b < to && to - from <= |Bits(value)|
    ensures |ShareOf(value, from, to)| == to - from
    ensures to - from < |Bits(value)| ==>
              ShareOf(value, from, to)[b - from] == if b < |Bits(value)| then Bits(value)[b] else Undefined
    ensures to - from == |Bits(value)| ==> ShareOf(value, from, to)[b - from] == Bits(value)[b - from]
  {
  }

  lemma DistinctAt(bits: seq<Bit>, i: nat, j: nat)
    requires Distinct(bits) && i < |bits|
    ensures j < |bits| && i != j ==> bits[i] != bits[j]
    ensures bits[i] != Undefined
  {
  }

  lemma GapIsRight(defs: seq<Def>, reg: Register, before: Node, lo: nat, to: nat, b: nat)
    requires DefsOk(defs) && |Bits(before)| == reg.size
    requires Boundary(defs, reg, lo) && IsGap(defs, lo, reg.Msb(), to) && lo <= b < to
    ensures |ShareOf(before, lo, to)| == to - lo
    ensures FromWhole(defs, reg, b) ==> ShareOf(before, lo, to)[b - lo] == Wanted(defs, reg, Bits(before), b)
    ensures AllDistinct(defs, Bits(before)) && ShareOf(before, lo, to)[b - lo] == Wanted(defs, reg, Bits(before), b) ==>
              FromWhole(defs, reg, b)
  {
    hide FromWhole, ShareOf, Bits, Distinct;
    assert Latest(defs, b).None?;
    GapIsWhole(defs, reg, lo, to, b);
    ShareAt(before, lo, to, b);
    if AllDistinct(defs, Bits(before)) {
      DistinctAt(Bits(before), b - reg.lsb, b);
    }
  }

  /** The bits that have been put together up to `lo` are right where they can be had from a whole. */
  ghost predicate RightUpTo(defs: seq<Def>, reg: Register, before: seq<Bit>, bits: seq<Bit>, lo: nat)
    requires DefsOk(defs) && |before| == reg.size
  {
    && reg.lsb <= lo <= reg.Msb() && |bits| == lo - reg.lsb
    && forall b: nat {:trigger FromWhole(defs, reg, b)} :: reg.lsb <= b < lo ==>
         && (FromWhole(defs, reg, b) ==> bits[b - reg.lsb] == Wanted(defs, reg, before, b))
         && (AllDistinct(defs, before) && bits[b - reg.lsb] == Wanted(defs, reg, before, b) ==> FromWhole(defs, reg, b))
  }

  lemma AppendPiece(defs: seq<Def>, reg: Register, before: seq<Bit>, bits: seq<Bit>, i: nat, from: nat, to: nat, lo: nat)
    requires DefsOk(defs) && |before| == reg.size && RightUpTo(defs, reg, before, bits, from)
    requires Boundary(defs, reg, lo) && IsPiece(defs, lo, reg.Msb(), i, from, to)
    ensures RightUpTo(defs, reg, before, bits + ShareOf(defs[i].node, from, to), to)
    ensures Boundary(defs, reg, to)
  {
    hide FromWhole, Wanted, ShareOf, AllDistinct;
    PieceIsRight(defs, reg, before, i, lo, from, to, from);
    forall b: nat | from <= b < to
      ensures var share := ShareOf(defs[i].node, from, to);
              && (FromWhole(defs, reg, b) ==> share[b - from] == Wanted(defs, reg, before, b))
              && (AllDistinct(defs, before) && share[b - from] == Wanted(defs, reg, before, b) ==> FromWhole(defs, reg, b))
    {
      PieceIsRight(defs, reg, before, i, lo, from, to, b);
    }
    assert Latest(defs, to - 1) == Some(i);
  }

  lemma AppendGap(defs: seq<Def>, reg: Register, before: Node, bits: seq<Bit>, lo: nat, to: nat)
    requires DefsOk(defs) && |Bits(before)| == reg.size && RightUpTo(defs, reg, Bits(before), bits, lo)
    requires Boundary(defs, reg, lo) && IsGap(defs, lo, reg.Msb(), to)
    ensures RightUpTo(defs, reg, Bits(before), bits + ShareOf(before, lo, to), to)
    ensures to == reg.Msb() ==> Boundary(defs, reg, to)
  {
    hide FromWhole, Wanted, ShareOf, AllDistinct;
    GapIsRight(defs, reg, before, lo, to, lo);
    forall b: nat | lo <= b < to
      ensures var share := ShareOf(before, lo, to);
              && (FromWhole(defs, reg, b) ==> share[b - lo] == Wanted(defs, reg, Bits(before), b))
              && (AllDistinct(defs, Bits(before)) && share[b - lo] == Wanted(defs, reg, Bits(before), b) ==> FromWhole(defs, reg, b))
    {
      GapIsRight(defs, reg, before, lo, to, b);
    }
  }

  /** The part of a node that a range of bits of the domain takes. */
  method MaybeSlice(value: Node, lsb: nat, msb: nat) returns (r: Node)
    requires lsb <= msb
    ensures Bits(r) == ShareOf(value, lsb, msb)
  {
    r := value;
    if msb - lsb < |Bits(value)| {
      r := Slice(msb - lsb, value, lsb);
    }
  }

  /** The definition of the least significant bit of `[lo, hi)` that is defined at all. */
  method FindIntersectingRegister(definitions: seq<Def>, lo: nat, hi: nat) returns (found: Option<nat>, from: nat, to: nat)
    requires DefsOk(definitions) && lo < hi
    ensures found.Some? ==> IsPiece(definitions, lo, hi, found.value, from, to)
    ensures found.None? ==> forall a: nat {:trigger Latest(definitions, a)} :: lo <= a < hi ==> Latest(definitions, a).None?
  {
    found, from, to := None, lo, hi;
    var useMsb := hi;
    for i := |definitions| downto 0
      invariant lo <= useMsb <= hi
      invariant forall a, j :: lo <= a < useMsb && i <= j < |definitions| ==> !definitions[j].reg.Has(a)
      invariant found.None? ==> useMsb == hi
      invariant found.Some? ==>
                  && i <= found.value < |definitions| && useMsb == from < to <= hi
                  && (forall a: nat :: from <= a < to ==> definitions[found.value].reg.Has(a))
                  && (forall a: nat, j :: from <= a < to && found.value < j < |definitions| ==> !definitions[j].reg.Has(a))
                  && (to < hi ==> to == definitions[found.value].reg.Msb() || Latest(definitions, to) != Some(found.value))
    {
      assert DefOk(definitions[i]);
      var defRange := definitions[i].reg;
      var lsb := if defRange.lsb < lo then lo else defRange.lsb;
      var msb := if defRange.Msb() < useMsb then defRange.Msb() else useMsb;
      if lsb < msb && (found.None? || from > lsb) {
        if found.Some? {
          LatestIs(definitions, from, found.value);
        }
        found, from, to := Some(i), lsb, msb;
        useMsb := lsb;
      }
    }
    if found.Some? {
      forall a: nat | from <= a < to
        ensures Latest(definitions, a) == Some(found.value)
      {
        LatestIs(definitions, a, found.value);
      }
    }
  }

  /** The definitions that one block remembers for the registers of one domain. */
  class RegisterDefs {
    var defs: seq<Def>
    ghost var file: map<nat, Bit>

    ghost predicate Valid()
      reads this
    {
      Refines(defs, file)
    }

    constructor ()
      ensures Valid() && defs == [] && file == map[]
    {
      defs, file := [], map[];
    }

    /** An assignment takes the place of the definitions that it covers. */
    method WriteStorage(reg: Register, value: Node)
      requires Valid() && DefOk(Def(reg, value))
      modifies this
      ensures Valid() && file == Overlay(old(file), reg, Bits(value))
      ensures defs == Uncovered(old(defs), reg) + [Def(reg, value)]
    {
      WriteRefines(defs, file, reg, value);
      RemoveCovered(reg);
      defs := defs + [Def(reg, value)];
      file := Overlay(file, reg, Bits(value));
    }

    method RemoveCovered(reg: Register)
      modifies this`defs
      ensures defs == Uncovered(old(defs), reg)
    {
      hide Uncovered, Register.Covers;
      ghost var was, kept, done := defs, [], 0;
      var i := 0;
      UncoveredNone(reg);
      assert was[..0] == [] && was[0..] == was;
      while i < |defs|
        invariant done <= |was| && i == |kept| && defs == kept + was[done..]
        invariant kept == Uncovered(was[..done], reg)
        decreases |was| - done
      {
        UncoveredNext(was, done, reg);
        AtPosition(kept, was, done);
        if reg.Covers(defs[i].reg) {
          defs := defs[..i] + defs[i + 1..];
        } else {
          kept := kept + [was[done]];
          i := i + 1;
        }
        done := done + 1;
      }
      assert was[..done] == was;
    }

    /**
     Puts the bits of a register together from what the block remembers, and where it remembers
     nothing from `before`, what its predecessors come to. Nothing is returned if it would need
     those and there are none. The bits that come out are right exactly if each of them can be had
     from a whole definition.
     */
    method TryReadRegisterStorage(reg: Register, before: Option<Node>) returns (r: Option<Node>)
      requires Valid() && reg.size > 0 && (before.Some? ==> |Bits(before.value)| == reg.size)
      ensures r.None? <==> defs == [] || (before.None? && exists b: nat :: reg.Has(b) && b !in file)
      ensures r.Some? ==>
                var given := if before.Some? then Bits(before.value) else InitialBits(reg);
                RightUpTo(defs, reg, given, Bits(r.value), reg.Msb())
    {
      hide FromWhole, Wanted, AllDistinct, RightUpTo, Boundary;
      if defs == [] {
        return None;
      }
      ghost var given := if before.Some? then before.value else Leaf(InitialBits(reg));
      ghost var bits := [];
      StartOfRead(defs, reg, Bits(given));
      var offsetLo := reg.lsb;
      var subNodes: seq<Node> := [];
      while offsetLo < reg.Msb()
        invariant reg.lsb <= offsetLo <= reg.Msb() && Boundary(defs, reg, offsetLo)
        invariant RightUpTo(defs, reg, Bits(given), bits, offsetLo) && bits == Joined(subNodes)
        invariant before.None? ==> forall b: nat :: reg.lsb <= b < offsetLo ==> b in file
      {
        var sidElem, from, to := FindIntersectingRegister(defs, offsetLo, reg.Msb());
        ghost var lo := offsetLo;
        if sidElem.None? || offsetLo < from {
          var end := if sidElem.None? then reg.Msb() else from;
          assert Latest(defs, offsetLo).None?;
          if before.None? {
            assert offsetLo !in file;
            return None;
          }
          assert sidElem.Some? ==> Latest(defs, from).Some?;
          AppendGap(defs, reg, before.value, bits, offsetLo, end);
          var predecessorValue := MaybeSlice(before.value, offsetLo, end);
          subNodes, bits := JoinOne(subNodes, bits, predecessorValue);
          offsetLo := end;
        }
        if sidElem.Some? {
          AppendPiece(defs, reg, Bits(given), bits, sidElem.value, from, to, lo);
          assert forall b: nat {:trigger b in file} :: from <= b < to ==> Latest(defs, b).Some? && b in file;
          var value := MaybeSlice(defs[sidElem.value].node, from, to);
          subNodes, bits := JoinOne(subNodes, bits, value);
          offsetLo := to;
        }
      }
      if |subNodes| == 1 {
        OneJoined(subNodes[0]);
        return Some(subNodes[0]);
      }
      SequenceBits(subNodes);
      return Some(Sequence(Reversed(subNodes)));
    }

    /**
     Reads a register at the end of what has been translated of the block, and remembers what it
     came to. Without `before` the block is the entry: then a register that the block remembers in
     part only is given a new definition as a whole, and what was remembered is forgotten.
     */
    method ReadStorage(reg: Register, before: Option<Node>) returns (r: Node)
      requires Valid() && reg.size > 0 && (before.Some? ==> |Bits(before.value)| == reg.size)
      modifies this
      ensures Valid() && |Bits(r)| == reg.size
      ensures file == Overlay(old(file), reg, Bits(r)) && defs == Uncovered(old(defs), reg) + [Def(reg, r)]
      ensures ReadOk(old(defs), old(file), reg, before, Bits(r))
    {
      hide FromWhole, AllDistinct, Refines, RightUpTo, AllFromWhole, Right;
      ghost var given := if before.Some? then Bits(before.value) else InitialBits(reg);
      RefinesOk(defs, file);
      var value := TryReadRegisterStorage(reg, before);
      if value.Some? {
        r := value.value;
        PutTogether(defs, file, reg, given, Bits(r));
      } else {
        r := if before.Some? then before.value else Leaf(InitialBits(reg));
        GivenIsRight(file, reg, given);
        if !PartlyIn(file, reg) {
          NotRemembered(defs, file, reg);
        }
      }
      WriteStorage(reg, r);
    }
  }

  lemma GivenIsRight(file: map<nat, Bit>, reg: Register, given: seq<Bit>)
    requires |given| == reg.size
    ensures (forall b: nat :: reg.Has(b) ==> b !in file) ==> Right(file, reg, given, given)
    ensures given == InitialBits(reg) ==> (Right(file, reg, given, given) <==> OnlyInitial(file, reg))
  {
  }

  // ---- families of registers that are always read right ----

  /** Any two registers that share a bit are one inside the other; only those at bit 0 have parts. */
  predicate IsFamily(regs: set<Register>) {
    forall r, s :: r in regs && s in regs ==>
      r.Msb() <= s.lsb || s.Msb() <= r.lsb || s.Covers(r) || (r.lsb == 0 && r.Covers(s))
  }

  ghost predicate InFamily(defs: seq<Def>, regs: set<Register>) {
    forall i :: 0 <= i < |defs| ==> defs[i].reg in regs
  }

  /** In such a family nothing but whole definitions is ever needed. */
  lemma FamilyReadsWhole(defs: seq<Def>, regs: set<Register>, reg: Register)
    requires DefsOk(defs) && IsFamily(regs) && InFamily(defs, regs) && reg in regs
    ensures AllFromWhole(defs, reg)
  {
    forall b: nat | reg.Has(b)
      ensures FromWhole(defs, reg, b)
    {
      var i := Latest(defs, b);
      if i.Some? {
        var d := defs[i.value].reg;
        if d.lsb != 0 {
          forall a: nat | d.Has(a)
            ensures reg.Has(a)
            ensures Latest(defs, a) == i
          {
            assert reg.Covers(d);
            OnlyCoveredLater(defs, regs, b, i.value, a);
          }
        }
      } else if reg.lsb != 0 {
        forall a: nat | reg.Has(a)
          ensures Latest(defs, a).None?
        {
          var j := Latest(defs, a);
          if j.Some? {
            CoversUse(defs, regs, reg, j.value, a, b);
          }
        }
      }
    }
  }

  lemma CoversUse(defs: seq<Def>, regs: set<Register>, reg: Register, j: nat, a: nat, b: nat)
    requires IsFamily(regs) && InFamily(defs, regs) && reg in regs && reg.lsb != 0 && j < |defs|
    requires reg.Has(a) && reg.Has(b) && defs[j].reg.Has(a)
    ensures defs[j].reg.Has(b)
  {
    assert defs[j].reg in regs;
  }

  lemma OnlyCoveredLater(defs: seq<Def>, regs: set<Register>, b: nat, i: nat, a: nat)
    requires DefsOk(defs) && IsFamily(regs) && InFamily(defs, regs)
    requires Latest(defs, b) == Some(i) && defs[i].reg.lsb != 0 && defs[i].reg.Has(a)
    ensures Latest(defs, a) == Some(i)
  {
    forall j | i < j < |defs|
      ensures !defs[j].reg.Has(a)
    {
      assert defs[j].reg in regs && defs[i].reg in regs && !defs[j].reg.Has(b);
      assert !defs[j].reg.Covers(defs[i].reg);
    }
    LatestIs(defs, a, i);
  }

  /** Reads and writes of registers of the family leave only such registers in the list. */
  lemma {:induction false} UncoveredInFamily(defs: seq<Def>, regs: set<Register>, reg: Register)
    requires InFamily(defs, regs)
    ensures InFamily(Uncovered(defs, reg), regs)
  {
    if defs != [] {
      UncoveredInFamily(defs[..|defs| - 1], regs, reg);
    }
  }

  /** A register whose offset is not 0 and that has a part: reading the part takes the wrong bits. */
  lemma DivisibleAtOffset(reg: Register, part: Register, node: Node)
    requires reg.lsb != 0 && part.size > 0 && reg.Covers(part) && part.size < reg.size
    requires |Bits(node)| == reg.size && Distinct(Bits(node))
    ensures !AllFromWhole([Def(reg, node)], part)
  {
    var defs := [Def(reg, node)];
    LatestIs(defs, part.lsb, 0);
    var a := if part.lsb > reg.lsb then reg.lsb else reg.Msb() - 1;
    LatestIs(defs, a, 0);
    assert !FromWhole(defs, part, part.lsb);
  }

  function InitialBits(reg: Register): (r: seq<Bit>)
    ensures |r| == reg.size
    ensures forall k :: 0 <= k < reg.size ==> r[k] == Initial(reg.lsb + k)
  {
    seq(reg.size, k requires 0 <= k < reg.size => Initial(reg.lsb + k))
  }

  /** Some bits of the register have been written in the block and some have not. */
  ghost predicate PartlyIn(file: map<nat, Bit>, reg: Register) {
    (exists b: nat :: reg.Has(b) && b in file) && (exists b: nat :: reg.Has(b) && b !in file)
  }

  ghost predicate AllFromWhole(defs: seq<Def>, reg: Register) {
    forall b: nat {:trigger FromWhole(defs, reg, b)} :: reg.Has(b) ==> FromWhole(defs, reg, b)
  }

  /** The bits of the register are those of the register file that keeps every bit by itself. */
  ghost predicate Right(file: map<nat, Bit>, reg: Register, given: seq<Bit>, bits: seq<Bit>)
    requires |given| == |bits| == reg.size
  {
    forall b: nat {:trigger reg.Has(b)} :: reg.Has(b) ==> bits[b - reg.lsb] == if b in file then file[b] else given[b - reg.lsb]
  }

  ghost predicate OnlyInitial(file: map<nat, Bit>, reg: Register) {
    forall b: nat {:trigger reg.Has(b)} :: reg.Has(b) && b in file ==> file[b] == Initial(b)
  }

  lemma RefinesOk(defs: seq<Def>, file: map<nat, Bit>)
    requires Refines(defs, file)
    ensures DefsOk(defs) && (defs == [] ==> file == map[])
  {
    if b: nat :| b in file {
      assert Held(defs, b).Some?;
    }
  }

  lemma PutTogether(defs: seq<Def>, file: map<nat, Bit>, reg: Register, given: seq<Bit>, bits: seq<Bit>)
    requires Refines(defs, file) && |given| == reg.size && RightUpTo(defs, reg, given, bits, reg.Msb())
    ensures |bits| == reg.size
    ensures AllFromWhole(defs, reg) ==> Right(file, reg, given, bits)
    ensures AllDistinct(defs, given) && Right(file, reg, given, bits) ==> AllFromWhole(defs, reg)
  {
    hide FromWhole, AllDistinct;
    forall b: nat | reg.Has(b)
      ensures Wanted(defs, reg, given, b) == if b in file then file[b] else given[b - reg.lsb]
      ensures FromWhole(defs, reg, b) ==> bits[b - reg.lsb] == Wanted(defs, reg, given, b)
      ensures AllDistinct(defs, given) && bits[b - reg.lsb] == Wanted(defs, reg, given, b) ==> FromWhole(defs, reg, b)
    {
      assert b in file <==> Held(defs, b).Some?;
    }
  }

  /** A register that the block does not remember at all comes from elsewhere as a whole. */
  lemma NotRemembered(defs: seq<Def>, file: map<nat, Bit>, reg: Register)
    requires Refines(defs, file) && forall b: nat :: reg.Has(b) ==> b !in file
    ensures AllFromWhole(defs, reg)
  {
    forall b: nat | reg.Has(b)
      ensures Latest(defs, b).None?
    {
      assert b in file <==> Held(defs, b).Some?;
    }
  }

  /** What the read comes to, and exactly when that is right. */
  ghost predicate ReadOk(defs: seq<Def>, file: map<nat, Bit>, reg: Register, before: Option<Node>, bits: seq<Bit>)
    requires |bits| == reg.size && (before.Some? ==> |Bits(before.value)| == reg.size)
  {
    var given := if before.Some? then Bits(before.value) else InitialBits(reg);
    if before.None? && PartlyIn(file, reg) then
      Right(file, reg, given, bits) <==> OnlyInitial(file, reg)
    else
      && (AllFromWhole(defs, reg) ==> Right(file, reg, given, bits))
      && (AllDistinct(defs, given) && Right(file, reg, given, bits) ==> AllFromWhole(defs, reg))
  }

  lemma StartOfRead(defs: seq<Def>, reg: Register, before: seq<Bit>)
    requires DefsOk(defs) && |before| == reg.size
    ensures Boundary(defs, reg, reg.lsb) && RightUpTo(defs, reg, before, [], reg.lsb)
  {
  }

  method JoinOne(nodes: seq<Node>, ghost bits: seq<Bit>, n: Node) returns (nodes': seq<Node>, ghost bits': seq<Bit>)
    requires bits == Joined(nodes)
    ensures nodes' == nodes + [n] && bits' == bits + Bits(n) == Joined(nodes')
  {
    nodes', bits' := nodes + [n], bits + Bits(n);
    assert nodes'[..|nodes|] == nodes;
  }

  lemma OneJoined(n: Node)
    ensures Joined([n]) == Bits(n)
  {
    assert [n][..0] == [];
  }

  /** The definition at the end of those kept is the next one; it is taken out or kept too. */
  lemma AtPosition(kept: seq<Def>, was: seq<Def>, done: nat)
    requires done < |was|
    ensures var defs := kept + was[done..];
            && defs[|kept|] == was[done]
            && defs[..|kept|] + defs[|kept| + 1..] == kept + was[done + 1..]
            && defs == (kept + [was[done]]) + was[done + 1..]
  {
    assert was[done..] == [was[done]] + was[done + 1..];
  }

  lemma UncoveredNone(reg: Register)
    ensures Uncovered([], reg) == []
  {
  }

  lemma UncoveredNext(defs: seq<Def>, k: nat, reg: Register)
    requires k < |defs|
    ensures Uncovered(defs[..k + 1], reg) == Uncovered(defs[..k], reg) + if reg.Covers(defs[k].reg) then [] else [defs[k]]
  {
    assert defs[..k + 1][..k] == defs[..k];
  }
}
