/**
 Registers read and written along a straight line of blocks. Every block remembers definitions of its
 own, and a read that finds a gap in them goes on in the block before.
 */
module RegisterChains {
  import opened Wrappers
  import opened RegisterFiles

  // ---- what a straight line of blocks should come to ----

  /** What bit `x` of the domain holds at the end of the last of the blocks. */
  function Flat(files: seq<map<nat, Bit>>, x: nat): Bit {
    if files == [] then Initial(x)
    else
      var n := |files| - 1;
      if x in files[n] then files[n][x] else Flat(files[..n], x)
  }

  ghost predicate SameBits(files: seq<map<nat, Bit>>, files': seq<map<nat, Bit>>) {
    forall x: nat :: Flat(files, x) == Flat(files', x)
  }

  function FlatBits(files: seq<map<nat, Bit>>, reg: Register): (r: seq<Bit>)
    ensures |r| == reg.size
    ensures forall b: nat {:trigger reg.Has(b)} :: reg.Has(b) ==> r[b - reg.lsb] == Flat(files, b)
  {
    seq(reg.size, k requires 0 <= k < reg.size => Flat(files, reg.lsb + k))
  }

  /** The blocks remember the register in full. */
  ghost predicate Knows(file: map<nat, Bit>, reg: Register) {
    forall b: nat {:trigger reg.Has(b)} :: reg.Has(b) ==> b in file
  }

  /** A read of the register goes back to the entry block, which remembers it in part only. */
  ghost predicate Forgets(files: seq<map<nat, Bit>>, reg: Register)
    requires files != []
  {
    var n := |files| - 1;
    if n == 0 then PartlyIn(files[0], reg) else !Knows(files[n], reg) && Forgets(files[..n], reg)
  }

  /** What is left to be read: if the entry block forgets the register, its initial contents. */
  ghost function Base(files: seq<map<nat, Bit>>, reg: Register): (r: seq<map<nat, Bit>>)
    requires files != []
    ensures |r| == |files|
  {
    if Forgets(files, reg) then files[0 := Overlay(files[0], reg, InitialBits(reg))] else files
  }

  lemma BaseOfShorter(files: seq<map<nat, Bit>>, reg: Register)
    requires |files| > 1 && !Knows(files[|files| - 1], reg)
    ensures var n := |files| - 1;
            Base(files, reg)[..n] == Base(files[..n], reg) && Base(files, reg)[n] == files[n]
  {
  }

  /** Which bits each of the blocks remembers. */
  function KeysOf(files: seq<map<nat, Bit>>): (r: seq<set<nat>>)
    ensures |r| == |files| && forall i :: 0 <= i < |files| ==> r[i] == files[i].Keys
  {
    if files == [] then [] else KeysOf(files[..|files| - 1]) + [files[|files| - 1].Keys]
  }

  /** Which bits they remember once a register has been read at the end of the last one. */
  function Learned(known: seq<set<nat>>, reg: Register): (r: seq<set<nat>>)
    requires known != []
    ensures |r| == |known|
  {
    var n := |known| - 1;
    (if n == 0 || BitsOf(reg) <= known[n] then known[..n] else Learned(known[..n], reg)) + [known[n] + BitsOf(reg)]
  }

  /** Whether a read forgets something, from what the blocks remember. */
  ghost predicate WillForget(known: seq<set<nat>>, reg: Register)
    requires known != []
  {
    var n := |known| - 1;
    !(BitsOf(reg) <= known[n]) && if n == 0 then BitsOf(reg) * known[0] != {} else WillForget(known[..n], reg)
  }

  lemma {:induction false} ForgetsFromKeys(files: seq<map<nat, Bit>>, reg: Register)
    requires files != []
    ensures WillForget(KeysOf(files), reg) <==> Forgets(files, reg)
    decreases |files|
  {
    var n := |files| - 1;
    KnowsFromKeys(files[n], reg);
    if n > 0 {
      ForgetsFromKeys(files[..n], reg);
    } else {
      PartlyFromKeys(files[0], reg);
    }
  }

  lemma KnowsFromKeys(file: map<nat, Bit>, reg: Register)
    ensures Knows(file, reg) <==> BitsOf(reg) <= file.Keys
  {
    if Knows(file, reg) {
      forall b | b in BitsOf(reg)
        ensures b in file.Keys
      {
        assert reg.Has(b);
      }
    }
    if BitsOf(reg) <= file.Keys {
      forall b: nat | reg.Has(b)
        ensures b in file
      {
        assert b in BitsOf(reg);
      }
    }
  }

  lemma PartlyFromKeys(file: map<nat, Bit>, reg: Register)
    ensures PartlyIn(file, reg) <==> !(BitsOf(reg) <= file.Keys) && BitsOf(reg) * file.Keys != {}
  {
    if b: nat :| reg.Has(b) && b in file {
      assert b in BitsOf(reg) * file.Keys;
    }
    if b: nat :| reg.Has(b) && b !in file {
      assert b in BitsOf(reg) && b !in file.Keys;
    }
    if BitsOf(reg) * file.Keys != {} {
      var b :| b in BitsOf(reg) * file.Keys;
      assert reg.Has(b) && b in file;
    }
  }

  lemma FlatNext(files: seq<map<nat, Bit>>, x: nat)
    requires files != []
    ensures var n := |files| - 1;
            Flat(files, x) == if x in files[n] then files[n][x] else Flat(files[..n], x)
  {
  }

  /** Remembering what the register holds changes nothing of what is left to be read. */
  lemma Remembered(files: seq<map<nat, Bit>>, files': seq<map<nat, Bit>>, reg: Register, bits: seq<Bit>)
    requires files != [] && |files'| == |files| && |bits| == reg.size && bits == FlatBits(Base(files, reg), reg)
    requires var n := |files| - 1;
             files'[n] == Overlay(files[n], reg, bits) && SameBits(files'[..n], Base(files, reg)[..n])
    ensures SameBits(files', Base(files, reg))
  {
    forall x: nat
      ensures Flat(files', x) == Flat(Base(files, reg), x)
    {
      FlatNext(files', x);
      FlatNext(Base(files, reg), x);
    }
  }

  /** The last block knows the register: nothing is forgotten, and its bits are the block's. */
  lemma FoundHere(files: seq<map<nat, Bit>>, reg: Register, bits: seq<Bit>)
    requires files != [] && |bits| == reg.size && Knows(files[|files| - 1], reg)
    requires Right(files[|files| - 1], reg, InitialBits(reg), bits)
    ensures Base(files, reg) == files && bits == FlatBits(files, reg)
  {
    BitsAre(files, reg, bits, InitialBits(reg));
  }

  lemma BitsAre(files: seq<map<nat, Bit>>, reg: Register, bits: seq<Bit>, given: seq<Bit>)
    requires files != [] && |bits| == |given| == reg.size && Right(files[|files| - 1], reg, given, bits)
    requires Knows(files[|files| - 1], reg)
             || forall b: nat {:trigger reg.Has(b)} :: reg.Has(b) ==> given[b - reg.lsb] == Flat(files[..|files| - 1], b)
    ensures bits == FlatBits(files, reg)
  {
    forall k | 0 <= k < reg.size
      ensures bits[k] == FlatBits(files, reg)[k]
    {
      assert reg.Has(reg.lsb + k);
      FlatNext(files, reg.lsb + k);
    }
  }

  /** In the entry block, a register that it does not know holds its initial contents from now on. */
  lemma FromTheEntry(file: map<nat, Bit>, reg: Register)
    requires !Knows(file, reg)
    ensures InitialBits(reg) == FlatBits(Base([file], reg), reg)
  {
    forall k | 0 <= k < reg.size
      ensures InitialBits(reg)[k] == FlatBits(Base([file], reg), reg)[k]
    {
      assert reg.Has(reg.lsb + k);
      FlatNext(Base([file], reg), reg.lsb + k);
      assert Base([file], reg)[..0] == [];
    }
  }

  /** What the last block does not know comes from the block before. */
  lemma FoundBefore(files: seq<map<nat, Bit>>, reg: Register, before: seq<Bit>, bits: seq<Bit>)
    requires |files| > 1 && |bits| == |before| == reg.size && !Knows(files[|files| - 1], reg)
    requires before == FlatBits(Base(files[..|files| - 1], reg), reg)
    requires Right(files[|files| - 1], reg, before, bits)
    ensures bits == FlatBits(Base(files, reg), reg)
  {
    BaseOfShorter(files, reg);
    BitsAre(Base(files, reg), reg, bits, before);
  }

  /** In a family of registers, what has been put together is right. */
  lemma ReadIsRight(defs: seq<Def>, file: map<nat, Bit>, regs: set<Register>, reg: Register, given: seq<Bit>, bits: seq<Bit>)
    requires Refines(defs, file) && IsFamily(regs) && InFamily(defs, regs) && reg in regs
    requires |given| == reg.size && RightUpTo(defs, reg, given, bits, reg.Msb())
    ensures |bits| == reg.size && Right(file, reg, given, bits)
  {
    FamilyReadsWhole(defs, regs, reg);
    PutTogether(defs, file, reg, given, bits);
  }

  /** A read adds the register to what the last block remembers, and to what the blocks before it do if they are asked. */
  lemma KeysLearned(files: seq<map<nat, Bit>>, below: seq<map<nat, Bit>>, files': seq<map<nat, Bit>>, reg: Register, bits: seq<Bit>)
    requires files != [] && |bits| == reg.size && |below| == |files| - 1
    requires files' == below + [Overlay(files[|files| - 1], reg, bits)]
    requires |files| == 1 || Knows(files[|files| - 1], reg) ==> below == files[..|files| - 1]
    requires |files| > 1 && !Knows(files[|files| - 1], reg) ==> KeysOf(below) == Learned(KeysOf(files[..|files| - 1]), reg)
    ensures KeysOf(files') == Learned(KeysOf(files), reg)
  {
    hide KeysOf, Overlay, Knows;
    var n := |files| - 1;
    KnowsFromKeys(files[n], reg);
    OverlayKeys(files[n], reg, bits);
    assert KeysOf(files)[..n] == KeysOf(files[..n]);
    assert KeysOf(files') == KeysOf(below) + [KeysOf(files)[n] + BitsOf(reg)];
  }

  // ---- the blocks ----

  class RegisterChain {
    const regs: set<Register>
    var blocks: seq<RegisterDefs>

    /** The blocks are different objects, and remember registers of the family only. */
    ghost predicate Valid()
      reads this, blocks
    {
      && blocks != [] && IsFamily(regs) && (forall reg :: reg in regs ==> reg.size > 0)
      && (forall i, j :: 0 <= i < j < |blocks| ==> blocks[i] != blocks[j])
      && (forall i :: 0 <= i < |blocks| ==> blocks[i].Valid() && InFamily(blocks[i].defs, regs))
    }

    /** What the first `n` blocks remember. */
    ghost function Files(n: nat): (r: seq<map<nat, Bit>>)
      requires n <= |blocks|
      reads this, blocks
      ensures |r| == n && forall i :: 0 <= i < n ==> r[i] == blocks[i].file
    {
      if n == 0 then [] else Files(n - 1) + [blocks[n - 1].file]
    }

    constructor (regs: set<Register>)
      requires IsFamily(regs) && forall reg :: reg in regs ==> reg.size > 0
      ensures Valid() && this.regs == regs && Files(|blocks|) == [map[]] && |blocks| == 1 && fresh(blocks[0])
    {
      this.regs := regs;
      var entry := new RegisterDefs();
      blocks := [entry];
    }

    /** The next block of the line is begun. */
    method NextBlock()
      requires Valid()
      modifies this
      ensures Valid() && Files(|blocks|) == old(Files(|blocks|)) + [map[]]
      ensures blocks[..|blocks| - 1] == old(blocks) && fresh(blocks[|blocks| - 1])
    {
      var block := new RegisterDefs();
      blocks := blocks + [block];
    }

    /** Block `n` remembers a register. */
    method Remember(n: nat, reg: Register, value: Node)
      requires Valid() && n < |blocks| && reg in regs && DefOk(Def(reg, value))
      modifies blocks[n]
      ensures Valid() && Files(n) == old(Files(n))
      ensures Files(n + 1) == Files(n) + [Overlay(old(Files(n + 1))[n], reg, Bits(value))]
    {
      hide Refines, InFamily, IsFamily, DefOk;
      UncoveredInFamily(blocks[n].defs, regs, reg);
      BlockParts(n);
      blocks[n].WriteStorage(reg, value);
      OneMore(blocks[n].defs[..|blocks[n].defs| - 1], regs, Def(reg, value));
    }

    /** What block `n` makes of a register, with the bits that it lacks coming from `before`. */
    method Recall(n: nat, reg: Register, before: Option<Node>) returns (value: Option<Node>)
      requires Valid() && n < |blocks| && reg in regs && (before.Some? ==> |Bits(before.value)| == reg.size)
      ensures var file := Files(n + 1)[n];
              && (before.None? ==> (value.Some? <==> Knows(file, reg)))
              && (before.Some? && value.None? ==> file == map[])
              && (value.Some? ==>
                    && |Bits(value.value)| == reg.size
                    && Right(file, reg, if before.Some? then Bits(before.value) else InitialBits(reg), Bits(value.value)))
    {
      hide Right, Knows, Refines, RightUpTo, IsFamily, InFamily;
      var block := blocks[n];
      BlockParts(n);
      value := block.TryReadRegisterStorage(reg, before);
      NotFound(block.defs, block.file, reg);
      RefinesOk(block.defs, block.file);
      if value.Some? {
        ReadIsRight(block.defs, block.file, regs, reg, if before.Some? then Bits(before.value) else InitialBits(reg), Bits(value.value));
      }
    }

    /** An assignment in the last block. */
    method WriteStorage(reg: Register, value: Node)
      requires Valid() && reg in regs && DefOk(Def(reg, value))
      modifies blocks[|blocks| - 1]
      ensures Valid()
      ensures var n := |blocks| - 1;
              Files(n + 1) == old(Files(n)) + [Overlay(old(Files(n + 1))[n], reg, Bits(value))]
    {
      Remember(|blocks| - 1, reg, value);
    }

    /**
     Reads a register at the end of block `n`. What comes out is the most recent write of every bit,
     and the initial contents where there is none; only if the read comes to the entry block and finds
     part of the register there, what the entry block has written to it is forgotten. Apart from
     that, nothing that is read later changes.
     */
    method ReadStorage(n: nat, reg: Register) returns (r: Node)
      requires Valid() && n < |blocks| && reg in regs
      modifies blocks[..n + 1]
      ensures Valid() && forall i :: n < i < |blocks| ==> unchanged(blocks[i])
      ensures Bits(r) == FlatBits(Base(old(Files(n + 1)), reg), reg)
      ensures SameBits(Files(n + 1), Base(old(Files(n + 1)), reg))
      ensures KeysOf(Files(n + 1)) == Learned(KeysOf(old(Files(n + 1))), reg)
      decreases n, 1
    {
      hide Right, Knows, Forgets, FlatBits, Base, SameBits, Valid, Files, KeysOf, Learned;
      ghost var files := Files(n + 1);
      FilesShorter(n);
      var value := Recall(n, reg, None);
      if value.Some? {
        r := value.value;
        FoundHere(files, reg, Bits(r));
        SameAsItself(files[..n]);
      } else if n == 0 {
        r := Leaf(InitialBits(reg));
        FromTheEntry(files[0], reg);
        assert files == [files[0]];
        SameAsItself([]);
      } else {
        r := ReadFromPredecessor(n, reg);
      }
      SameFile(n);
      RememberRead(n, reg, r, files);
    }

    /** What has been read is remembered, which changes nothing of what is left to be read. */
    method RememberRead(n: nat, reg: Register, r: Node, ghost files: seq<map<nat, Bit>>)
      requires Valid() && n < |blocks| && reg in regs && |files| == n + 1 && files[n] == Files(n + 1)[n]
      requires SameBits(Files(n), Base(files, reg)[..n]) && Bits(r) == FlatBits(Base(files, reg), reg)
      requires n == 0 || Knows(files[n], reg) ==> Files(n) == files[..n]
      requires n > 0 && !Knows(files[n], reg) ==> KeysOf(Files(n)) == Learned(KeysOf(files[..n]), reg)
      modifies blocks[n]
      ensures Valid() && SameBits(Files(n + 1), Base(files, reg))
      ensures KeysOf(Files(n + 1)) == Learned(KeysOf(files), reg)
      ensures forall i :: n < i < |blocks| ==> unchanged(blocks[i])
    {
      hide Right, Knows, Forgets, FlatBits, Base, SameBits, Valid, Files, KeysOf, Learned;
      BlockParts(n);
      ghost var below := Files(n);
      Remember(n, reg, r);
      FilesShorter(n);
      KeysLearned(files, below, Files(n + 1), reg, Bits(r));
      Remembered(files, Files(n + 1), reg, Bits(r));
    }

    /** What block `n` does not know of the register is read from the block before. */
    method ReadFromPredecessor(n: nat, reg: Register) returns (r: Node)
      requires Valid() && 0 < n < |blocks| && reg in regs && !Knows(Files(n + 1)[n], reg)
      modifies blocks[..n]
      ensures Valid() && forall i :: n <= i < |blocks| ==> unchanged(blocks[i])
      ensures Bits(r) == FlatBits(Base(old(Files(n + 1)), reg), reg)
      ensures SameBits(Files(n), Base(old(Files(n + 1)), reg)[..n])
      ensures KeysOf(Files(n)) == Learned(KeysOf(old(Files(n))), reg)
      decreases n, 0
    {
      hide Right, Knows, Forgets, FlatBits, Base, SameBits, Valid, Files, KeysOf, Learned;
      ghost var files := Files(n + 1);
      FilesShorter(n);
      BaseOfShorter(files, reg);
      var before := ReadStorage(n - 1, reg);
      SameFile(n);
      var value := Recall(n, reg, Some(before));
      r := if value.Some? then value.value else before;
      if value.None? {
        NothingHere(files[n], reg, Bits(r));
      }
      FoundBefore(files, reg, Bits(before), Bits(r));
    }

    lemma SameFile(n: nat)
      requires n < |blocks|
      ensures Files(n + 1)[n] == blocks[n].file
    {
    }

    lemma FilesShorter(n: nat)
      requires n < |blocks|
      ensures Files(n + 1)[..n] == Files(n)
    {
    }

    lemma BlockParts(n: nat)
      requires Valid() && n < |blocks|
      ensures blocks[n].Valid() && InFamily(blocks[n].defs, regs) && IsFamily(regs)
      ensures Refines(blocks[n].defs, blocks[n].file)
      ensures forall i :: 0 <= i < |blocks| && i != n ==> blocks[i] != blocks[n]
      ensures forall reg :: reg in regs ==> reg.size > 0
    {
    }
  }

  lemma NotFound(defs: seq<Def>, file: map<nat, Bit>, reg: Register)
    requires Refines(defs, file) && reg.size > 0
    ensures Knows(file, reg) <==> !(defs == [] || exists b: nat :: reg.Has(b) && b !in file)
  {
    RefinesOk(defs, file);
    assert reg.Has(reg.lsb);
  }

  lemma SameAsItself(files: seq<map<nat, Bit>>)
    ensures SameBits(files, files)
  {
  }

  lemma OneMore(defs: seq<Def>, regs: set<Register>, d: Def)
    requires InFamily(defs, regs) && d.reg in regs
    ensures InFamily(defs + [d], regs)
  {
  }

  lemma NothingHere(file: map<nat, Bit>, reg: Register, bits: seq<Bit>)
    requires file == map[] && |bits| == reg.size
    ensures Right(file, reg, bits, bits)
  {
  }

  // ---- any sequence of reads and writes ----

  datatype Op = Write(reg: Register, value: Node) | Read(reg: Register) | NextBlock

  predicate OpOk(op: Op, regs: set<Register>) {
    match op
    case Write(reg, value) => reg in regs && reg.size > 0 && |Bits(value)| == reg.size
    case Read(reg) => reg in regs
    case NextBlock => true
  }

  /** What bit `x` of the domain should hold after the operations: what was written to it last. */
  function Ideal(ops: seq<Op>, x: nat): Bit {
    if ops == [] then Initial(x)
    else
      match ops[|ops| - 1]
      case Write(reg, value) =>
        if reg.Has(x) && |Bits(value)| == reg.size then Bits(value)[x - reg.lsb] else Ideal(ops[..|ops| - 1], x)
      case _ => Ideal(ops[..|ops| - 1], x)
  }

  /** Which bits the blocks remember after the operations. */
  function Known(ops: seq<Op>): (r: seq<set<nat>>)
    ensures r != []
  {
    if ops == [] then [{}]
    else
      var known := Known(ops[..|ops| - 1]);
      match ops[|ops| - 1]
      case Write(reg, _) => known[..|known| - 1] + [known[|known| - 1] + BitsOf(reg)]
      case Read(reg) => Learned(known, reg)
      case NextBlock => known + [{}]
  }

  /** None of the answers comes to the entry block with part of its register there. */
  ghost predicate NoneForgets(ops: seq<Op>) {
    ops != [] ==>
      && NoneForgets(ops[..|ops| - 1])
      && (ops[|ops| - 1].Read? ==> !WillForget(Known(ops[..|ops| - 1]), ops[|ops| - 1].reg))
  }

  ghost predicate IsIdeal(ops: seq<Op>, files: seq<map<nat, Bit>>) {
    forall x: nat :: Flat(files, x) == Ideal(ops, x)
  }

  /** A read comes to what was written last, as long as no read has forgotten anything. */
  ghost predicate AnswerIsRight(done: seq<Op>, op: Op, answer: Option<Node>) {
    op.Read? && NoneForgets(done + [op]) ==>
      && answer.Some? && |Bits(answer.value)| == op.reg.size
      && forall b: nat {:trigger op.reg.Has(b)} :: op.reg.Has(b) ==>
           Bits(answer.value)[b - op.reg.lsb] == Ideal(done, b)
  }

  ghost predicate AnswersAreRight(ops: seq<Op>, answers: seq<Option<Node>>) {
    && |answers| == |ops|
    && forall i {:trigger answers[i]} :: 0 <= i < |ops| ==> AnswerIsRight(ops[..i], ops[i], answers[i])
  }

  lemma OneMoreAnswer(ops: seq<Op>, answers: seq<Option<Node>>, op: Op, answer: Option<Node>)
    requires AnswersAreRight(ops, answers) && AnswerIsRight(ops, op, answer)
    ensures AnswersAreRight(ops + [op], answers + [answer])
  {
    hide AnswerIsRight;
    forall i | 0 <= i <= |ops|
      ensures AnswerIsRight((ops + [op])[..i], (ops + [op])[i], (answers + [answer])[i])
    {
      assert (ops + [op])[..i] == ops[..i];
      assert ops[..|ops|] == ops;
    }
  }

  lemma WrittenIsIdeal(ops: seq<Op>, files: seq<map<nat, Bit>>, reg: Register, value: Node)
    requires IsIdeal(ops, files) && files != [] && |Bits(value)| == reg.size
    ensures var n := |files| - 1;
            var files' := files[..n] + [Overlay(files[n], reg, Bits(value))];
            IsIdeal(ops + [Write(reg, value)], files')
  {
    var n := |files| - 1;
    var files' := files[..n] + [Overlay(files[n], reg, Bits(value))];
    assert files'[..n] == files[..n] && (ops + [Write(reg, value)])[..|ops|] == ops;
    forall x: nat
      ensures Flat(files', x) == Ideal(ops + [Write(reg, value)], x)
    {
      FlatNext(files, x);
      FlatNext(files', x);
    }
  }

  lemma KeysAppend(files: seq<map<nat, Bit>>, file: map<nat, Bit>)
    ensures KeysOf(files + [file]) == KeysOf(files) + [file.Keys]
  {
    assert (files + [file])[..|files|] == files;
  }

  lemma {:induction false} WrittenKeys(files: seq<map<nat, Bit>>, reg: Register, bits: seq<Bit>)
    requires files != [] && |bits| == reg.size
    ensures var n := |files| - 1;
            KeysOf(files[..n] + [Overlay(files[n], reg, bits)]) == KeysOf(files)[..n] + [KeysOf(files)[n] + BitsOf(reg)]
  {
    hide KeysOf, Overlay;
    var n := |files| - 1;
    OverlayKeys(files[n], reg, bits);
    KeysAppend(files[..n], files[n]);
    assert files == files[..n] + [files[n]];
    KeysAppend(files[..n], Overlay(files[n], reg, bits));
  }

  lemma OverlayKeys(file: map<nat, Bit>, reg: Register, bits: seq<Bit>)
    requires |bits| == reg.size
    ensures Overlay(file, reg, bits).Keys == file.Keys + BitsOf(reg)
  {
  }

  lemma BlockKeys(files: seq<map<nat, Bit>>, file: map<nat, Bit>)
    requires file == map[]
    ensures KeysOf(files + [file]) == KeysOf(files) + [{}]
  {
    hide KeysOf;
    assert file.Keys == {};
  }

  lemma BlockIsIdeal(ops: seq<Op>, files: seq<map<nat, Bit>>)
    requires IsIdeal(ops, files)
    ensures IsIdeal(ops + [NextBlock], files + [map[]])
  {
    assert (files + [map[]])[..|files|] == files && (ops + [NextBlock])[..|ops|] == ops;
    forall x: nat
      ensures Flat(files + [map[]], x) == Ideal(ops + [NextBlock], x)
    {
      FlatNext(files + [map[]], x);
    }
  }

  lemma ReadIsIdeal(ops: seq<Op>, files: seq<map<nat, Bit>>, files': seq<map<nat, Bit>>, reg: Register, bits: seq<Bit>)
    requires IsIdeal(ops, files) && files != [] && |bits| == reg.size
    requires bits == FlatBits(Base(files, reg), reg) && SameBits(files', Base(files, reg)) && !Forgets(files, reg)
    ensures IsIdeal(ops + [Read(reg)], files')
    ensures forall b: nat {:trigger reg.Has(b)} :: reg.Has(b) ==> bits[b - reg.lsb] == Ideal(ops, b)
  {
    assert (ops + [Read(reg)])[..|ops|] == ops;
    forall x: nat
      ensures Flat(files', x) == Ideal(ops + [Read(reg)], x)
    {
      assert Flat(files', x) == Flat(files, x);
    }
  }

  lemma NothingDone()
    ensures IsIdeal([], [map[]]) && KeysOf([map[]]) == Known([])
  {
    var file: map<nat, Bit> := map[];
    var files := [file];
    assert files[..0] == [] && file.Keys == {};
    BlockKeys([], file);
    assert [] + [file] == files;
    forall x: nat
      ensures Flat(files, x) == Initial(x)
    {
      FlatNext(files, x);
    }
  }

  /** What is known between two operations. */
  ghost predicate InStep(chain: RegisterChain, done: seq<Op>)
    reads chain, chain.blocks
  {
    && chain.Valid()
    && KeysOf(chain.Files(|chain.blocks|)) == Known(done)
    && (NoneForgets(done) ==> IsIdeal(done, chain.Files(|chain.blocks|)))
  }

  /** One operation; the blocks are known ones and at most one new one. */
  method Carry(chain: RegisterChain, ghost done: seq<Op>, op: Op) returns (answer: Option<Node>)
    requires InStep(chain, done) && OpOk(op, chain.regs)
    modifies chain, chain.blocks
    ensures InStep(chain, done + [op]) && AnswerIsRight(done, op, answer)
    ensures old(chain.blocks) <= chain.blocks && forall k :: |old(chain.blocks)| <= k < |chain.blocks| ==> fresh(chain.blocks[k])
  {
    hide InStep, AnswerIsRight;
    match op {
      case Write(reg, value) =>
        CarryWrite(chain, done, reg, value);
        answer := None;
        NoAnswer(done, op);
      case Read(reg) =>
        answer := CarryRead(chain, done, reg);
      case NextBlock =>
        CarryNext(chain, done);
        answer := None;
        NoAnswer(done, op);
    }
  }

  lemma NoAnswer(done: seq<Op>, op: Op)
    requires !op.Read?
    ensures AnswerIsRight(done, op, None)
  {
  }

  method CarryWrite(chain: RegisterChain, ghost done: seq<Op>, reg: Register, value: Node)
    requires InStep(chain, done) && OpOk(Write(reg, value), chain.regs)
    modifies chain.blocks
    ensures InStep(chain, done + [Write(reg, value)]) && chain.blocks == old(chain.blocks)
  {
    hide NoneForgets, IsIdeal, WillForget, KeysOf, Overlay;
    ghost var n := |chain.blocks|;
    ghost var files := chain.Files(n);
    Prefix(done, Write(reg, value));
    chain.FilesShorter(n - 1);
    chain.WriteStorage(reg, value);
    WrittenKeys(files, reg, Bits(value));
    if NoneForgets(done) {
      WrittenIsIdeal(done, files, reg, value);
    }
  }

  method CarryRead(chain: RegisterChain, ghost done: seq<Op>, reg: Register) returns (answer: Option<Node>)
    requires InStep(chain, done) && OpOk(Read(reg), chain.regs)
    modifies chain.blocks
    ensures InStep(chain, done + [Read(reg)]) && AnswerIsRight(done, Read(reg), answer)
    ensures chain.blocks == old(chain.blocks)
  {
    hide NoneForgets, IsIdeal, Base, Forgets, FlatBits, SameBits, WillForget, Knows, KeysOf, Learned;
    ghost var n := |chain.blocks|;
    ghost var files := chain.Files(n);
    Prefix(done, Read(reg));
    assert chain.blocks[..n] == chain.blocks;
    var r := chain.ReadStorage(|chain.blocks| - 1, reg);
    ForgetsFromKeys(files, reg);
    if NoneForgets(done + [Read(reg)]) {
      ReadIsIdeal(done, files, chain.Files(n), reg, Bits(r));
    }
    answer := Some(r);
  }

  method CarryNext(chain: RegisterChain, ghost done: seq<Op>)
    requires InStep(chain, done)
    modifies chain
    ensures InStep(chain, done + [NextBlock])
    ensures old(chain.blocks) <= chain.blocks && forall k :: |old(chain.blocks)| <= k < |chain.blocks| ==> fresh(chain.blocks[k])
  {
    hide NoneForgets, IsIdeal, KeysOf, WillForget;
    ghost var files := chain.Files(|chain.blocks|);
    Prefix(done, NextBlock);
    chain.NextBlock();
    BlockKeys(files, map[]);
    if NoneForgets(done) {
      BlockIsIdeal(done, files);
    }
  }

  lemma Prefix(done: seq<Op>, op: Op)
    ensures (done + [op])[..|done|] == done
    ensures NoneForgets(done + [op]) <==> NoneForgets(done) && (op.Read? ==> !WillForget(Known(done), op.reg))
  {
    assert (done + [op])[..|done|] == done;
  }

  /** Carries out any sequence of operations on the registers of a family, along a straight line of blocks. */
  method Run(regs: set<Register>, ops: seq<Op>) returns (answers: seq<Option<Node>>)
    requires IsFamily(regs) && (forall reg :: reg in regs ==> reg.size > 0)
    requires forall i :: 0 <= i < |ops| ==> OpOk(ops[i], regs)
    ensures AnswersAreRight(ops, answers)
  {
    hide AnswersAreRight, AnswerIsRight, InStep, IsFamily, OpOk;
    var chain := StartLine(regs);
    answers := [];
    for i := 0 to |ops|
      invariant chain.regs == regs && fresh(chain)
      invariant forall k :: 0 <= k < |chain.blocks| ==> fresh(chain.blocks[k])
      invariant InStep(chain, ops[..i]) && AnswersAreRight(ops[..i], answers)
    {
      var answer := Carry(chain, ops[..i], ops[i]);
      OneMoreAnswer(ops[..i], answers, ops[i], answer);
      assert ops[..i + 1] == ops[..i] + [ops[i]];
      answers := answers + [answer];
    }
    assert ops[..|ops|] == ops;
  }

  method StartLine(regs: set<Register>) returns (chain: RegisterChain)
    requires IsFamily(regs) && (forall reg :: reg in regs ==> reg.size > 0)
    ensures chain.regs == regs && fresh(chain) && forall k :: 0 <= k < |chain.blocks| ==> fresh(chain.blocks[k])
    ensures InStep(chain, []) && AnswersAreRight([], [])
  {
    hide *;
    chain := new RegisterChain(regs);
    Started(chain);
  }

  lemma Started(chain: RegisterChain)
    requires chain.Valid() && chain.Files(|chain.blocks|) == [map[]]
    ensures InStep(chain, []) && AnswersAreRight([], [])
  {
    NothingDone();
  }
}
