/** Decoding what the encoder wrote: the varint of `src/instructions/gen.rs`
    read back by the varint of `src/instructions/bin/parser.rs`, the user
    sub-operation, and every single instruction whose destination names a
    label the decoder's map knows. */
module RoundTrip {
  import opened Common
  import opened Gen
  import opened Parse
  import opened Instructions
  import opened InstrParser
  import opened InstrGen

  // ---------------------------------------------------------------------
  // Division facts

  /** Euclidean division is unique: the quotient of `q * a + r` is `q`. */
  lemma DivUnique(x: int, a: int, q: int, r: int)
    requires a > 0 && x == q * a + r && 0 <= r < a
    ensures x / a == q
  {
    ModUnique(x, a, q, r);
    var d := x / a - q;
    assert d * a == 0;
    MulBounds(d, a);
  }

  lemma Distrib(q: int, r: int, a: int)
    ensures (q * 0x80 + r) * a == q * (0x80 * a) + r * a
  {
  }

  lemma MulLe(r: nat, a: nat)
    requires r < 0x80
    ensures r * a <= 0x7F * a
  {
    var d: nat := 0x7F - r;
    assert 0x7F * a == r * a + d * a;
  }

  /** Dividing by `a` and then by 128 is dividing by `128 * a`. */
  lemma DivDiv(x: nat, a: nat)
    requires a > 0
    ensures (x / a) / 0x80 == x / (0x80 * a)
  {
    var q, r := x / a, x % a;
    var q1, r1 := q / 0x80, q % 0x80;
    assert x == q * a + r;
    Distrib(q1, r1, a);
    assert x == q1 * (0x80 * a) + (r1 * a + r);
    MulLe(r1, a);
    DivUnique(x, 0x80 * a, q1, r1 * a + r);
  }

  // ---------------------------------------------------------------------
  // Varint

  /** The low seven bits of a group are the group's bits of the value. */
  lemma GroupLow(v: u64, idx: nat)
    ensures Group(v, idx) % 0x80 == (v / Pow128(idx)) % 0x80
    ensures Group(v, idx) >= 0x80 <==> idx != 0
  {
  }

  /** A quotient by a positive number is at most the dividend. */
  lemma DivLe(x: nat, p: nat)
    requires p >= 1
    ensures x / p <= x
  {
    var q, r := x / p, x % p;
    assert x == q * p + r;
    var d: nat := p - 1;
    assert q * p == q + q * d;
    assert q * d >= 0;
  }

  /** One fold step: shifting in the low seven bits of `x` after `x / 128`
      gives back `x`. */
  lemma ShiftStep(x: u64, g: u8)
    requires g % 0x80 == x % 0x80
    ensures Shift7Or(x / 0x80, g) == x
  {
  }

  /** Folding the first `j` groups of the encoding yields the value without
      its lowest `n - j` groups. */
  lemma {:induction false} FoldPrefix(v: u64, j: nat)
    requires j <= |EncodeVarint(v)|
    ensures VarintFold(EncodeVarint(v)[..j]) == v / Pow128(|EncodeVarint(v)| - j)
  {
    var r := EncodeVarint(v);
    var n := |r|;
    if j == 0 {
      VarintLengthMinimal(v);
      assert r[..0] == [];
      DivUnique(v, Pow128(n), 0, v);
    } else {
      FoldPrefix(v, j - 1);
      assert r[..j][..j - 1] == r[..j - 1];
      var p := Pow128(n - j);
      assert Pow128(n - j + 1) == 0x80 * p;
      GroupLow(v, n - j);
      DivDiv(v, p);
      DivLe(v, p);
      ShiftStep(v / p, r[j - 1]);
    }
  }

  /** Every byte of the encoding but the last has the continuation bit. */
  lemma ContinuationBits(v: u64)
    ensures var r := EncodeVarint(v);
      && r[|r| - 1] < 0x80
      && forall j :: 0 <= j < |r| - 1 ==> r[j] >= 0x80
  {
    var r := EncodeVarint(v);
    VarintLengthMinimal(v);
    GroupLow(v, 0);
    forall j | 0 <= j < |r| - 1
      ensures r[j] >= 0x80
    {
      GroupLow(v, |r| - 1 - j);
    }
  }

  /** `varint` reads back exactly what `gen_varint` wrote and leaves the rest
      of the input untouched. */
  lemma VarintRoundTrip(v: u64, rest: Bytes)
    ensures ParseVarint(EncodeVarint(v) + rest) == Some((v, rest))
  {
    var r := EncodeVarint(v);
    var n := |r|;
    var input := r + rest;
    ContinuationBits(v);
    assert input[n - 1] < 0x80;
    var out := ParseVarint(input);
    var k := |input| - |out.value.1| - 1;
    assert k == n - 1 by {
      assert forall j :: 0 <= j < n - 1 ==> input[j] == r[j];
    }
    assert input[..n] == r;
    FoldPrefix(v, n);
    assert r[..n] == r;
  }

  // ---------------------------------------------------------------------
  // Single instructions

  /** `parse_userproc` inverts `gen_userop`; for `User` the variable byte is
      not written and the decoder puts 0xFF in its place. */
  lemma UserOpRoundTrip(op: UserOp, variable: u8, imm: i16, e: Endianness, rest: Bytes)
    ensures ParseUserProc(GenUserOp(op, variable, imm, e) + rest, e)
      == Decoded(UserProcess(op, if op == User then 0xFF else variable, imm), rest)
  {
    var input := GenUserOp(op, variable, imm, e) + rest;
    UserOpTable(UserOpCode(op), op);
    var tail := GU16(AsU16(imm), e) + rest;
    ReadWriteI16(imm, e, rest);
    if op == User {
      assert input[1..] == tail;
    } else {
      assert input[1..][1..] == tail;
    }
  }

  /** The label map knows the address `fill` as the label `n`. */
  predicate Knows(labels: map<u32, Name>, fill: Option<u32>, n: Name)
  {
    fill.Some? && fill.value % 0x100_0000 in labels && labels[fill.value % 0x100_0000] == n
  }

  /** An instruction the decoder gives back unchanged once patched with
      `fill`: well formed, and a branch's destination is a label whose
      patched address the map knows by that label's name. */
  predicate Decodable(i: Instruction, fill: Option<u32>, labels: map<u32, Name>)
  {
    && WellFormed(i)
    && (DestOf(i).Some? ==> DestOf(i).value.DestLabel? && Knows(labels, fill, DestOf(i).value.name))
  }

  lemma DestRoundTrip(n: Name, e: Endianness, fill: Option<u32>, labels: map<u32, Name>, rest: Bytes)
    requires Knows(labels, fill, n)
    ensures ParseDestination(DestBytes(DestLabel(n), e, fill) + rest, e, labels) == Decoded(DestLabel(n), rest)
  {
    ReadWrite24(fill.value, e, rest);
  }

  lemma NoteRoundTrip(i: Instruction, e: Endianness, rest: Bytes)
    requires i.Note? && i.note <= 0x7F
    ensures ParseNote(i.note, Payload(i, e, None) + rest) == Decoded(i, rest)
  {
    var input := Payload(i, e, None) + rest;
    assert input[1..] == EncodeVarint(i.len) + rest;
    VarintRoundTrip(i.len, rest);
  }

  lemma LengthRoundTrip(i: Instruction, e: Endianness, rest: Bytes)
    requires i.Rest? || i.Instrument?
    ensures ParseLength(Tag(i), Payload(i, e, None) + rest) == Decoded(i, rest)
  {
    VarintRoundTrip(if i.Rest? then i.len else i.program, rest);
  }

  lemma CountedRoundTrip(i: Instruction, e: Endianness, rest: Bytes)
    requires i.LoopStart? || i.PrintVar?
    ensures ParseCounted(Tag(i), Payload(i, e, None) + rest) == Decoded(i, rest)
  {
    assert (Payload(i, e, None) + rest)[1..] == rest;
  }

  lemma BranchRoundTrip(i: Instruction, e: Endianness, fill: Option<u32>, labels: map<u32, Name>, rest: Bytes)
    requires (i.Fork? || i.Jump? || i.Call?) && Decodable(i, fill, labels)
    ensures ParseBranch(Tag(i), Payload(i, e, fill) + rest, e, labels) == Decoded(i, rest)
  {
    var d := DestOf(i).value;
    DestRoundTrip(d.name, e, fill, labels, rest);
    if i.Fork? {
      assert (Payload(i, e, fill) + rest)[1..] == DestBytes(d, e, fill) + rest;
    }
  }

  lemma ParamRoundTrip(i: Instruction, e: Endianness, rest: Bytes)
    requires i.SetU8Param? || i.SetU16Param?
    ensures IsU8ParamOpcode(Tag(i)) || IsU16ParamOpcode(Tag(i))
    ensures ParseParam(Tag(i), Payload(i, e, None) + rest, e) == Decoded(i, rest)
  {
    if i.SetU8Param? {
      U8ParamTable(Tag(i), i.param);
      U16ParamTable(Tag(i), ModDelay);
    } else {
      U16ParamTable(Tag(i), i.sparam);
      U8ParamTable(Tag(i), Timebase);
      ReadWrite16(i.svalue, e, rest);
    }
  }

  /** `parse_instr` on an instruction's bytes: the opcode selects the
      family decoder, which reads the payload. */
  lemma NoteInstr(i: Instruction, e: Endianness, fill: Option<u32>, labels: map<u32, Name>, rest: Bytes)
    requires i.Note? && WellFormed(i)
    ensures ParseInstr(InstBytes(i, e, fill) + rest, e, labels) == Decoded(i, rest)
  {
    var input := InstBytes(i, e, fill) + rest;
    assert input[0] == i.note && input[1..] == Payload(i, e, None) + rest;
    NoteRoundTrip(i, e, rest);
  }

  lemma LengthInstr(i: Instruction, e: Endianness, fill: Option<u32>, labels: map<u32, Name>, rest: Bytes)
    requires i.Rest? || i.Instrument?
    ensures ParseInstr(InstBytes(i, e, fill) + rest, e, labels) == Decoded(i, rest)
  {
    var input := InstBytes(i, e, fill) + rest;
    assert input[0] == Tag(i) && input[1..] == Payload(i, e, None) + rest;
    LengthRoundTrip(i, e, rest);
  }

  lemma BranchInstr(i: Instruction, e: Endianness, fill: Option<u32>, labels: map<u32, Name>, rest: Bytes)
    requires (i.Fork? || i.Jump? || i.Call?) && Decodable(i, fill, labels)
    ensures ParseInstr(InstBytes(i, e, fill) + rest, e, labels) == Decoded(i, rest)
  {
    var input := InstBytes(i, e, fill) + rest;
    assert input[0] == Tag(i) && input[1..] == Payload(i, e, fill) + rest;
    BranchRoundTrip(i, e, fill, labels, rest);
  }

  lemma UserInstr(i: Instruction, e: Endianness, fill: Option<u32>, labels: map<u32, Name>, rest: Bytes)
    requires i.UserProcess? && WellFormed(i)
    ensures ParseInstr(InstBytes(i, e, fill) + rest, e, labels) == Decoded(i, rest)
  {
    var input := InstBytes(i, e, fill) + rest;
    assert input[0] == 0xF0 && input[1..] == GenUserOp(i.op, i.variable, i.imm, e) + rest;
    UserOpRoundTrip(i.op, i.variable, i.imm, e, rest);
  }

  lemma ParamInstr(i: Instruction, e: Endianness, fill: Option<u32>, labels: map<u32, Name>, rest: Bytes)
    requires i.SetU8Param? || i.SetU16Param?
    ensures ParseInstr(InstBytes(i, e, fill) + rest, e, labels) == Decoded(i, rest)
  {
    var input := InstBytes(i, e, fill) + rest;
    assert input[0] == Tag(i) && input[1..] == Payload(i, e, None) + rest;
    ParamRoundTrip(i, e, rest);
  }

  lemma CountedInstr(i: Instruction, e: Endianness, fill: Option<u32>, labels: map<u32, Name>, rest: Bytes)
    requires i.LoopStart? || i.PrintVar?
    ensures ParseInstr(InstBytes(i, e, fill) + rest, e, labels) == Decoded(i, rest)
  {
    var input := InstBytes(i, e, fill) + rest;
    assert input[0] == Tag(i) && input[1..] == Payload(i, e, None) + rest;
    CountedRoundTrip(i, e, rest);
  }

  lemma BareInstr(i: Instruction, e: Endianness, fill: Option<u32>, labels: map<u32, Name>, rest: Bytes)
    requires i.If? || i.LoopEnd? || i.Return? || i.EndOfTrack?
    ensures ParseInstr(InstBytes(i, e, fill) + rest, e, labels) == Decoded(i, rest)
  {
    var input := InstBytes(i, e, fill) + rest;
    assert input[0] == Tag(i) && input[1..] == rest;
  }

  /** `parse_instr` reads back every instruction `gen_optional_inst` wrote,
      consuming exactly its bytes. */
  lemma InstrRoundTrip(i: Instruction, e: Endianness, fill: Option<u32>, labels: map<u32, Name>, rest: Bytes)
    requires Decodable(i, fill, labels)
    ensures ParseInstr(InstBytes(i, e, fill) + rest, e, labels) == Decoded(i, rest)
  {
    if i.Note? {
      NoteInstr(i, e, fill, labels, rest);
    } else if i.Rest? || i.Instrument? {
      LengthInstr(i, e, fill, labels, rest);
    } else if i.Fork? || i.Jump? || i.Call? {
      BranchInstr(i, e, fill, labels, rest);
    } else if i.UserProcess? {
      UserInstr(i, e, fill, labels, rest);
    } else if i.SetU8Param? || i.SetU16Param? {
      ParamInstr(i, e, fill, labels, rest);
    } else if i.LoopStart? || i.PrintVar? {
      CountedInstr(i, e, fill, labels, rest);
    } else {
      BareInstr(i, e, fill, labels, rest);
    }
  }
}
