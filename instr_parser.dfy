/** The binary instruction decoder of `src/instructions/bin/parser.rs`: the
    base-128 varint, the opcode dispatch of `parse_instr` with its extended
    user-process space and its label-resolved destinations, and the stream
    scanner `parse_instructions` that interleaves label tokens and degrades
    anything it cannot decode into single raw bytes. */
module InstrParser {
  import opened Common
  import opened Parse
  import opened Instructions

  /** The outcome of one decoder. `NoMatch` is a recoverable parse error (the
      caller may try something else); `Incomplete` is what the streaming
      16-bit readers report when the input ends inside their field, which
      `alt` passes on instead of trying the next branch; `Unresolved` is the
      `unimplemented!` panic for a destination address that has no label.
      The last two abort the whole decode. */
  datatype Decoded<T> = Decoded(value: T, rest: Bytes) | NoMatch | Incomplete | Unresolved(addr: u32)

  /** The length of `take_till(|c| c & 0x80 == 0)`: the leading bytes that
      have the continuation bit set. */
  function TakeTill(input: Bytes): (n: nat)
    ensures n <= |input|
    ensures forall j :: 0 <= j < n ==> input[j] >= 0x80
    ensures n < |input| ==> input[n] < 0x80
  {
    if |input| == 0 || input[0] < 0x80 then 0 else 1 + TakeTill(input[1..])
  }

  /** `(acc << 7) | (c & 0x7F)` on a u64: the shift drops the top seven bits
      of `acc` and the low seven bits of `c` fill the vacated ones. */
  function Shift7Or(acc: u64, c: u8): u64
  {
    (acc % 0x200_0000_0000_0000) * 0x80 + c % 0x80
  }

  /** The value of the varint fold over `bs`, first byte most significant. */
  function VarintFold(bs: Bytes): u64
  {
    if |bs| == 0 then 0 else Shift7Or(VarintFold(bs[..|bs| - 1]), bs[|bs| - 1])
  }

  /** `varint`: every leading byte with bit 0x80 set plus one terminating
      byte; fails if the input ends before a byte with the bit clear. */
  function ParseVarint(input: Bytes): (r: Option<(VarInt, Bytes)>)
    ensures r.Some? <==> exists k :: 0 <= k < |input| && input[k] < 0x80
    ensures r.Some? ==>
      var k := |input| - |r.value.1| - 1;
      && 0 <= k < |input| && input[k] < 0x80
      && (forall j :: 0 <= j < k ==> input[j] >= 0x80)
      && r.value.1 == input[k + 1..]
      && r.value.0 == VarintFold(input[..k + 1])
  {
    var n := TakeTill(input);
    if n == |input| then None
    else
      assert input[..n + 1][..n] == input[..n];
      Some((Shift7Or(VarintFold(input[..n]), input[n]), input[n + 1..]))
  }

  /** `varint` as the source writes it: split off the continuation bytes,
      then fold them into the result with a loop. */
  method Varint(input: Bytes) returns (r: Option<(VarInt, Bytes)>)
    ensures r == ParseVarint(input)
  {
    var n := TakeTill(input);
    if n == |input| {
      return None;
    }
    var list, last := input[..n], input[n];
    var result: VarInt := 0;
    for i := 0 to |list|
      invariant result == VarintFold(list[..i])
    {
      assert list[..i + 1][..i] == list[..i];
      result := Shift7Or(result, list[i]);
    }
    assert list[..|list|] == list;
    r := Some((Shift7Or(result, last), input[n + 1..]));
  }

  // The decoder's test vectors.

  lemma VarintOneByte()
    ensures ParseVarint([0x70, 0x80]) == Some((0x70, [0x80]))
  {
    var a: Bytes := [0x70, 0x80];
    assert TakeTill(a) == 0;
    assert a[..0] == [] && a[1..] == [0x80];
  }

  lemma VarintThreeBytes()
    ensures ParseVarint([0x8F, 0x80, 0x00, 0x14]) == Some((0xF * 0x4000, [0x14]))
  {
    var b: Bytes := [0x8F, 0x80, 0x00, 0x14];
    assert b[1..][1..] == [0x00, 0x14];
    assert TakeTill(b[1..][1..]) == 0;
    assert TakeTill(b) == 2;
    var p := b[..2];
    assert p[..1] == [0x8F] && [0x8F][..0] == [];
    assert VarintFold([0x8F]) == 0xF;
    assert VarintFold(p) == 0xF * 0x80;
    assert b[3..] == [0x14];
  }

  lemma VarintTruncated()
    ensures ParseVarint([0x8F, 0x80]) == None
  {
    var c: Bytes := [0x8F, 0x80];
    assert c[1..][1..] == [];
    assert TakeTill(c) == 2;
  }

  /** A one-byte read (`be_u8`). */
  function ReadByte(input: Bytes): (r: Option<(u8, Bytes)>)
    ensures r.Some? <==> |input| >= 1
    ensures r.Some? ==> r.value == (input[0], input[1..])
  {
    if |input| == 0 then None else Some((input[0], input[1..]))
  }

  /** `parse_userproc`: the sub-operation byte, then for `User` only a 16-bit
      immediate (with `var` set to 0xFF), for every other sub-operation a
      variable index byte and then the immediate. */
  function ParseUserProc(input: Bytes, e: Endianness): (r: Decoded<Instruction>)
    ensures PayloadOf(r, 0xF0, input) && !r.Unresolved?
  {
    match ReadByte(input)
    case None => NoMatch
    case Some((code, rest)) =>
      match UserOpFromCode(code)
      case None => NoMatch
      case Some(op) =>
        if op == User then
          match PI16(rest, e)
          case None => Incomplete
          case Some((imm, rest1)) => Decoded(UserProcess(op, 0xFF, imm), rest1)
        else
          match ReadByte(rest)
          case None => NoMatch
          case Some((variable, rest1)) =>
            match PI16(rest1, e)
            case None => Incomplete
            case Some((imm, rest2)) => Decoded(UserProcess(op, variable, imm), rest2)
  }

  /** `parse_destination`: a 24-bit address, looked up in the full label map. */
  function ParseDestination(input: Bytes, e: Endianness, labels: map<u32, Name>): (r: Decoded<Destination>)
    ensures r.Decoded? ==> |input| >= 3 && r.rest == input[3..] && r.value.DestLabel?
    ensures r.Unresolved? ==> r.addr !in labels && r.addr < 0x100_0000
    ensures r.NoMatch? <==> |input| < 3
    ensures !r.Incomplete?
  {
    match PU24(input, e)
    case None => NoMatch
    case Some((addr, rest)) =>
      if addr in labels then Decoded(DestLabel(labels[addr]), rest) else Unresolved(addr)
  }

  /** Predicate: `rest` is a suffix of `input`, shorter by at least `min`. */
  predicate Suffix(input: Bytes, rest: Bytes, min: nat)
  {
    |rest| + min <= |input| && rest == input[|input| - |rest|..]
  }

  /** Predicate: `r` decoded an instruction with opcode `tag` that the payload
      `input` after the opcode byte ends with. */
  predicate PayloadOf(r: Decoded<Instruction>, tag: u8, input: Bytes)
  {
    r.Decoded? ==> Suffix(input, r.rest, 0) && WellFormed(r.value) && Tag(r.value) == tag
  }

  /** A note: opcode 0x00-0x7F is the pitch, then velocity and length. */
  function ParseNote(tag: u8, input: Bytes): (r: Decoded<Instruction>)
    requires tag <= 0x7F
    ensures PayloadOf(r, tag, input) && !r.Unresolved? && !r.Incomplete?
  {
    match ReadByte(input)
    case None => NoMatch
    case Some((velocity, rest)) =>
      match ParseVarint(rest)
      case None => NoMatch
      case Some((len, rest1)) => Decoded(Note(tag, velocity, len), rest1)
  }

  /** `Rest` (0x80) and `Instrument` (0x81): one varint. */
  function ParseLength(tag: u8, input: Bytes): (r: Decoded<Instruction>)
    requires tag == 0x80 || tag == 0x81
    ensures PayloadOf(r, tag, input) && !r.Unresolved? && !r.Incomplete?
  {
    match ParseVarint(input)
    case None => NoMatch
    case Some((len, rest)) => Decoded(if tag == 0x80 then Rest(len) else Instrument(len), rest)
  }

  /** `Fork` (0x88, track byte first), `Jump` (0x89) and `Call` (0x8A). */
  function ParseBranch(tag: u8, input: Bytes, e: Endianness, labels: map<u32, Name>): (r: Decoded<Instruction>)
    requires 0x88 <= tag <= 0x8A
    ensures PayloadOf(r, tag, input)
    ensures r.Unresolved? ==> r.addr !in labels
    ensures !r.Incomplete?
  {
    if tag == 0x88 then
      match ReadByte(input)
      case None => NoMatch
      case Some((track, rest)) =>
        match ParseDestination(rest, e, labels)
        case NoMatch => NoMatch
        case Incomplete => Incomplete
        case Unresolved(a) => Unresolved(a)
        case Decoded(dest, rest1) => Decoded(Fork(track, dest), rest1)
    else
      match ParseDestination(input, e, labels)
      case NoMatch => NoMatch
      case Incomplete => Incomplete
      case Unresolved(a) => Unresolved(a)
      case Decoded(dest, rest) => Decoded(if tag == 0x89 then Jump(dest) else Call(dest), rest)
  }

  /** `LoopStart` (0xD4) and `PrintVar` (0xD6): one byte. */
  function ParseCounted(tag: u8, input: Bytes): (r: Decoded<Instruction>)
    requires tag == 0xD4 || tag == 0xD6
    ensures PayloadOf(r, tag, input) && !r.Unresolved? && !r.Incomplete?
  {
    match ReadByte(input)
    case None => NoMatch
    case Some((b, rest)) => Decoded(if tag == 0xD4 then LoopStart(b) else PrintVar(b), rest)
  }

  /** A byte parameter (one byte) or a short parameter (a 16-bit value). */
  function ParseParam(tag: u8, input: Bytes, e: Endianness): (r: Decoded<Instruction>)
    requires IsU8ParamOpcode(tag) || IsU16ParamOpcode(tag)
    ensures PayloadOf(r, tag, input) && !r.Unresolved?
    ensures r.Incomplete? <==> IsU16ParamOpcode(tag) && |input| < 2
  {
    U8ParamTable(tag, Timebase);
    U16ParamTable(tag, ModDelay);
    if IsU8ParamOpcode(tag) then
      match ReadByte(input)
      case None => NoMatch
      case Some((value, rest)) => Decoded(SetU8Param(U8ParamFromCode(tag).value, value), rest)
    else
      match PU16(input, e)
      case None => Incomplete
      case Some((value, rest)) => Decoded(SetU16Param(U16ParamFromCode(tag).value, value), rest)
  }

  /** The `match tag` of `parse_instr`: the payload decoder of each opcode. */
  function Dispatch(tag: u8, rest: Bytes, e: Endianness, labels: map<u32, Name>): (d: Decoded<Instruction>)
    ensures PayloadOf(d, tag, rest)
    ensures d.Unresolved? ==> d.addr !in labels
    ensures d.Incomplete? ==> tag == 0xF0 || IsU16ParamOpcode(tag)
  {
    if tag <= 0x7F then ParseNote(tag, rest)
    else if tag == 0x80 || tag == 0x81 then ParseLength(tag, rest)
    else if 0x88 <= tag <= 0x8A then ParseBranch(tag, rest, e, labels)
    else if tag == 0xA2 then Decoded(If, rest)
    else if tag == 0xD4 || tag == 0xD6 then ParseCounted(tag, rest)
    else if tag == 0xF0 then ParseUserProc(rest, e)
    else if tag == 0xFC then Decoded(LoopEnd, rest)
    else if tag == 0xFD then Decoded(Return, rest)
    else if tag == 0xFF then Decoded(EndOfTrack, rest)
    else if IsU8ParamOpcode(tag) || IsU16ParamOpcode(tag) then ParseParam(tag, rest, e)
    else NoMatch
  }

  /** `parse_instr`: one opcode byte and its payload. */
  function ParseInstr(input: Bytes, e: Endianness, labels: map<u32, Name>): (r: Decoded<Instruction>)
    ensures r.Decoded? ==> Suffix(input, r.rest, 1) && WellFormed(r.value) && Tag(r.value) == input[0]
    ensures r.Unresolved? ==> r.addr !in labels
    ensures |input| == 0 ==> r.NoMatch?
    ensures r.Incomplete? ==> input[0] == 0xF0 || IsU16ParamOpcode(input[0])
  {
    if |input| == 0 then NoMatch
    else Dispatch(input[0], input[1..], e, labels)
  }

  /** The opcodes `parse_instr` has no case for. */
  predicate UnknownOpcode(b: int)
  {
    (0x82 <= b <= 0x87) || (0x8B <= b <= 0xA1) || (0xA3 <= b <= 0xAF) || (0xB3 <= b <= 0xBF)
    || b == 0xE2 || (0xE4 <= b <= 0xEF) || (0xF1 <= b <= 0xFB)
  }

  /** The dispatch table is total and disjoint: a byte is a note, one of the
      fixed opcodes, a byte or short parameter, or unknown; an unknown opcode
      never decodes, and a decoded instruction's tag is the opcode read. */
  lemma DispatchTable(input: Bytes, e: Endianness, labels: map<u32, Name>)
    requires |input| > 0
    ensures var b := input[0];
      (b <= 0x7F) || b in {0x80, 0x81, 0x88, 0x89, 0x8A, 0xA2, 0xD4, 0xD6, 0xF0, 0xFC, 0xFD, 0xFF}
      || IsU8ParamOpcode(b) || IsU16ParamOpcode(b) || UnknownOpcode(b)
    ensures UnknownOpcode(input[0]) ==> ParseInstr(input, e, labels).NoMatch?
    ensures var r := ParseInstr(input, e, labels);
      r.Decoded? ==> (
        && (r.value.Note? <==> input[0] <= 0x7F)
        && (r.value.SetU8Param? <==> IsU8ParamOpcode(input[0]))
        && (r.value.SetU16Param? <==> IsU16ParamOpcode(input[0])))
  {
    var r := ParseInstr(input, e, labels);
    if r.Decoded? {
      U8ParamTable(input[0], if r.value.SetU8Param? then r.value.param else Timebase);
      U16ParamTable(input[0], if r.value.SetU16Param? then r.value.sparam else ModDelay);
    }
  }

  /** Prepends decoded tokens to a scan outcome. */
  function Prepend(acc: seq<OptionalInst>, r: Result<seq<OptionalInst>, ScanError>): Result<seq<OptionalInst>, ScanError>
  {
    match r
    case Success(ts) => Success(acc + ts)
    case Failure(a) => Failure(a)
  }

  /** The label token for offset `pos`, if a label not yet emitted has that
      offset as its key. */
  function LabelAt(work: map<u32, Name>, pos: nat): seq<OptionalInst>
  {
    if U32(pos) in work then [Label(work[U32(pos)])] else []
  }

  /** Why `parse_instructions` gives up: a destination address without a
      label (the `unimplemented!` panic), or a 16-bit field cut short by the
      end of the input (the `Incomplete` it returns as an error). */
  datatype ScanError = UnlabelledAddress(addr: u32) | IncompleteInput

  /** One step of the scanner: the token at an offset and the offset after
      it, or an abort. */
  datatype Step = Token(tok: OptionalInst, next: nat) | Abort(why: ScanError)

  /** `alt((parse_instr, be_u8))` at offset `pos`: an instruction if one
      decodes, otherwise the raw byte; either way at least one byte is
      consumed. */
  function NextToken(input: Bytes, e: Endianness, labels: map<u32, Name>, pos: nat): (s: Step)
    requires pos < |input|
    ensures s.Token? ==> pos < s.next <= |input|
    ensures s.Token? && s.tok.Byte? ==> s.tok.b == input[pos] && s.next == pos + 1
    ensures s.Token? && s.tok.Inst? ==> WellFormed(s.tok.i)
    ensures s.Abort? && s.why.UnlabelledAddress? ==> s.why.addr !in labels
  {
    match ParseInstr(input[pos..], e, labels)
    case Unresolved(a) => Abort(UnlabelledAddress(a))
    case Incomplete => Abort(IncompleteInput)
    case NoMatch => Token(Byte(input[pos]), pos + 1)
    case Decoded(i, rest) => Token(Inst(i), |input| - |rest|)
  }

  /** What `parse_instructions` produces from offset `pos` on, once any label
      at `pos` has been emitted; `work` holds the labels not yet emitted. Each
      token is followed by the label at the offset after it (removed from the
      working copy), until the input is exhausted or a step aborts. */
  function ScanFrom(input: Bytes, e: Endianness, labels: map<u32, Name>, work: map<u32, Name>, pos: nat)
    : Result<seq<OptionalInst>, ScanError>
    requires pos <= |input|
    decreases |input| - pos
  {
    if pos == |input| then Success([])
    else
      match NextToken(input, e, labels, pos)
      case Abort(why) => Failure(why)
      case Token(t, next) =>
        Prepend([t] + LabelAt(work, next), ScanFrom(input, e, labels, work - {U32(next)}, next))
  }

  /** The whole token stream of `parse_instructions`: the label at offset 0,
      then the scan. */
  function Scan(input: Bytes, e: Endianness, labels: map<u32, Name>): Result<seq<OptionalInst>, ScanError>
  {
    Prepend(LabelAt(labels, 0), ScanFrom(input, e, labels, labels - {U32(0)}, 0))
  }

  /** Predicate: every decoded instruction in a token stream is well formed
      (in particular every note's pitch is at most 0x7F). */
  predicate AllWellFormed(ts: seq<OptionalInst>)
  {
    forall k :: 0 <= k < |ts| && ts[k].Inst? ==> WellFormed(ts[k].i)
  }

  lemma {:induction false} ScanFromWellFormed(input: Bytes, e: Endianness, labels: map<u32, Name>,
                                              work: map<u32, Name>, pos: nat)
    requires pos <= |input|
    ensures ScanFrom(input, e, labels, work, pos).Success? ==>
      AllWellFormed(ScanFrom(input, e, labels, work, pos).value)
    decreases |input| - pos
  {
    if pos < |input| {
      match NextToken(input, e, labels, pos)
      case Abort(_) =>
      case Token(t, next) =>
        var tail := ScanFrom(input, e, labels, work - {U32(next)}, next);
        ScanFromWellFormed(input, e, labels, work - {U32(next)}, next);
        if tail.Success? {
          PrependWellFormed([t] + LabelAt(work, next), tail.value);
        }
    }
  }

  lemma PrependWellFormed(a: seq<OptionalInst>, b: seq<OptionalInst>)
    requires AllWellFormed(a) && AllWellFormed(b)
    ensures AllWellFormed(a + b)
  {
    forall k | 0 <= k < |a + b| && (a + b)[k].Inst?
      ensures WellFormed((a + b)[k].i)
    {
      if k >= |a| {
        assert (a + b)[k] == b[k - |a|];
      }
    }
  }

  /** Every stream `parse_instructions` returns holds only well-formed
      instructions: notes have pitches at most 0x7F and a `User` call has its
      variable byte set to 0xFF. */
  lemma ScanWellFormed(input: Bytes, e: Endianness, labels: map<u32, Name>)
    ensures Scan(input, e, labels).Success? ==> AllWellFormed(Scan(input, e, labels).value)
  {
    var tail := ScanFrom(input, e, labels, labels - {U32(0)}, 0);
    ScanFromWellFormed(input, e, labels, labels - {U32(0)}, 0);
    if tail.Success? {
      PrependWellFormed(LabelAt(labels, 0), tail.value);
    }
  }

  lemma PrependTwice(a: seq<OptionalInst>, b: seq<OptionalInst>, x: Result<seq<OptionalInst>, ScanError>)
    ensures Prepend(a, Prepend(b, x)) == Prepend(a + b, x)
  {
    if x.Success? {
      assert a + (b + x.value) == (a + b) + x.value;
    }
  }

  /** `parse_instructions`: the hand-inlined `many0` loop, here with its exit
      test at the top. It ends exactly at the end of the input and returns
      what `Scan` describes. */
  method ParseInstructions(input: Bytes, e: Endianness, labels: map<u32, Name>)
    returns (r: Result<(Bytes, seq<OptionalInst>), ScanError>)
    ensures r.Success? <==> Scan(input, e, labels).Success?
    ensures r.Success? ==> r.value.0 == [] && r.value.1 == Scan(input, e, labels).value
    ensures r.Failure? ==> r.error == Scan(input, e, labels).error
  {
    var outLabels: map<u32, Name> := labels;
    var acc: seq<OptionalInst> := [];
    var pos: nat := 0;
    if U32(pos) in outLabels {
      acc := acc + [Label(outLabels[U32(pos)])];
    }
    outLabels := outLabels - {U32(pos)};
    assert acc == LabelAt(labels, 0);
    match ScanFrom(input, e, labels, outLabels, pos) {
      case Success(ts) => assert [] + ts == ts;
      case Failure(_) =>
    }
    while pos < |input|
      invariant pos <= |input|
      invariant Prepend(acc, ScanFrom(input, e, labels, outLabels, pos)) == Scan(input, e, labels)
      decreases |input| - pos
    {
      ghost var acc0, out0, pos0 := acc, outLabels, pos;
      var s := NextToken(input, e, labels, pos);
      if s.Abort? {
        return Failure(s.why);
      }
      acc := acc + [s.tok];
      pos := s.next;
      if U32(pos) in outLabels {
        acc := acc + [Label(outLabels[U32(pos)])];
      }
      outLabels := outLabels - {U32(pos)};
      assert acc == acc0 + ([s.tok] + LabelAt(out0, pos));
      assert ScanFrom(input, e, labels, out0, pos0)
        == Prepend([s.tok] + LabelAt(out0, pos), ScanFrom(input, e, labels, outLabels, pos));
      PrependTwice(acc0, [s.tok] + LabelAt(out0, pos), ScanFrom(input, e, labels, outLabels, pos));
    }
    assert acc + [] == acc;
    r := Success((input[pos..], acc));
  }
}
