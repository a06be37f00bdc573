/** The instruction data model of `src/instructions/mod.rs`, as used by the
    live decoder and generator: one variant per opcode family, symbolic branch
    destinations, the decoded-token wrapper, and the discriminant tables of the
    byte parameters, the short parameters and the user sub-operations. */
module Instructions {
  import opened Common

  /** Durations and programs are `VarInt = u64`. */
  type VarInt = u64

  datatype U8Param =
    | Timebase | EnvHold | Monophonic
    | Pan | Volume | MasterVolume | Transpose | Bend | BendRange | Priority | Polyphony
    | Tie | PortamentoCnt | ModDepth | ModSpeed | ModType | ModRange | Portamento
    | PortamentoTime | Attack | Decay | Sustain | Release
    | Expression
    | Span | Cutoff | FxSendA | FxSendB | MainSend | InitPan | Mute | FxSendC | Damper

  datatype U16Param = ModDelay | Tempo | Sweep | TrackUsage

  datatype UserOp =
    | Set | Add | Sub | Mul | Div | Shift | Rand | And | Or | Xor | Not | Mod
    | CmpEq | CmpGe | CmpGt | CmpLe | CmpLt | CmpNe
    | User

  /** A branch target. The decoder only ever produces `DestLabel`; the
      generator also accepts a raw 24-bit address. */
  datatype Destination = DestLabel(name: Name) | DestAddress(addr: u32)

  datatype Instruction =
    | Note(note: u8, velocity: u8, len: VarInt)
    | Rest(len: VarInt)
    | Instrument(program: VarInt)
    | Fork(track: u8, dest: Destination)
    | Jump(dest: Destination)
    | Call(dest: Destination)
    | If
    | LoopStart(count: u8)
    | PrintVar(index: u8)
    | UserProcess(op: UserOp, variable: u8, imm: i16)
    | LoopEnd
    | Return
    | EndOfTrack
    | SetU8Param(param: U8Param, value: u8)
    | SetU16Param(sparam: U16Param, svalue: u16)

  /** One decoded unit: an instruction, a byte that did not decode, or the
      name of the label at this position. */
  datatype OptionalInst = Inst(i: Instruction) | Byte(b: u8) | Label(name: Name)

  /** `U8Parameters as u8`. */
  function U8ParamCode(p: U8Param): u8
  {
    match p
    case Timebase => 0xB0 case EnvHold => 0xB1 case Monophonic => 0xB2
    case Pan => 0xC0 case Volume => 0xC1 case MasterVolume => 0xC2 case Transpose => 0xC3
    case Bend => 0xC4 case BendRange => 0xC5 case Priority => 0xC6 case Polyphony => 0xC7
    case Tie => 0xC8 case PortamentoCnt => 0xC9 case ModDepth => 0xCA case ModSpeed => 0xCB
    case ModType => 0xCC case ModRange => 0xCD case Portamento => 0xCE case PortamentoTime => 0xCF
    case Attack => 0xD0 case Decay => 0xD1 case Sustain => 0xD2 case Release => 0xD3
    case Expression => 0xD5
    case Span => 0xD7 case Cutoff => 0xD8 case FxSendA => 0xD9 case FxSendB => 0xDA
    case MainSend => 0xDB case InitPan => 0xDC case Mute => 0xDD case FxSendC => 0xDE
    case Damper => 0xDF
  }

  /** `U8Parameters::from_u8`. */
  function U8ParamFromCode(c: u8): Option<U8Param>
  {
    match c
    case 0xB0 => Some(Timebase) case 0xB1 => Some(EnvHold) case 0xB2 => Some(Monophonic)
    case 0xC0 => Some(Pan) case 0xC1 => Some(Volume) case 0xC2 => Some(MasterVolume)
    case 0xC3 => Some(Transpose) case 0xC4 => Some(Bend) case 0xC5 => Some(BendRange)
    case 0xC6 => Some(Priority) case 0xC7 => Some(Polyphony) case 0xC8 => Some(Tie)
    case 0xC9 => Some(PortamentoCnt) case 0xCA => Some(ModDepth) case 0xCB => Some(ModSpeed)
    case 0xCC => Some(ModType) case 0xCD => Some(ModRange) case 0xCE => Some(Portamento)
    case 0xCF => Some(PortamentoTime) case 0xD0 => Some(Attack) case 0xD1 => Some(Decay)
    case 0xD2 => Some(Sustain) case 0xD3 => Some(Release)
    case 0xD5 => Some(Expression)
    case 0xD7 => Some(Span) case 0xD8 => Some(Cutoff) case 0xD9 => Some(FxSendA)
    case 0xDA => Some(FxSendB) case 0xDB => Some(MainSend) case 0xDC => Some(InitPan)
    case 0xDD => Some(Mute) case 0xDE => Some(FxSendC) case 0xDF => Some(Damper)
    case _ => None
  }

  /** The byte-parameter opcodes the decoder dispatches on. */
  predicate IsU8ParamOpcode(c: int)
  {
    0xB0 <= c <= 0xB2 || 0xC0 <= c <= 0xD3 || c == 0xD5 || 0xD7 <= c <= 0xDF
  }

  /** `U16Parameters as u8`. */
  function U16ParamCode(p: U16Param): u8
  {
    match p
    case ModDelay => 0xE0 case Tempo => 0xE1 case Sweep => 0xE3 case TrackUsage => 0xFE
  }

  /** `U16Parameters::from_u8`. */
  function U16ParamFromCode(c: u8): Option<U16Param>
  {
    match c
    case 0xE0 => Some(ModDelay) case 0xE1 => Some(Tempo) case 0xE3 => Some(Sweep)
    case 0xFE => Some(TrackUsage)
    case _ => None
  }

  /** The short-parameter opcodes the decoder dispatches on. */
  predicate IsU16ParamOpcode(c: int)
  {
    c == 0xE0 || c == 0xE1 || c == 0xE3 || c == 0xFE
  }

  /** `UserOp as u8`. */
  function UserOpCode(op: UserOp): u8
  {
    match op
    case Set => 0x80 case Add => 0x81 case Sub => 0x82 case Mul => 0x83 case Div => 0x84
    case Shift => 0x85 case Rand => 0x86 case And => 0x87 case Or => 0x88 case Xor => 0x89
    case Not => 0x8A case Mod => 0x8B
    case CmpEq => 0x90 case CmpGe => 0x91 case CmpGt => 0x92 case CmpLe => 0x93
    case CmpLt => 0x94 case CmpNe => 0x96
    case User => 0xE0
  }

  /** `UserOp::from_u8`. */
  function UserOpFromCode(c: u8): Option<UserOp>
  {
    match c
    case 0x80 => Some(Set) case 0x81 => Some(Add) case 0x82 => Some(Sub)
    case 0x83 => Some(Mul) case 0x84 => Some(Div) case 0x85 => Some(Shift)
    case 0x86 => Some(Rand) case 0x87 => Some(And) case 0x88 => Some(Or)
    case 0x89 => Some(Xor) case 0x8A => Some(Not) case 0x8B => Some(Mod)
    case 0x90 => Some(CmpEq) case 0x91 => Some(CmpGe) case 0x92 => Some(CmpGt)
    case 0x93 => Some(CmpLe) case 0x94 => Some(CmpLt) case 0x96 => Some(CmpNe)
    case 0xE0 => Some(User)
    case _ => None
  }

  /** The byte-parameter discriminants are exactly the decoder's
      byte-parameter opcode set, so `from_u8(tag).unwrap()` cannot fail
      there, and the two conversions are inverse. */
  lemma U8ParamTable(c: u8, p: U8Param)
    ensures U8ParamFromCode(c).Some? <==> IsU8ParamOpcode(c)
    ensures U8ParamFromCode(c).Some? ==> U8ParamCode(U8ParamFromCode(c).value) == c
    ensures U8ParamFromCode(U8ParamCode(p)) == Some(p)
    ensures IsU8ParamOpcode(U8ParamCode(p))
  {
    U8ParamDecode(c);
    U8ParamEncode(p);
  }

  lemma U8ParamDecode(c: u8)
    ensures U8ParamFromCode(c).Some? <==> IsU8ParamOpcode(c)
    ensures U8ParamFromCode(c).Some? ==> U8ParamCode(U8ParamFromCode(c).value) == c
  {
    if c < 0xC0 {
      U8ParamDecodeLow(c);
    } else {
      U8ParamDecodeHigh(c);
    }
  }

  lemma U8ParamDecodeLow(c: u8)
    requires c < 0xC0
    ensures U8ParamFromCode(c).Some? <==> IsU8ParamOpcode(c)
    ensures U8ParamFromCode(c).Some? ==> U8ParamCode(U8ParamFromCode(c).value) == c
  {
  }

  lemma U8ParamDecodeHigh(c: u8)
    requires c >= 0xC0
    ensures U8ParamFromCode(c).Some? <==> IsU8ParamOpcode(c)
    ensures U8ParamFromCode(c).Some? ==> U8ParamCode(U8ParamFromCode(c).value) == c
  {
  }

  lemma U8ParamEncode(p: U8Param)
    ensures U8ParamFromCode(U8ParamCode(p)) == Some(p)
    ensures IsU8ParamOpcode(U8ParamCode(p))
  {
  }

  /** The same for the short parameters. */
  lemma U16ParamTable(c: u8, p: U16Param)
    ensures U16ParamFromCode(c).Some? <==> IsU16ParamOpcode(c)
    ensures U16ParamFromCode(c).Some? ==> U16ParamCode(U16ParamFromCode(c).value) == c
    ensures U16ParamFromCode(U16ParamCode(p)) == Some(p)
    ensures IsU16ParamOpcode(U16ParamCode(p))
  {
  }

  /** The user sub-operation codes are 0x80-0x8B, 0x90-0x94, 0x96 and 0xE0;
      in particular 0x95 is not one. */
  lemma UserOpTable(c: u8, op: UserOp)
    ensures UserOpFromCode(c).Some? <==> (0x80 <= c <= 0x8B || 0x90 <= c <= 0x94 || c == 0x96 || c == 0xE0)
    ensures UserOpFromCode(c).Some? ==> UserOpCode(UserOpFromCode(c).value) == c
    ensures UserOpFromCode(UserOpCode(op)) == Some(op)
    ensures UserOpFromCode(0x95) == None
  {
  }

  /** `get_tag`: the primary opcode byte of an instruction. A note's opcode
      is its pitch. */
  function Tag(i: Instruction): u8
  {
    match i
    case Note(note, _, _) => note
    case Rest(_) => 0x80
    case Instrument(_) => 0x81
    case Fork(_, _) => 0x88
    case Jump(_) => 0x89
    case Call(_) => 0x8A
    case If => 0xA2
    case LoopStart(_) => 0xD4
    case PrintVar(_) => 0xD6
    case UserProcess(_, _, _) => 0xF0
    case LoopEnd => 0xFC
    case Return => 0xFD
    case EndOfTrack => 0xFF
    case SetU8Param(param, _) => U8ParamCode(param)
    case SetU16Param(param, _) => U16ParamCode(param)
  }

  /** An instruction the decoder can produce: a note's pitch is its opcode
      (0x00-0x7F), and the `User` sub-operation carries no variable byte, for
      which the decoder puts 0xFF. */
  predicate WellFormed(i: Instruction)
  {
    match i
    case Note(note, _, _) => note <= 0x7F
    case UserProcess(op, variable, _) => op == User ==> variable == 0xFF
    case _ => true
  }

  /** The opcode families are disjoint: two well-formed instructions with the
      same tag come from the same family (same constructor, and for the
      parameter families the same parameter). */
  lemma TagDeterminesFamily(i: Instruction, j: Instruction)
    requires WellFormed(i) && WellFormed(j) && Tag(i) == Tag(j)
    ensures i.Note? <==> j.Note?
    ensures !i.Note? ==> (
      && (i.Rest? <==> j.Rest?) && (i.Instrument? <==> j.Instrument?)
      && (i.Fork? <==> j.Fork?) && (i.Jump? <==> j.Jump?) && (i.Call? <==> j.Call?)
      && (i.If? <==> j.If?) && (i.LoopStart? <==> j.LoopStart?) && (i.PrintVar? <==> j.PrintVar?)
      && (i.UserProcess? <==> j.UserProcess?) && (i.LoopEnd? <==> j.LoopEnd?)
      && (i.Return? <==> j.Return?) && (i.EndOfTrack? <==> j.EndOfTrack?)
      && (i.SetU8Param? <==> j.SetU8Param?) && (i.SetU16Param? <==> j.SetU16Param?))
    ensures i.SetU8Param? && j.SetU8Param? ==> i.param == j.param
    ensures i.SetU16Param? && j.SetU16Param? ==> i.sparam == j.sparam
  {
    U8ParamTable(Tag(i), if i.SetU8Param? then i.param else Timebase);
    U8ParamTable(Tag(j), if j.SetU8Param? then j.param else Timebase);
    U16ParamTable(Tag(i), if i.SetU16Param? then i.sparam else ModDelay);
    U16ParamTable(Tag(j), if j.SetU16Param? then j.sparam else ModDelay);
  }
}
