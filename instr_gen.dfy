/** The binary instruction encoder of `src/instructions/gen.rs`: the minimal
    base-128 varint, the token serializer `gen_optional_inst` that reserves a
    three-byte placeholder for every label destination, and the two-pass
    `gen_instructions` that records label offsets on the first pass and
    patches every placeholder on the second. */
module InstrGen {
  import opened Common
  import opened Gen
  import opened Parse
  import opened Instructions

  // ---------------------------------------------------------------------
  // Varint

  /** `64 - leading_zeros(v)`: the number of significant bits of `v`. */
  function SigBits(v: nat): nat
  {
    if v == 0 then 0 else 1 + SigBits(v / 2)
  }

  function Pow2(k: nat): (p: nat)
    ensures p >= 1
  {
    if k == 0 then 1 else 2 * Pow2(k - 1)
  }

  function Pow128(k: nat): (p: nat)
    ensures p >= 1
  {
    if k == 0 then 1 else 0x80 * Pow128(k - 1)
  }

  /** `(sig_bits + 6) / 7`, but at least one group. */
  function VarintLength(v: u64): nat
  {
    var groups := (SigBits(v) + 6) / 7;
    if groups == 0 then 1 else groups
  }

  /** `gen_varint`: seven-bit groups, most significant first, every group but
      the last with bit 0x80 set. */
  function EncodeVarint(v: u64): (r: Bytes)
    ensures |r| == VarintLength(v)
    ensures forall k :: 0 <= k < |r| ==> r[k] == Group(v, |r| - 1 - k)
  {
    var n := VarintLength(v);
    seq(n, k requires 0 <= k < n => Group(v, n - 1 - k))
  }

  /** `((v >> (idx * 7)) as u8) & 0x7F | if idx != 0 { 0x80 } else { 0 }`. */
  function Group(v: u64, idx: nat): u8
  {
    (v / Pow128(idx)) % 0x80 + if idx != 0 then 0x80 else 0
  }

  lemma SigBitsBound(v: nat, m: nat)
    ensures SigBits(v) <= m <==> v < Pow2(m)
  {
    if m > 0 && v > 0 {
      SigBitsBound(v / 2, m - 1);
    }
  }

  lemma Pow128Pow2(k: nat)
    ensures Pow128(k) == Pow2(7 * k)
  {
    if k > 0 {
      Pow128Pow2(k - 1);
      Pow2Add(7, 7 * (k - 1));
      assert Pow2(7) == 0x80;
    }
  }

  /** The encoding is the shortest one that holds `v`: `n` groups are enough,
      `n - 1` would not be, and a u64 never needs more than ten. */
  lemma {:induction false} VarintLengthMinimal(v: u64)
    ensures var n := VarintLength(v);
      1 <= n <= 10 && v < Pow128(n) && (n > 1 ==> Pow128(n - 1) <= v)
  {
    var n := VarintLength(v);
    var s := SigBits(v);
    SigBitsBound(v, 64);
    assert Pow2(64) == 0x1_0000_0000_0000_0000 by { Pow128Pow2(0); PowOf2At64(); }
    assert s <= 7 * n;
    SigBitsBound(v, 7 * n);
    Pow128Pow2(n);
    if n > 1 {
      assert s > 7 * (n - 1);
      SigBitsBound(v, 7 * (n - 1));
      Pow128Pow2(n - 1);
    }
  }

  lemma PowOf2At64()
    ensures Pow2(64) == 0x1_0000_0000_0000_0000
  {
    assert Pow2(8) == 0x100;
    assert Pow2(16) == Pow2(8) * Pow2(8) by { Pow2Add(8, 8); }
    assert Pow2(32) == Pow2(16) * Pow2(16) by { Pow2Add(16, 16); }
    assert Pow2(64) == Pow2(32) * Pow2(32) by { Pow2Add(32, 32); }
  }

  lemma Pow2Add(a: nat, b: nat)
    ensures Pow2(a + b) == Pow2(a) * Pow2(b)
  {
    if a > 0 {
      Pow2Add(a - 1, b);
    }
  }

  lemma FourGroups(v: u64)
    requires 0x20_0000 <= v < 0x1000_0000
    ensures VarintLength(v) == 4
  {
    Pow128Pow2(4);
    Pow128Pow2(3);
    assert Pow128(3) == 0x20_0000 && Pow128(4) == 0x1000_0000;
    SigBitsBound(v, 28);
    SigBitsBound(v, 21);
  }

  // The encoder's test vectors.

  /** A group of `v` whose quotient by its power of 128 is known. */
  lemma GroupOf(v: u64, idx: nat, p: nat, q: nat)
    requires Pow128(idx) == p && v / p == q
    ensures Group(v, idx) == q % 0x80 + if idx != 0 then 0x80 else 0
  {
  }

  lemma VarintEncodeMax28()
    ensures EncodeVarint(0x0FFF_FFFF) == [0xFF, 0xFF, 0xFF, 0x7F]
  {
    var v := 0x0FFF_FFFF;
    FourGroups(v);
    assert Pow128(3) == 0x20_0000 && Pow128(2) == 0x4000 && Pow128(1) == 0x80;
    GroupOf(v, 3, 0x20_0000, 0x7F);
    GroupOf(v, 2, 0x4000, 0x3FFF);
    GroupOf(v, 1, 0x80, 0x1F_FFFF);
    GroupOf(v, 0, 1, v);
  }

  lemma VarintEncodeSpread()
    ensures EncodeVarint(0x0800_0090) == [0xC0, 0x80, 0x81, 0x10]
  {
    var v := 0x0800_0090;
    FourGroups(v);
    assert Pow128(3) == 0x20_0000 && Pow128(2) == 0x4000 && Pow128(1) == 0x80;
    GroupOf(v, 3, 0x20_0000, 0x40);
    GroupOf(v, 2, 0x4000, 0x2000);
    GroupOf(v, 1, 0x80, 0x10_0001);
    GroupOf(v, 0, 1, v);
  }

  lemma VarintEncodeZero()
    ensures EncodeVarint(0) == [0x00]
  {
    assert VarintLength(0) == 1;
    assert Group(0, 0) == 0;
  }

  // ---------------------------------------------------------------------
  // Tokens

  /** `gen_userop`: sub-operation code, the variable byte unless the
      sub-operation is `User`, and the immediate as 16 bits. */
  function GenUserOp(op: UserOp, variable: u8, imm: i16, e: Endianness): Bytes
  {
    [UserOpCode(op)] + (if op != User then [variable] else []) + GU16(AsU16(imm), e)
  }

  /** `gen_destination`: a raw address is written at once; a label leaves
      three bytes that hold `fill` once the placeholder is patched, zeros
      before. */
  function DestBytes(d: Destination, e: Endianness, fill: Option<u32>): (r: Bytes)
    ensures |r| == 3
  {
    match d
    case DestAddress(a) => GU24(a, e)
    case DestLabel(_) => if fill.Some? then GU24(fill.value, e) else Zeros(3)
  }

  /** The destination of a branching instruction. */
  function DestOf(i: Instruction): Option<Destination>
  {
    match i
    case Fork(_, d) => Some(d)
    case Jump(d) => Some(d)
    case Call(d) => Some(d)
    case _ => None
  }

  /** Where the destination's three bytes start within the instruction. */
  function SlotOffset(i: Instruction): nat
  {
    if i.Fork? then 2 else 1
  }

  /** The bytes after an instruction's tag, in the order the decoder reads
      them. */
  function Payload(i: Instruction, e: Endianness, fill: Option<u32>): (r: Bytes)
    ensures |r| == PayloadLen(i)
  {
    match i
    case Note(_, velocity, len) => [velocity] + EncodeVarint(len)
    case Rest(len) => EncodeVarint(len)
    case Instrument(program) => EncodeVarint(program)
    case Fork(track, dest) => [track] + DestBytes(dest, e, fill)
    case Jump(dest) => DestBytes(dest, e, fill)
    case Call(dest) => DestBytes(dest, e, fill)
    case LoopStart(b) => [b]
    case PrintVar(b) => [b]
    case UserProcess(op, variable, imm) => GenUserOp(op, variable, imm, e)
    case SetU8Param(_, value) => [value]
    case SetU16Param(_, value) => GU16(value, e)
    case _ => []
  }

  /** The length of an instruction's payload. */
  function PayloadLen(i: Instruction): nat
  {
    match i
    case Note(_, _, len) => 1 + VarintLength(len)
    case Rest(len) => VarintLength(len)
    case Instrument(program) => VarintLength(program)
    case Fork(_, _) => 4
    case Jump(_) => 3
    case Call(_) => 3
    case LoopStart(_) => 1
    case PrintVar(_) => 1
    case UserProcess(op, _, _) => if op != User then 4 else 3
    case SetU8Param(_, _) => 1
    case SetU16Param(_, _) => 2
    case _ => 0
  }

  /** The bytes of one instruction: its tag, then its payload. */
  function InstBytes(i: Instruction, e: Endianness, fill: Option<u32>): Bytes
  {
    [Tag(i)] + Payload(i, e, fill)
  }

  /** The bytes `gen_optional_inst` writes: nothing for a label. */
  function TokenBytes(t: OptionalInst, e: Endianness, fill: Option<u32>): (r: Bytes)
    ensures |r| == TokLen(t)
  {
    match t
    case Label(_) => []
    case Byte(b) => [b]
    case Inst(i) => InstBytes(i, e, fill)
  }

  /** The length of a token's encoding. */
  function TokLen(t: OptionalInst): nat
  {
    match t
    case Label(_) => 0
    case Byte(_) => 1
    case Inst(i) => 1 + PayloadLen(i)
  }

  /** A branch's destination bytes sit at its slot offset, and the fill
      changes nothing before them. */
  lemma TokenShape(t: OptionalInst, e: Endianness, fill: Option<u32>)
    ensures t.Inst? && DestOf(t.i).Some? ==>
      && SlotOffset(t.i) + 3 == TokLen(t)
      && TokenBytes(t, e, fill)[SlotOffset(t.i)..] == DestBytes(DestOf(t.i).value, e, fill)
      && TokenBytes(t, e, fill)[..SlotOffset(t.i)] == TokenBytes(t, e, None)[..SlotOffset(t.i)]
  {
  }

  /** The name a token refers to, if its destination is a label. */
  function RefName(t: OptionalInst): Option<Name>
  {
    if t.Inst? && DestOf(t.i).Some? && DestOf(t.i).value.DestLabel? then Some(DestOf(t.i).value.name) else None
  }

  // ---------------------------------------------------------------------
  // Streams

  // Every function below describes the first `k` tokens of `ts`.

  /** The length of the encoding of the first `k` tokens. */
  function Len(ts: seq<OptionalInst>, k: nat): nat
    requires k <= |ts|
  {
    if k == 0 then 0 else Len(ts, k - 1) + TokLen(ts[k - 1])
  }

  /** How the placeholder of a token at position `at` is filled: from the
      label table once position `at`'s slot has been patched. */
  function FillAt(t: OptionalInst, table: map<Name, u32>, filled: set<nat>, at: nat): Option<u32>
  {
    match RefName(t)
    case Some(n) => if at + SlotOffset(t.i) in filled && n in table then Some(table[n]) else None
    case None => None
  }

  /** The bytes of the first `k` tokens written from position `base`, with
      the slots at the positions in `filled` patched from `table`. */
  function Emit(ts: seq<OptionalInst>, e: Endianness, table: map<Name, u32>, filled: set<nat>, base: nat, k: nat)
    : (r: Bytes)
    requires k <= |ts|
    ensures |r| == Len(ts, k)
  {
    if k == 0 then []
    else Emit(ts, e, table, filled, base, k - 1) + TokenBytes(ts[k - 1], e, FillAt(ts[k - 1], table, filled, base + Len(ts, k - 1)))
  }

  /** The fill of a token once every placeholder is patched. */
  function Resolve(t: OptionalInst, table: map<Name, u32>): Option<u32>
  {
    if RefName(t).Some? && RefName(t).value in table then Some(table[RefName(t).value]) else None
  }

  /** The output of `gen_instructions` once every placeholder is patched: each
      label destination holds its label's address. */
  function Assemble(ts: seq<OptionalInst>, e: Endianness, table: map<Name, u32>, k: nat): (r: Bytes)
    requires k <= |ts|
    ensures |r| == Len(ts, k)
  {
    if k == 0 then [] else Assemble(ts, e, table, k - 1) + TokenBytes(ts[k - 1], e, Resolve(ts[k - 1], table))
  }

  /** The placeholders for label `n` that the first `k` tokens reserve from
      position `base`, in order. */
  function Slots(ts: seq<OptionalInst>, n: Name, base: nat, k: nat): seq<Placeholder>
    requires k <= |ts|
  {
    if k == 0 then []
    else
      Slots(ts, n, base, k - 1)
        + if RefName(ts[k - 1]) == Some(n) then [Placeholder(base + Len(ts, k - 1) + SlotOffset(ts[k - 1].i))] else []
  }

  /** The position of the last definition of each label. */
  function Defs(ts: seq<OptionalInst>, base: nat, k: nat): map<Name, nat>
    requires k <= |ts|
  {
    if k == 0 then map[]
    else if ts[k - 1].Label? then Defs(ts, base, k - 1)[ts[k - 1].name := base + Len(ts, k - 1)]
    else Defs(ts, base, k - 1)
  }

  /** Every name defined or referenced among the first `k` tokens. */
  function Named(ts: seq<OptionalInst>, k: nat): set<Name>
    requires k <= |ts|
  {
    if k == 0 then {}
    else
      var t := ts[k - 1];
      Named(ts, k - 1) + (if t.Label? then {t.name} else {}) + (if RefName(t).Some? then {RefName(t).value} else {})
  }

  /** The label table `gen_instructions` builds: each defined name with the
      offset of its last definition from `base`, as a u32. */
  function Table(ts: seq<OptionalInst>, base: nat, k: nat): map<Name, u32>
    requires k <= |ts|
  {
    var defs := Defs(ts, base, k);
    DefsBounds(ts, base, k);
    map n | n in defs :: U32(defs[n] - base)
  }

  lemma DefsBounds(ts: seq<OptionalInst>, base: nat, k: nat)
    requires k <= |ts|
    ensures forall n :: n in Defs(ts, base, k) ==> base <= Defs(ts, base, k)[n] <= base + Len(ts, k)
    ensures Defs(ts, base, k).Keys <= Named(ts, k)
  {
    if k > 0 {
      DefsBounds(ts, base, k - 1);
    }
  }

  /** The table holds exactly the defined names. */
  lemma TableKeys(ts: seq<OptionalInst>, base: nat, k: nat)
    requires k <= |ts|
    ensures Table(ts, base, k).Keys == Defs(ts, base, k).Keys <= Named(ts, k)
  {
    DefsBounds(ts, base, k);
  }

  /** The label table of a whole stream. */
  function Labels(ts: seq<OptionalInst>): map<Name, u32>
  {
    Table(ts, 0, |ts|)
  }

  /** The encoding of a whole stream with every placeholder patched. */
  function Encode(ts: seq<OptionalInst>, e: Endianness): Bytes
  {
    Assemble(ts, e, Labels(ts), |ts|)
  }

  /** Every label reference has a definition. */
  predicate Resolved(ts: seq<OptionalInst>)
  {
    forall n :: n in Named(ts, |ts|) ==> n in Labels(ts)
  }

  lemma DefsShift(ts: seq<OptionalInst>, base: nat, k: nat)
    requires k <= |ts|
    ensures Defs(ts, base, k).Keys == Defs(ts, 0, k).Keys
    ensures forall n :: n in Defs(ts, 0, k) ==> Defs(ts, base, k)[n] == base + Defs(ts, 0, k)[n]
  {
    if k > 0 {
      DefsShift(ts, base, k - 1);
    }
  }

  /** The label table does not depend on where the stream starts. */
  lemma TableShift(ts: seq<OptionalInst>, base: nat, k: nat)
    requires k <= |ts|
    ensures Table(ts, base, k) == Table(ts, 0, k)
  {
    DefsShift(ts, base, k);
  }

  // ---------------------------------------------------------------------
  // Patching

  /** A reserved slot lies inside the encoding, after its opcode byte, and
      belongs to a mentioned name. */
  lemma {:induction false} SlotBound(ts: seq<OptionalInst>, n: Name, base: nat, k: nat, p: Placeholder)
    requires k <= |ts| && p in Slots(ts, n, base, k)
    ensures base < p.pos && p.pos + 3 <= base + Len(ts, k)
    ensures n in Named(ts, k)
  {
    var j := k - 1;
    SlotsNext(ts, n, base, j);
    if p in Slots(ts, n, base, j) {
      SlotBound(ts, n, base, j, p);
    } else {
      TokenShape(ts[j], Big, None);
    }
  }

  /** Patching a slot position at or past the end of the first `k` tokens
      changes nothing. */
  lemma EmitIgnores(ts: seq<OptionalInst>, e: Endianness, table: map<Name, u32>, filled: set<nat>, base: nat, k: nat, q: nat)
    requires k <= |ts| && q >= base + Len(ts, k)
    ensures Emit(ts, e, table, filled + {q}, base, k) == Emit(ts, e, table, filled, base, k)
  {
    if k > 0 {
      TokenShape(ts[k - 1], e, None);
      EmitIgnores(ts, e, table, filled, base, k - 1, q);
    }
  }

  /** Writing an address into a branch's slot gives the branch filled with it. */
  lemma TokenFill(t: OptionalInst, e: Endianness, fill: Option<u32>, a: u32)
    requires RefName(t).Some?
    ensures Overwrite(TokenBytes(t, e, fill), SlotOffset(t.i), GU24(a, e)) == TokenBytes(t, e, Some(a))
  {
    TokenShape(t, e, fill);
    TokenShape(t, e, Some(a));
    var l, r := Overwrite(TokenBytes(t, e, fill), SlotOffset(t.i), GU24(a, e)), TokenBytes(t, e, Some(a));
    OverwriteElements(TokenBytes(t, e, fill), SlotOffset(t.i), GU24(a, e));
    assert |l| == |r|;
    forall j | 0 <= j < |l| ensures l[j] == r[j] {
      if j < SlotOffset(t.i) {
        assert r[j] == r[..SlotOffset(t.i)][j];
        assert TokenBytes(t, e, fill)[j] == TokenBytes(t, e, fill)[..SlotOffset(t.i)][j];
      } else {
        assert r[j] == r[SlotOffset(t.i)..][j - SlotOffset(t.i)];
      }
    }
  }

  /** The stream after a prefix, split before its last token. */
  lemma EmitSplit(prefix: Bytes, ts: seq<OptionalInst>, e: Endianness, table: map<Name, u32>, filled: set<nat>, k: nat)
    requires 0 < k <= |ts|
    ensures prefix + Emit(ts, e, table, filled, |prefix|, k)
         == (prefix + Emit(ts, e, table, filled, |prefix|, k - 1))
            + TokenBytes(ts[k - 1], e, FillAt(ts[k - 1], table, filled, |prefix| + Len(ts, k - 1)))
  {
    var a := Emit(ts, e, table, filled, |prefix|, k - 1);
    var b := TokenBytes(ts[k - 1], e, FillAt(ts[k - 1], table, filled, |prefix| + Len(ts, k - 1)));
    assert Emit(ts, e, table, filled, |prefix|, k) == a + b;
    Assoc(prefix, a, b);
  }

  lemma Assoc<T>(a: seq<T>, b: seq<T>, c: seq<T>)
    ensures a + (b + c) == (a + b) + c
  {
  }

  /** `Placeholder::gen(gu24(addr))` on one reserved slot of label `n`: the
      stream becomes the one with that slot patched. */
  lemma {:induction false} EmitFill(ts: seq<OptionalInst>, e: Endianness, table: map<Name, u32>, filled: set<nat>,
                                    prefix: Bytes, k: nat, p: Placeholder, n: Name)
    requires k <= |ts| && p in Slots(ts, n, |prefix|, k) && n in table
    ensures Overwrite(prefix + Emit(ts, e, table, filled, |prefix|, k), p.pos, GU24(table[n], e))
         == prefix + Emit(ts, e, table, filled + {p.pos}, |prefix|, k)
    decreases k, 1
  {
    if p in Slots(ts, n, |prefix|, k - 1) {
      EmitFillEarlier(ts, e, table, filled, prefix, k, p, n);
    } else {
      assert RefName(ts[k - 1]) == Some(n) && p.pos == |prefix| + Len(ts, k - 1) + SlotOffset(ts[k - 1].i) by {
        SlotsNext(ts, n, |prefix|, k - 1);
      }
      EmitFillLast(ts, e, table, filled, prefix, k, p, n);
    }
  }

  /** A slot of an earlier token: the last token is untouched. */
  lemma {:induction false} EmitFillEarlier(ts: seq<OptionalInst>, e: Endianness, table: map<Name, u32>, filled: set<nat>,
                                           prefix: Bytes, k: nat, p: Placeholder, n: Name)
    requires 0 < k <= |ts| && p in Slots(ts, n, |prefix|, k - 1) && n in table
    ensures Overwrite(prefix + Emit(ts, e, table, filled, |prefix|, k), p.pos, GU24(table[n], e))
         == prefix + Emit(ts, e, table, filled + {p.pos}, |prefix|, k)
    decreases k, 0
  {
    var t := ts[k - 1];
    var before := FillAt(t, table, filled, |prefix| + Len(ts, k - 1));
    var x := prefix + Emit(ts, e, table, filled, |prefix|, k - 1);
    var g := GU24(table[n], e);
    EmitSplit(prefix, ts, e, table, filled, k);
    SlotBound(ts, n, |prefix|, k - 1, p);
    OverwriteLeft(x, TokenBytes(t, e, before), p.pos, g);
    EmitFill(ts, e, table, filled, prefix, k - 1, p, n);
    EmitSplitBefore(prefix, ts, e, table, filled, k, p.pos);
  }

  /** The stream split before its last token, with a position before that
      token patched. */
  lemma EmitSplitBefore(prefix: Bytes, ts: seq<OptionalInst>, e: Endianness, table: map<Name, u32>, filled: set<nat>,
                        k: nat, q: nat)
    requires 0 < k <= |ts| && q < |prefix| + Len(ts, k - 1)
    ensures prefix + Emit(ts, e, table, filled + {q}, |prefix|, k)
         == (prefix + Emit(ts, e, table, filled + {q}, |prefix|, k - 1))
            + TokenBytes(ts[k - 1], e, FillAt(ts[k - 1], table, filled, |prefix| + Len(ts, k - 1)))
  {
    FillAtIgnores(ts[k - 1], table, filled, |prefix| + Len(ts, k - 1), q);
    EmitSplit(prefix, ts, e, table, filled + {q}, k);
  }

  /** The slot of the last token: its placeholder is the one patched. */
  lemma EmitFillLast(ts: seq<OptionalInst>, e: Endianness, table: map<Name, u32>, filled: set<nat>,
                     prefix: Bytes, k: nat, p: Placeholder, n: Name)
    requires 0 < k <= |ts| && RefName(ts[k - 1]) == Some(n) && n in table
    requires p.pos == |prefix| + Len(ts, k - 1) + SlotOffset(ts[k - 1].i)
    ensures Overwrite(prefix + Emit(ts, e, table, filled, |prefix|, k), p.pos, GU24(table[n], e))
         == prefix + Emit(ts, e, table, filled + {p.pos}, |prefix|, k)
  {
    var t := ts[k - 1];
    var before := FillAt(t, table, filled, |prefix| + Len(ts, k - 1));
    var x := prefix + Emit(ts, e, table, filled, |prefix|, k - 1);
    var y := TokenBytes(t, e, before);
    var g := GU24(table[n], e);
    var z := x + TokenBytes(t, e, Some(table[n]));
    assert prefix + Emit(ts, e, table, filled, |prefix|, k) == x + y by {
      EmitSplit(prefix, ts, e, table, filled, k);
    }
    assert Overwrite(x + y, p.pos, g) == z by {
      assert p.pos - |x| == SlotOffset(t.i);
      OverwriteRight(x, y, p.pos, g);
      TokenFill(t, e, before, table[n]);
    }
    assert prefix + Emit(ts, e, table, filled + {p.pos}, |prefix|, k) == z by {
      EmitFillLastAfter(ts, e, table, filled, prefix, k, p.pos, n);
    }
  }

  /** The stream with the last token's slot patched. */
  lemma EmitFillLastAfter(ts: seq<OptionalInst>, e: Endianness, table: map<Name, u32>, filled: set<nat>,
                          prefix: Bytes, k: nat, q: nat, n: Name)
    requires 0 < k <= |ts| && RefName(ts[k - 1]) == Some(n) && n in table
    requires q == |prefix| + Len(ts, k - 1) + SlotOffset(ts[k - 1].i)
    ensures prefix + Emit(ts, e, table, filled + {q}, |prefix|, k)
         == prefix + Emit(ts, e, table, filled, |prefix|, k - 1) + TokenBytes(ts[k - 1], e, Some(table[n]))
  {
    assert FillAt(ts[k - 1], table, filled + {q}, |prefix| + Len(ts, k - 1)) == Some(table[n]);
    EmitIgnores(ts, e, table, filled, |prefix|, k - 1, q);
    EmitSplit(prefix, ts, e, table, filled + {q}, k);
  }

  /** Predicate: the slot of every label reference among the first `k`
      tokens is in `filled`. */
  predicate AllFilled(ts: seq<OptionalInst>, base: nat, k: nat, filled: set<nat>)
    requires k <= |ts|
  {
    k == 0 || (AllFilled(ts, base, k - 1, filled)
      && (RefName(ts[k - 1]).Some? ==> base + Len(ts, k - 1) + SlotOffset(ts[k - 1].i) in filled))
  }

  /** Patching every name's placeholders patches every slot. */
  lemma {:induction false} AllFilledFromSlots(ts: seq<OptionalInst>, base: nat, k: nat, filled: set<nat>)
    requires k <= |ts|
    requires forall n, p :: n in Named(ts, k) && p in Slots(ts, n, base, k) ==> p.pos in filled
    ensures AllFilled(ts, base, k, filled)
  {
    if k > 0 {
      var j := k - 1;
      forall n, p | p in Slots(ts, n, base, j) ensures p.pos in filled {
        SlotBound(ts, n, base, j, p);
        SlotsNext(ts, n, base, j);
      }
      AllFilledFromSlots(ts, base, j, filled);
      var t := ts[j];
      if RefName(t).Some? {
        assert Placeholder(base + Len(ts, j) + SlotOffset(t.i)) in Slots(ts, RefName(t).value, base, k);
      }
    }
  }

  /** Once every reserved slot has been patched the stream is `Assemble`. */
  lemma {:induction false} EmitComplete(ts: seq<OptionalInst>, e: Endianness, table: map<Name, u32>, filled: set<nat>,
                                        base: nat, k: nat)
    requires k <= |ts| && AllFilled(ts, base, k, filled)
    ensures Emit(ts, e, table, filled, base, k) == Assemble(ts, e, table, k)
  {
    if k > 0 {
      var t, at := ts[k - 1], base + Len(ts, k - 1);
      EmitComplete(ts, e, table, filled, base, k - 1);
      assert RefName(t).Some? ==> at + SlotOffset(t.i) in filled;
      FillAtResolved(t, table, filled, at);
      assert Emit(ts, e, table, filled, base, k) == Emit(ts, e, table, filled, base, k - 1) + TokenBytes(t, e, FillAt(t, table, filled, at));
    }
  }

  /** Patching a position before a token leaves its fill alone. */
  lemma FillAtIgnores(t: OptionalInst, table: map<Name, u32>, filled: set<nat>, at: nat, q: nat)
    requires q < at
    ensures FillAt(t, table, filled + {q}, at) == FillAt(t, table, filled, at)
  {
  }

  /** A token whose slot is patched carries its resolved address. */
  lemma FillAtResolved(t: OptionalInst, table: map<Name, u32>, filled: set<nat>, at: nat)
    requires RefName(t).Some? ==> at + SlotOffset(t.i) in filled
    ensures FillAt(t, table, filled, at) == Resolve(t, table)
  {
  }

  // ---------------------------------------------------------------------
  // The serializer

  /** What `gen_optional_inst` reports besides the bytes: a label's position,
      or the placeholder reserved for a label destination. */
  datatype LabelInfo = LabelDef(pos: nat, name: Name) | LabelRef(place: Placeholder, name: Name)

  /** The report for token `t` written at position `at`. */
  function InfoOf(t: OptionalInst, at: nat): Option<LabelInfo>
  {
    if t.Label? then Some(LabelDef(at, t.name))
    else if RefName(t).Some? then Some(LabelRef(Placeholder(at + SlotOffset(t.i)), RefName(t).value))
    else None
  }

  /** Appends `bs` at the end of the stream. */
  method Append(w: Writer, bs: Bytes)
    requires w.Valid() && w.pos == |w.buf|
    modifies w
    ensures w.Valid() && w.pos == |w.buf| && w.buf == old(w.buf) + bs
  {
    OverwriteAtEnd(w.buf, bs);
    w.Put(bs);
  }

  /** `gen_varint`: one byte per group, the most significant group first. */
  method GenVarint(w: Writer, v: u64)
    requires w.Valid() && w.pos == |w.buf|
    modifies w
    ensures w.Valid() && w.pos == |w.buf| && w.buf == old(w.buf) + EncodeVarint(v)
  {
    var bytes := (SigBits(v) + 6) / 7;
    if bytes == 0 {
      bytes := 1;
    }
    ghost var enc := EncodeVarint(v);
    var idx := bytes;
    while idx > 0
      invariant 0 <= idx <= bytes == |enc|
      invariant w.Valid() && w.pos == |w.buf| && w.buf == old(w.buf) + enc[..bytes - idx]
    {
      idx := idx - 1;
      Append(w, [(v / Pow128(idx)) % 0x80 + if idx != 0 then 0x80 else 0]);
      assert enc[..bytes - idx] == enc[..bytes - idx - 1] + [enc[bytes - 1 - idx]];
    }
    assert enc[..bytes] == enc;
  }

  /** `gen_destination`: a raw address is written; a label reserves three
      bytes and reports the placeholder. */
  method GenDestination(w: Writer, d: Destination, e: Endianness) returns (info: Option<LabelInfo>)
    requires w.Valid() && w.pos == |w.buf|
    modifies w
    ensures w.Valid() && w.pos == |w.buf| && w.buf == old(w.buf) + DestBytes(d, e, None)
    ensures info == if d.DestLabel? then Some(LabelRef(Placeholder(old(w.pos)), d.name)) else None
  {
    match d
    case DestLabel(name) =>
      var place := w.Reserve(3);
      info := Some(LabelRef(place, name));
    case DestAddress(a) =>
      Append(w, GU24(a, e));
      info := None;
  }

  /** The payload half of `gen_optional_inst` for an instruction. */
  method GenPayload(w: Writer, i: Instruction, e: Endianness) returns (info: Option<LabelInfo>)
    requires w.Valid() && w.pos == |w.buf|
    modifies w
    ensures w.Valid() && w.pos == |w.buf| && w.buf == old(w.buf) + Payload(i, e, None)
    ensures info == if DestOf(i).Some? && DestOf(i).value.DestLabel?
      then Some(LabelRef(Placeholder(old(w.pos) + SlotOffset(i) - 1), DestOf(i).value.name)) else None
  {
    info := None;
    match i {
      case Note(_, velocity, len) =>
        Append(w, [velocity]);
        GenVarint(w, len);
        assert w.buf == old(w.buf) + ([velocity] + EncodeVarint(len));
      case Rest(len) => GenVarint(w, len);
      case Instrument(program) => GenVarint(w, program);
      case Fork(track, dest) =>
        Append(w, [track]);
        info := GenDestination(w, dest, e);
        assert w.buf == old(w.buf) + ([track] + DestBytes(dest, e, None));
      case Jump(dest) => info := GenDestination(w, dest, e);
      case Call(dest) => info := GenDestination(w, dest, e);
      case LoopStart(b) => Append(w, [b]);
      case PrintVar(b) => Append(w, [b]);
      case UserProcess(op, variable, imm) => Append(w, GenUserOp(op, variable, imm, e));
      case If =>
      case LoopEnd =>
      case Return =>
      case EndOfTrack =>
      case SetU8Param(_, value) => Append(w, [value]);
      case SetU16Param(_, value) => Append(w, GU16(value, e));
    }
  }

  /** `gen_optional_inst`: the token's bytes at the end of the stream, and
      its label report. */
  method GenOptionalInst(w: Writer, t: OptionalInst, e: Endianness) returns (info: Option<LabelInfo>)
    requires w.Valid() && w.pos == |w.buf|
    modifies w
    ensures w.Valid() && w.pos == |w.buf| && w.buf == old(w.buf) + TokenBytes(t, e, None)
    ensures info == InfoOf(t, old(w.pos))
  {
    match t
    case Label(name) =>
      info := Some(LabelDef(w.pos, name));
    case Byte(b) =>
      Append(w, [b]);
      info := None;
    case Inst(i) =>
      Append(w, [Tag(i)]);
      info := GenPayload(w, i, e);
      assert w.buf == old(w.buf) + ([Tag(i)] + Payload(i, e, None));
  }

  /** Looks a name up in a label table. */
  function Lookup(table: map<Name, u32>, n: Name): Option<u32>
  {
    if n in table then Some(table[n]) else None
  }

  /** What the first pass of `gen_instructions` knows about each name: where
      it was last defined (relative to the start, as a u32) and the
      placeholders reserved for it, in order. */
  type LabelMap = map<Name, (Option<u32>, seq<Placeholder>)>

  /** The offset of the last definition of `n` among the first `k` tokens. */
  function LastDef(ts: seq<OptionalInst>, k: nat, n: Name): Option<u32>
    requires k <= |ts|
  {
    if k == 0 then None
    else if ts[k - 1] == Label(n) then Some(U32(Len(ts, k - 1)))
    else LastDef(ts, k - 1, n)
  }

  /** `LastDef` is a lookup in the label table. */
  lemma {:induction false} LastDefTable(ts: seq<OptionalInst>, k: nat, n: Name)
    requires k <= |ts|
    ensures LastDef(ts, k, n) == Lookup(Table(ts, 0, k), n)
  {
    if k > 0 {
      LastDefTable(ts, k - 1, n);
    }
  }

  /** The `labels.entry(name).or_insert_with(..)` update for one report:
      a definition sets the name's address (relative to `start`), a
      reference appends its placeholder. */
  function Record(labels: LabelMap, info: Option<LabelInfo>, start: nat): LabelMap
  {
    match info
    case None => labels
    case Some(LabelDef(pos, name)) =>
      var entry := if name in labels then labels[name] else (None, []);
      labels[name := (Some(U32(if pos >= start then pos - start else 0)), entry.1)]
    case Some(LabelRef(place, name)) =>
      var entry := if name in labels then labels[name] else (None, []);
      labels[name := (entry.0, entry.1 + [place])]
  }

  /** The map the first pass has built after the first `k` tokens. */
  function Recording(ts: seq<OptionalInst>, start: nat, k: nat): LabelMap
    requires k <= |ts|
  {
    if k == 0 then map[] else Record(Recording(ts, start, k - 1), InfoOf(ts[k - 1], start + Len(ts, k - 1)), start)
  }

  /** The first pass records exactly the names the tokens mention. */
  lemma {:induction false} RecordingKeys(ts: seq<OptionalInst>, start: nat, k: nat)
    requires k <= |ts|
    ensures Recording(ts, start, k).Keys == Named(ts, k)
  {
    if k > 0 {
      RecordingKeys(ts, start, k - 1);
    }
  }

  /** For each name, the first pass records the offset of its last
      definition and its placeholders in stream order. */
  lemma {:induction false} RecordingEntry(ts: seq<OptionalInst>, start: nat, k: nat, n: Name)
    requires k <= |ts|
    ensures n in Recording(ts, start, k) ==> Recording(ts, start, k)[n] == (LastDef(ts, k, n), Slots(ts, n, start, k))
    ensures n !in Recording(ts, start, k) ==> LastDef(ts, k, n) == None && Slots(ts, n, start, k) == []
  {
    if k > 0 {
      var t, prev := ts[k - 1], Recording(ts, start, k - 1);
      var at := start + Len(ts, k - 1);
      assert Recording(ts, start, k) == Record(prev, InfoOf(t, at), start);
      RecordingEntry(ts, start, k - 1, n);
      SlotsNext(ts, n, start, k - 1);
      RecordStep(prev, t, at, start, n);
      if t == Label(n) {
        assert Slots(ts, n, start, k) == Slots(ts, n, start, k - 1);
      } else if RefName(t) != Some(n) {
        assert Slots(ts, n, start, k) == Slots(ts, n, start, k - 1);
      }
    }
  }

  /** The entry of `n` after recording token `t` written at `at`. */
  lemma RecordStep(prev: LabelMap, t: OptionalInst, at: nat, start: nat, n: Name)
    requires at >= start
    ensures var m, entry := Record(prev, InfoOf(t, at), start), if n in prev then prev[n] else (None, []);
      && (t == Label(n) ==> n in m && m[n] == (Some(U32(at - start)), entry.1))
      && (RefName(t) == Some(n) ==> n in m && m[n] == (entry.0, entry.1 + [Placeholder(at + SlotOffset(t.i))]))
      && (t != Label(n) && RefName(t) != Some(n) ==> (n in m <==> n in prev) && (n in prev ==> m[n] == prev[n]))
  {
  }

  /** One more token adds its placeholder for `n`, if it has one. */
  lemma SlotsNext(ts: seq<OptionalInst>, n: Name, base: nat, k: nat)
    requires k < |ts|
    ensures Slots(ts, n, base, k + 1) == Slots(ts, n, base, k)
      + if RefName(ts[k]) == Some(n) then [Placeholder(base + Len(ts, k) + SlotOffset(ts[k].i))] else []
  {
  }

  /** A name with a definition is mentioned. */
  lemma LastDefNamed(ts: seq<OptionalInst>, k: nat, n: Name)
    requires k <= |ts|
    ensures LastDef(ts, k, n).Some? ==> n in Named(ts, k)
  {
    if k > 0 {
      LastDefNamed(ts, k - 1, n);
    }
  }

  /** Writing token `k` after the first `k` extends the unpatched stream. */
  /** One more token of the first pass: its bytes, unpatched, and its report. */
  lemma EmitNext(prefix: Bytes, ts: seq<OptionalInst>, e: Endianness, base: nat, k: nat)
    requires k < |ts|
    ensures prefix + Emit(ts, e, map[], {}, base, k + 1) == prefix + Emit(ts, e, map[], {}, base, k) + TokenBytes(ts[k], e, None)
    ensures Recording(ts, base, k + 1) == Record(Recording(ts, base, k), InfoOf(ts[k], base + Len(ts, k)), base)
  {
    assert FillAt(ts[k], map[], {}, base + Len(ts, k)) == None;
  }

  /** The writer holds `prefix` followed by the bytes of the first `k`
      tokens, written from the end of `prefix` with the slots in `filled`
      patched from `table`, and stands at its end. */
  ghost predicate Holds(w: Writer, prefix: Bytes, ts: seq<OptionalInst>, e: Endianness, table: map<Name, u32>,
                        filled: set<nat>, k: nat)
    reads w
    requires k <= |ts|
  {
    w.Valid() && w.pos == |w.buf| && w.buf == prefix + Emit(ts, e, table, filled, |prefix|, k)
  }

  /** The first pass of `gen_instructions`: write every token, and record
      label positions and placeholders. */
  method WriteTokens(w: Writer, ts: seq<OptionalInst>, e: Endianness) returns (labels: LabelMap)
    requires w.Valid() && w.pos == |w.buf|
    modifies w
    ensures w.Valid() && w.pos == |w.buf| && w.buf == old(w.buf) + Emit(ts, e, map[], {}, old(w.pos), |ts|)
    ensures labels == Recording(ts, old(w.pos), |ts|)
  {
    ghost var prefix := w.buf;
    var start := w.pos;
    labels := map[];
    var k := 0;
    while k < |ts|
      invariant k <= |ts|
      invariant Holds(w, prefix, ts, e, map[], {}, k) && labels == Recording(ts, start, k)
    {
      labels := WriteToken(w, ts, e, prefix, start, k, labels);
      k := k + 1;
    }
  }

  /** One step of the first pass: token `k` is written and reported. */
  method WriteToken(w: Writer, ts: seq<OptionalInst>, e: Endianness, ghost prefix: Bytes, start: nat, k: nat,
                    labels: LabelMap)
    returns (labels': LabelMap)
    requires k < |ts| && start == |prefix|
    requires Holds(w, prefix, ts, e, map[], {}, k)
    requires labels == Recording(ts, start, k)
    modifies w
    ensures Holds(w, prefix, ts, e, map[], {}, k + 1)
    ensures labels' == Recording(ts, start, k + 1)
  {
    assert w.pos == start + Len(ts, k);
    var info := GenOptionalInst(w, ts[k], e);
    EmitNext(prefix, ts, e, start, k);
    labels' := Record(labels, info, start);
  }

  /** `places.into_iter().try_fold(..)`: write label `n`'s address into each
      of its placeholders. */
  method FillSlots(w: Writer, ts: seq<OptionalInst>, e: Endianness, ghost prefix: Bytes, ghost filled0: set<nat>,
                   n: Name, a: u32, places: seq<Placeholder>)
    returns (ghost filled: set<nat>)
    requires n in Labels(ts) && Labels(ts)[n] == a
    requires forall p :: p in places ==> p in Slots(ts, n, |prefix|, |ts|)
    requires Holds(w, prefix, ts, e, Labels(ts), filled0, |ts|)
    modifies w
    ensures Holds(w, prefix, ts, e, Labels(ts), filled, |ts|)
    ensures filled0 <= filled && forall p :: p in places ==> p.pos in filled
  {
    filled := filled0;
    var j := 0;
    while j < |places|
      invariant j <= |places|
      invariant Holds(w, prefix, ts, e, Labels(ts), filled, |ts|)
      invariant filled0 <= filled && forall i :: 0 <= i < j ==> places[i].pos in filled
    {
      FillSlot(w, ts, e, prefix, filled, n, a, places[j]);
      filled := filled + {places[j].pos};
      j := j + 1;
    }
  }

  /** `gen_at_offset(p, gu24(addr))` on one placeholder of label `n`. */
  method FillSlot(w: Writer, ts: seq<OptionalInst>, e: Endianness, ghost prefix: Bytes, ghost filled: set<nat>,
                  n: Name, a: u32, p: Placeholder)
    requires n in Labels(ts) && Labels(ts)[n] == a
    requires p in Slots(ts, n, |prefix|, |ts|)
    requires Holds(w, prefix, ts, e, Labels(ts), filled, |ts|)
    modifies w
    ensures Holds(w, prefix, ts, e, Labels(ts), filled + {p.pos}, |ts|)
  {
    EmitFill(ts, e, Labels(ts), filled, prefix, |ts|, p, n);
    w.Fill(p, GU24(a, e));
  }

  /** The names an address list mentions. */
  function NamesOf(out: seq<(u32, Name)>): set<Name>
  {
    if out == [] then {} else NamesOf(out[..|out| - 1]) + {out[|out| - 1].1}
  }

  lemma {:induction false} NamesOfMember(out: seq<(u32, Name)>, n: Name)
    ensures n in NamesOf(out) <==> exists x :: x in out && x.1 == n
  {
    if out != [] {
      var init := out[..|out| - 1];
      NamesOfMember(init, n);
      assert out == init + [out[|out| - 1]];
    }
  }

  /** `out` lists each name of `done` once, with its address in `table`. */
  ghost predicate Listed(out: seq<(u32, Name)>, done: set<Name>, table: map<Name, u32>)
  {
    && done <= table.Keys
    && |out| == |done|
    && NamesOf(out) == done
    && (forall i :: 0 <= i < |out| ==> out[i].1 in table && out[i].0 == table[out[i].1])
  }

  lemma ListedStep(out: seq<(u32, Name)>, done: set<Name>, table: map<Name, u32>, n: Name)
    requires Listed(out, done, table) && n in table && n !in done
    ensures Listed(out + [(table[n], n)], done + {n}, table)
  {
    assert (out + [(table[n], n)])[..|out|] == out;
  }

  lemma ListedAll(out: seq<(u32, Name)>, table: map<Name, u32>)
    requires Listed(out, table.Keys, table)
    ensures |out| == |table|
    ensures forall x :: x in out ==> x.1 in table && x.0 == table[x.1]
    ensures forall n :: n in table ==> exists x :: x in out && x.1 == n
  {
    forall n | n in table
      ensures exists x :: x in out && x.1 == n
    {
      NamesOfMember(out, n);
    }
  }

  /** Every placeholder of every name in `done` has been patched. */
  ghost predicate Patched(ts: seq<OptionalInst>, start: nat, done: set<Name>, filled: set<nat>)
  {
    forall n, p :: n in done && p in Slots(ts, n, start, |ts|) ==> p.pos in filled
  }

  lemma PatchedStep(ts: seq<OptionalInst>, start: nat, done: set<Name>, filled: set<nat>, n: Name)
    requires Patched(ts, start, done, filled)
    requires forall p :: p in Slots(ts, n, start, |ts|) ==> p.pos in filled
    ensures Patched(ts, start, done + {n}, filled)
  {
  }

  /** The entry the first pass recorded for a mentioned name. */
  lemma EntryMeaning(ts: seq<OptionalInst>, start: nat, n: Name)
    requires n in Named(ts, |ts|)
    ensures n in Recording(ts, start, |ts|)
    ensures Recording(ts, start, |ts|)[n] == (Lookup(Labels(ts), n), Slots(ts, n, start, |ts|))
  {
    RecordingKeys(ts, start, |ts|);
    RecordingEntry(ts, start, |ts|, n);
    LastDefTable(ts, |ts|, n);
  }

  /** One name of the second pass: a name defined by a label has every
      placeholder that refers to it patched with its address and is appended
      to the address list; an undefined name is the error, and nothing is
      written. */
  method PatchName(w: Writer, ts: seq<OptionalInst>, e: Endianness, ghost prefix: Bytes,
                   labels: LabelMap, n: Name,
                   out: seq<(u32, Name)>, ghost done: set<Name>, ghost filled0: set<nat>)
    returns (ok: bool, out': seq<(u32, Name)>, ghost filled: set<nat>)
    requires labels == Recording(ts, |prefix|, |ts|) && n in Named(ts, |ts|)
    requires n !in done && Listed(out, done, Labels(ts)) && Patched(ts, |prefix|, done, filled0)
    requires Holds(w, prefix, ts, e, Labels(ts), filled0, |ts|)
    modifies w
    ensures ok <==> n in Labels(ts)
    ensures ok ==> Holds(w, prefix, ts, e, Labels(ts), filled, |ts|)
    ensures ok ==> Patched(ts, |prefix|, done + {n}, filled) && Listed(out', done + {n}, Labels(ts))
  {
    EntryMeaning(ts, |prefix|, n);
    var (addr, places) := labels[n];
    if addr.None? {
      return false, out, filled0;
    }
    filled := FillSlots(w, ts, e, prefix, filled0, n, addr.value, places);
    ListedStep(out, done, Labels(ts), n);
    PatchedStep(ts, |prefix|, done, filled, n);
    ok, out' := true, out + [(addr.value, n)];
  }

  /** The loop of the second pass: each name of the first pass's map, in
      the map's order, has its placeholders patched and is listed. */
  method PatchEach(w: Writer, ts: seq<OptionalInst>, e: Endianness, labels: LabelMap, ghost prefix: Bytes)
    returns (r: Result<seq<(u32, Name)>, Name>, ghost filled: set<nat>)
    requires labels == Recording(ts, |prefix|, |ts|)
    requires Holds(w, prefix, ts, e, map[], {}, |ts|)
    modifies w
    ensures r.Failure? ==> r.error in Named(ts, |ts|) && r.error !in Labels(ts)
    ensures r.Success? ==> Holds(w, prefix, ts, e, Labels(ts), filled, |ts|)
    ensures r.Success? ==> Patched(ts, |prefix|, Named(ts, |ts|), filled) && Listed(r.value, Named(ts, |ts|), Labels(ts))
  {
    var start := |prefix|;
    ghost var table := Labels(ts);
    RecordingKeys(ts, start, |ts|);
    var names := labels.Keys;
    var out: seq<(u32, Name)> := [];
    ghost var done: set<Name> := {};
    filled := {};
    EmitUnfilled(ts, e, map[], table, start, |ts|);
    while names != {}
      invariant names + done == Named(ts, |ts|) && names !! done
      invariant Holds(w, prefix, ts, e, table, filled, |ts|)
      invariant Patched(ts, start, done, filled)
      invariant Listed(out, done, table)
      decreases |names|
    {
      var n :| n in names;
      var ok;
      ok, out, filled := PatchName(w, ts, e, prefix, labels, n, out, done, filled);
      if !ok {
        return Failure(n), filled;
      }
      names := names - {n};
      done := done + {n};
    }
    r := Success(out);
  }

  /** The second pass of `gen_instructions`: patch every placeholder and
      list every label; a name without a definition fails. */
  method PatchLabels(w: Writer, ts: seq<OptionalInst>, e: Endianness, labels: LabelMap, ghost prefix: Bytes)
    returns (r: Result<seq<(u32, Name)>, Name>)
    requires labels == Recording(ts, |prefix|, |ts|)
    requires Holds(w, prefix, ts, e, map[], {}, |ts|)
    modifies w
    ensures r.Failure? ==> r.error in Named(ts, |ts|) && r.error !in Labels(ts)
    ensures r.Success? ==> Resolved(ts)
    ensures r.Success? ==> (w.Valid() && w.pos == |w.buf| && w.buf == prefix + Assemble(ts, e, Labels(ts), |ts|))
    ensures r.Success? ==>
      && |r.value| == |Labels(ts)|
      && (forall x :: x in r.value ==> x.1 in Labels(ts) && x.0 == Labels(ts)[x.1])
      && (forall n :: n in Labels(ts) ==> exists x :: x in r.value && x.1 == n)
  {
    ghost var filled;
    r, filled := PatchEach(w, ts, e, labels, prefix);
    if r.Success? {
      TableKeys(ts, 0, |ts|);
      assert Named(ts, |ts|) == Labels(ts).Keys;
      AllFilledFromSlots(ts, |prefix|, |ts|, filled);
      EmitComplete(ts, e, Labels(ts), filled, |prefix|, |ts|);
      ListedAll(r.value, Labels(ts));
    }
  }

  /** With no slot patched, the table is irrelevant. */
  lemma EmitUnfilled(ts: seq<OptionalInst>, e: Endianness, t1: map<Name, u32>, t2: map<Name, u32>, base: nat, k: nat)
    requires k <= |ts|
    ensures Emit(ts, e, t1, {}, base, k) == Emit(ts, e, t2, {}, base, k)
  {
    if k > 0 {
      EmitUnfilled(ts, e, t1, t2, base, k - 1);
    }
  }

  /** `gen_instructions`: write every token, remembering each label's last
      position and each placeholder reserved for it; then patch every
      placeholder with its label's 24-bit address and list the labels (in
      the unspecified order of the map). A referenced label that is never
      defined panics on `unwrap`, modelled as a failure naming it. */
  method GenInstructions(w: Writer, ts: seq<OptionalInst>, e: Endianness) returns (r: Result<seq<(u32, Name)>, Name>)
    requires w.Valid() && w.pos == |w.buf|
    modifies w
    ensures r.Success? <==> Resolved(ts)
    ensures r.Failure? ==> r.error in Named(ts, |ts|) && r.error !in Labels(ts)
    ensures r.Success? ==> w.Valid() && w.pos == |w.buf| && w.buf == old(w.buf) + Encode(ts, e)
    ensures r.Success? ==>
      && |r.value| == |Labels(ts)|
      && (forall x :: x in r.value ==> x.1 in Labels(ts) && x.0 == Labels(ts)[x.1])
      && (forall n :: n in Labels(ts) ==> exists x :: x in r.value && x.1 == n)
  {
    ghost var prefix := w.buf;
    var labels := WriteTokens(w, ts, e);
    r := PatchLabels(w, ts, e, labels, prefix);
  }
}
