/** The endian-parameterised readers of `src/parse.rs` (and the 24-bit reader
    the instruction decoder uses alongside them). Each reader maps its input to
    the value it read and the rest of the input, or fails when fewer bytes
    remain than its width. */
module Parse {
  import opened Common
  import opened Gen

  /** `pu32`: a 32-bit unsigned integer in byte order `e`. */
  function PU32(input: Bytes, e: Endianness): (r: Option<(u32, Bytes)>)
    ensures r.Some? <==> |input| >= 4
    ensures r.Some? ==> r.value.1 == input[4..] && r.value.0 == Value(input[..4], e)
  {
    if |input| < 4 then None
    else
      var a, b, c, d := input[0] as int, input[1] as int, input[2] as int, input[3] as int;
      assert input[..4] == [a, b, c, d];
      match e
      case Big =>
        BE4(a, b, c, d);
        Some((((a * 0x100 + b) * 0x100 + c) * 0x100 + d, input[4..]))
      case Little =>
        LE4(a, b, c, d);
        Some((a + 0x100 * (b + 0x100 * (c + 0x100 * d)), input[4..]))
  }

  /** `pu24`: a 24-bit unsigned integer in byte order `e`, widened to u32. */
  function PU24(input: Bytes, e: Endianness): (r: Option<(u32, Bytes)>)
    ensures r.Some? <==> |input| >= 3
    ensures r.Some? ==> r.value.1 == input[3..] && r.value.0 == Value(input[..3], e)
    ensures r.Some? ==> r.value.0 < 0x100_0000
  {
    if |input| < 3 then None
    else
      var a, b, c := input[0] as int, input[1] as int, input[2] as int;
      assert input[..3] == [a, b, c];
      match e
      case Big =>
        BE3(a, b, c);
        Some(((a * 0x100 + b) * 0x100 + c, input[3..]))
      case Little =>
        LE3(a, b, c);
        Some((a + 0x100 * (b + 0x100 * c), input[3..]))
  }

  /** `pu16`: a 16-bit unsigned integer in byte order `e`. */
  function PU16(input: Bytes, e: Endianness): (r: Option<(u16, Bytes)>)
    ensures r.Some? <==> |input| >= 2
    ensures r.Some? ==> r.value.1 == input[2..] && r.value.0 == Value(input[..2], e)
  {
    if |input| < 2 then None
    else
      var a, b := input[0] as int, input[1] as int;
      assert input[..2] == [a, b];
      match e
      case Big =>
        BE2(a, b);
        Some((a * 0x100 + b, input[2..]))
      case Little =>
        LE2(a, b);
        Some((a + 0x100 * b, input[2..]))
  }

  /** The signed reading of a 16-bit pattern. */
  function AsI16(u: u16): i16
  {
    if u < 0x8000 then u else u - 0x1_0000
  }

  /** The 16-bit pattern of a signed value (Rust's `imm as u16`). */
  function AsU16(v: i16): (u: u16)
    ensures AsI16(u) == v
  {
    if v < 0 then v + 0x1_0000 else v
  }

  /** `pi16`: a 16-bit two's-complement integer in byte order `e`. */
  function PI16(input: Bytes, e: Endianness): (r: Option<(i16, Bytes)>)
    ensures r.Some? <==> PU16(input, e).Some?
    ensures r.Some? ==> r.value.1 == input[2..]
    ensures r.Some? ==> r.value.0 == AsI16(PU16(input, e).value.0)
    ensures r.Some? ==> (r.value.0 < 0 <==> Value(input[..2], e) >= 0x8000)
  {
    if |input| < 2 then None
    else
      var hi: int, lo: int := if e == Big then input[0] else input[1], if e == Big then input[1] else input[0];
      var v := if hi < 0x80 then hi * 0x100 + lo else (hi - 0x100) * 0x100 + lo;
      Some((v, input[2..]))
  }

  // Reading back what the writers of `src/gen.rs` wrote, with the same byte
  // order, returns the written value and leaves the rest untouched.

  lemma ReadWrite16(v: u16, e: Endianness, rest: Bytes)
    ensures PU16(GU16(v, e) + rest, e) == Some((v, rest))
  {
    GU16Value(v, e);
    var bs := GU16(v, e) + rest;
    assert bs[..2] == GU16(v, e);
    assert bs[2..] == rest;
  }

  lemma ReadWriteI16(v: i16, e: Endianness, rest: Bytes)
    ensures PI16(GU16(AsU16(v), e) + rest, e) == Some((v, rest))
  {
    ReadWrite16(AsU16(v), e, rest);
  }

  lemma ReadWrite24(v: u32, e: Endianness, rest: Bytes)
    ensures PU24(GU24(v, e) + rest, e) == Some((v % 0x100_0000, rest))
  {
    GU24Value(v, e);
    var bs := GU24(v, e) + rest;
    assert bs[..3] == GU24(v, e);
    assert bs[3..] == rest;
  }

  lemma ReadWrite32(v: u32, e: Endianness, rest: Bytes)
    ensures PU32(GU32(v, e) + rest, e) == Some((v, rest))
  {
    GU32Value(v, e);
    var bs := GU32(v, e) + rest;
    assert bs[..4] == GU32(v, e);
    assert bs[4..] == rest;
  }

  // Conversely, writing back what a reader read reproduces the bytes it
  // consumed: the fixed-width codecs are bijections.

  lemma WriteRead16(input: Bytes, e: Endianness)
    requires |input| >= 2
    ensures GU16(PU16(input, e).value.0, e) == input[..2]
  {
    var a, b := input[0] as int, input[1] as int;
    var v := PU16(input, e).value.0;
    var x1, x0 := if e == Big then a else b, if e == Big then b else a;
    assert v == x1 * 0x100 + x0;
    DivMod256(x1, x0);
  }

  lemma WriteRead24(input: Bytes, e: Endianness)
    requires |input| >= 3
    ensures GU24(PU24(input, e).value.0, e) == input[..3]
  {
    var a, b, c := input[0] as int, input[1] as int, input[2] as int;
    var v := PU24(input, e).value.0;
    var x2, x1, x0 := if e == Big then a else c, b, if e == Big then c else a;
    assert v == (x2 * 0x100 + x1) * 0x100 + x0;
    DivMod256(x2 * 0x100 + x1, x0);
    DivMod256(x2, x1);
    DivMod65536(x2, x1 * 0x100 + x0);
    assert (v / 0x1_0000) % 0x100 == x2;
  }

  lemma DivMod256(q: nat, r: nat)
    requires r < 0x100
    ensures (q * 0x100 + r) / 0x100 == q && (q * 0x100 + r) % 0x100 == r
  {
  }

  lemma DivMod65536(q: nat, r: nat)
    requires r < 0x1_0000
    ensures (q * 0x1_0000 + r) / 0x1_0000 == q
  {
  }

  lemma DivMod16M(q: nat, r: nat)
    requires r < 0x100_0000
    ensures (q * 0x100_0000 + r) / 0x100_0000 == q
  {
  }

  lemma WriteRead32(input: Bytes, e: Endianness)
    requires |input| >= 4
    ensures GU32(PU32(input, e).value.0, e) == input[..4]
  {
    var a, b, c, d := input[0] as int, input[1] as int, input[2] as int, input[3] as int;
    var v := PU32(input, e).value.0;
    // the bytes from most to least significant
    var x3, x2, x1, x0 := if e == Big then a else d, if e == Big then b else c,
                          if e == Big then c else b, if e == Big then d else a;
    assert v == ((x3 * 0x100 + x2) * 0x100 + x1) * 0x100 + x0;
    DivMod256((x3 * 0x100 + x2) * 0x100 + x1, x0);
    DivMod256(x3 * 0x100 + x2, x1);
    DivMod256(x3, x2);
    DivMod65536(x3 * 0x100 + x2, x1 * 0x100 + x0);
    DivMod16M(x3, (x2 * 0x100 + x1) * 0x100 + x0);
    assert (v / 0x1_0000) % 0x100 == x2;
  }
}
