/** The byte writers of `src/gen.rs`: endian-selectable fixed-width integer
    serializers, the byte-order marker, and a write context whose position can
    be moved back to fill a reserved span (`Placeholder`) or forward to an
    alignment boundary. */
module Gen {
  import opened Common

  lemma LECons(b: u8, bs: Bytes)
    ensures LE([b] + bs) == b + 0x100 * LE(bs)
  {
    assert ([b] + bs)[1..] == bs;
  }

  lemma BESnoc(bs: Bytes, b: u8)
    ensures BE(bs + [b]) == BE(bs) * 0x100 + b
  {
    assert (bs + [b])[..|bs|] == bs;
  }

  lemma BE2(a: u8, b: u8)
    ensures BE([a, b]) == a * 0x100 + b
  {
    BESnoc([], a);
    BESnoc([a], b);
    assert [] + [a] == [a] && [a] + [b] == [a, b];
  }

  lemma BE3(a: u8, b: u8, c: u8)
    ensures BE([a, b, c]) == (a * 0x100 + b) * 0x100 + c
  {
    BE2(a, b);
    BESnoc([a, b], c);
    assert [a, b] + [c] == [a, b, c];
  }

  lemma BE4(a: u8, b: u8, c: u8, d: u8)
    ensures BE([a, b, c, d]) == ((a * 0x100 + b) * 0x100 + c) * 0x100 + d
  {
    BE3(a, b, c);
    BESnoc([a, b, c], d);
    assert [a, b, c] + [d] == [a, b, c, d];
  }

  lemma LE2(a: u8, b: u8)
    ensures LE([a, b]) == a + 0x100 * b
  {
    LECons(b, []);
    LECons(a, [b]);
    assert [b] + [] == [b] && [a] + [b] == [a, b];
  }

  lemma LE3(a: u8, b: u8, c: u8)
    ensures LE([a, b, c]) == a + 0x100 * (b + 0x100 * c)
  {
    LE2(b, c);
    LECons(a, [b, c]);
    assert [a] + [b, c] == [a, b, c];
  }

  lemma LE4(a: u8, b: u8, c: u8, d: u8)
    ensures LE([a, b, c, d]) == a + 0x100 * (b + 0x100 * (c + 0x100 * d))
  {
    LE3(b, c, d);
    LECons(a, [b, c, d]);
    assert [a] + [b, c, d] == [a, b, c, d];
  }

  /** `gu32`: four bytes holding `i` in byte order `e`. */
  function GU32(i: u32, e: Endianness): (r: Bytes)
    ensures |r| == 4
  {
    var b3, b2, b1, b0 := i / 0x100_0000, (i / 0x1_0000) % 0x100, (i / 0x100) % 0x100, i % 0x100;
    match e
    case Big => [b3, b2, b1, b0]
    case Little => [b0, b1, b2, b3]
  }

  /** `gu32` writes exactly the value `i`. */
  lemma GU32Value(i: u32, e: Endianness)
    ensures Value(GU32(i, e), e) == i
  {
    var b3, b2, b1, b0 := i / 0x100_0000, (i / 0x1_0000) % 0x100, (i / 0x100) % 0x100, i % 0x100;
    Low24(i);
    assert i == b3 * 0x100_0000 + i % 0x100_0000;
    match e
    case Big => BE4(b3, b2, b1, b0);
    case Little => LE4(b0, b1, b2, b3);
  }

  /** `gu24`: the low three bytes of `i` in byte order `e`. */
  function GU24(i: u32, e: Endianness): (r: Bytes)
    ensures |r| == 3
  {
    var b2, b1, b0 := (i / 0x1_0000) % 0x100, (i / 0x100) % 0x100, i % 0x100;
    match e
    case Big => [b2, b1, b0]
    case Little => [b0, b1, b2]
  }

  /** `gu24` writes `i` reduced to 24 bits. */
  lemma GU24Value(i: u32, e: Endianness)
    ensures Value(GU24(i, e), e) == i % 0x100_0000
  {
    var b2, b1, b0 := (i / 0x1_0000) % 0x100, (i / 0x100) % 0x100, i % 0x100;
    Low24(i);
    match e
    case Big => BE3(b2, b1, b0);
    case Little => LE3(b0, b1, b2);
  }

  lemma Low24(i: nat)
    ensures ((i / 0x1_0000) % 0x100 * 0x100 + (i / 0x100) % 0x100) * 0x100 + i % 0x100 == i % 0x100_0000
  {
    var q0, b0 := i / 0x100, i % 0x100;
    var q1, b1 := q0 / 0x100, q0 % 0x100;
    var q2, b2 := q1 / 0x100, q1 % 0x100;
    assert i / 0x1_0000 == q1;
    var low := (b2 * 0x100 + b1) * 0x100 + b0;
    assert i == q2 * 0x100_0000 + low;
    assert 0 <= low < 0x100_0000;
  }

  /** `gu16`: two bytes holding `i` in byte order `e`. */
  function GU16(i: u16, e: Endianness): (r: Bytes)
    ensures |r| == 2
  {
    var b1, b0 := i / 0x100, i % 0x100;
    match e
    case Big => [b1, b0]
    case Little => [b0, b1]
  }

  /** `gu16` writes exactly the value `i`. */
  lemma GU16Value(i: u16, e: Endianness)
    ensures Value(GU16(i, e), e) == i
  {
    var b1, b0 := i / 0x100, i % 0x100;
    match e
    case Big => BE2(b1, b0);
    case Little => LE2(b0, b1);
  }

  /** `bom`: the byte-order marker written after the magic. */
  function Bom(e: Endianness): Bytes
  {
    match e
    case Big => [0xFE, 0xFF]
    case Little => [0xFF, 0xFE]
  }

  /** Big puts the most significant byte first and Little the least
      significant first: the two orders are mirror images. */
  lemma MirroredOrders(i: u32, j: u16)
    ensures var b, l := GU32(i, Big), GU32(i, Little); b == [l[3], l[2], l[1], l[0]]
    ensures var b, l := GU24(i, Big), GU24(i, Little); b == [l[2], l[1], l[0]]
    ensures var b, l := GU16(j, Big), GU16(j, Little); b == [l[1], l[0]]
    ensures GU32(i, Big)[0] == i / 0x100_0000 && GU32(i, Little)[0] == i % 0x100
    ensures GU16(j, Big)[0] == j / 0x100 && GU16(j, Little)[0] == j % 0x100
  {
  }

  /** The buffer after writing `bs` at position `at`: seeking past the end and
      writing leaves a zero-filled gap, and writing inside overwrites. */
  function Overwrite(buf: Bytes, at: nat, bs: Bytes): (r: Bytes)
    ensures |r| == if at + |bs| <= |buf| then |buf| else at + |bs|
  {
    var padded := if at <= |buf| then buf else buf + Zeros(at - |buf|);
    padded[..at] + bs + (if at + |bs| < |padded| then padded[at + |bs|..] else [])
  }

  /** Byte by byte: the written bytes, the old ones elsewhere, zeros in a gap. */
  lemma OverwriteElements(buf: Bytes, at: nat, bs: Bytes)
    ensures var r := Overwrite(buf, at, bs);
      forall j :: 0 <= j < |r| ==>
        r[j] == if at <= j < at + |bs| then bs[j - at] else if j < |buf| then buf[j] else 0
  {
  }

  /** Writing at the end of the buffer appends. */
  lemma OverwriteAtEnd(buf: Bytes, bs: Bytes)
    ensures Overwrite(buf, |buf|, bs) == buf + bs
  {
    var r := Overwrite(buf, |buf|, bs);
    OverwriteElements(buf, |buf|, bs);
    assert |r| == |buf + bs|;
    forall j | 0 <= j < |r| ensures r[j] == (buf + bs)[j] {}
  }

  /** Two consecutive writes are one write of the concatenation. */
  lemma OverwriteTwice(buf: Bytes, at: nat, xs: Bytes, ys: Bytes)
    ensures Overwrite(Overwrite(buf, at, xs), at + |xs|, ys) == Overwrite(buf, at, xs + ys)
  {
    var l, r := Overwrite(Overwrite(buf, at, xs), at + |xs|, ys), Overwrite(buf, at, xs + ys);
    OverwriteElements(buf, at, xs);
    OverwriteElements(Overwrite(buf, at, xs), at + |xs|, ys);
    OverwriteElements(buf, at, xs + ys);
    assert |l| == |r|;
    forall j | 0 <= j < |l| ensures l[j] == r[j] {}
  }

  /** A write that ends inside the left part of a buffer leaves the right
      part alone. */
  lemma OverwriteLeft(xs: Bytes, ys: Bytes, at: nat, bs: Bytes)
    requires at + |bs| <= |xs|
    ensures Overwrite(xs + ys, at, bs) == Overwrite(xs, at, bs) + ys
  {
    var l, r := Overwrite(xs + ys, at, bs), Overwrite(xs, at, bs) + ys;
    OverwriteElements(xs + ys, at, bs);
    OverwriteElements(xs, at, bs);
    assert |l| == |r|;
    forall j | 0 <= j < |l| ensures l[j] == r[j] {}
  }

  /** A write that starts in the right part of a buffer leaves the left part
      alone. */
  lemma OverwriteRight(xs: Bytes, ys: Bytes, at: nat, bs: Bytes)
    requires |xs| <= at
    ensures Overwrite(xs + ys, at, bs) == xs + Overwrite(ys, at - |xs|, bs)
  {
    var l, r := Overwrite(xs + ys, at, bs), xs + Overwrite(ys, at - |xs|, bs);
    OverwriteElements(xs + ys, at, bs);
    OverwriteElements(ys, at - |xs|, bs);
    assert |l| == |r|;
    forall j | 0 <= j < |l| ensures l[j] == r[j] {}
  }

  lemma MulBounds(d: int, a: int)
    requires a > 0
    ensures d >= 1 ==> d * a >= a
    ensures d <= -1 ==> d * a <= -a
  {
  }

  /** Euclidean division is unique: the remainder of `q * a + r` is `r`. */
  lemma ModUnique(x: int, a: int, q: int, r: int)
    requires a > 0 && x == q * a + r && 0 <= r < a
    ensures x % a == r
  {
    var d := q - x / a;
    assert d * a == x % a - r;
    MulBounds(d, a);
  }

  /** The zero bytes `gen_align(amount)` writes at position `pos`. */
  function Padding(pos: nat, amount: nat): (pad: nat)
    requires amount > 0
    ensures pad < amount
    ensures (pos + pad) % amount == 0
    ensures pad == 0 <==> pos % amount == 0
  {
    var p := amount - pos % amount;
    if p == amount then 0
    else
      ModUnique(pos + p, amount, pos / amount + 1, 0);
      p
  }

  /** The handle `gen_placeholder` returns: the position before the skip. */
  datatype Placeholder = Placeholder(pos: nat)

  /** A cookie-factory write context over a seekable byte stream. */
  class Writer {
    var buf: Bytes
    var pos: nat

    ghost predicate Valid()
      reads this
    {
      pos <= |buf|
    }

    constructor ()
      ensures Valid() && buf == [] && pos == 0
    {
      buf, pos := [], 0;
    }

    /** A plain serializer (`slice`, `be_u8`, `gu32`, ...): write `bs` at the
        current position and advance past it. */
    method Put(bs: Bytes)
      requires Valid()
      modifies this
      ensures Valid()
      ensures buf == Overwrite(old(buf), old(pos), bs)
      ensures pos == old(pos) + |bs|
    {
      buf := Overwrite(buf, pos, bs);
      pos := pos + |bs|;
    }

    /** `gen_len` around a plain serializer: the count it returns is exactly
        how far the inner write moved the position. */
    method PutCounted(bs: Bytes) returns (n: nat)
      requires Valid()
      modifies this
      ensures Valid()
      ensures buf == Overwrite(old(buf), old(pos), bs)
      ensures pos == old(pos) + n && n == |bs|
    {
      var start := pos;
      Put(bs);
      n := pos - start;
    }

    /** `gen_placeholder(n)`: remember the position, then seek `n` bytes
        forward. A skip past the end of the stream is materialised as zeros. */
    method Reserve(n: nat) returns (p: Placeholder)
      requires Valid()
      modifies this
      ensures Valid()
      ensures p.pos == old(pos) && pos == old(pos) + n
      ensures buf == if old(pos) + n <= |old(buf)| then old(buf) else old(buf) + Zeros(old(pos) + n - |old(buf)|)
    {
      p := Placeholder(pos);
      if pos + n > |buf| {
        buf := buf + Zeros(pos + n - |buf|);
      }
      pos := pos + n;
    }

    /** `Placeholder::gen`: seek to the saved position, write `bs`, then seek
        back to where the stream was. */
    method Fill(p: Placeholder, bs: Bytes)
      requires Valid()
      modifies this
      ensures Valid()
      ensures buf == Overwrite(old(buf), p.pos, bs)
      ensures pos == old(pos)
    {
      buf := Overwrite(buf, p.pos, bs);
    }

    /** `gen_align(amount)`: write zeros up to the next multiple of `amount`. */
    method Align(amount: nat)
      requires Valid() && amount > 0
      modifies this
      ensures Valid()
      ensures pos % amount == 0
      ensures old(pos) <= pos < old(pos) + amount
      ensures old(pos) % amount == 0 ==> pos == old(pos)
      ensures buf == Overwrite(old(buf), old(pos), Zeros(pos - old(pos)))
    {
      var padding := amount - pos % amount;
      if padding == amount {
        padding := 0;
      }
      assert padding == Padding(pos, amount);
      Put(Zeros(padding));
    }
  }
}
