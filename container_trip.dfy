/** Reading back a container that `gen_rseq` wrote: `parse` accepts the
    header (magic, marker, version, header length and section count), finds
    the DATA section at 0x20 and the LABL section right after it, and reads
    from the LABL section's offset table exactly the labels that were
    written, in the order they were written. */
module ContainerTrip {
  import opened Common
  import opened Gen
  import opened ContainerParser
  import opened ContainerGen

  /** The label records `parse_labl_section` returns for `(addr, name)`
      pairs. */
  function AsLabels(ls: seq<(u32, Name)>): seq<Label>
  {
    seq(|ls|, i requires 0 <= i < |ls| => Label(ls[i].0, ls[i].1))
  }

  // ---------------------------------------------------------------------
  // The header

  /** The fixed header the writer produces reads back with the byte order
      it was written in, DATA at 0x20 and LABL right after it; the file
      size field holds the length of the whole file. */
  lemma HeaderOfImage(data: Bytes, labl: Bytes, e: Endianness)
    requires TableFits(|data|) && 0x20 + |data| + |labl| < 0x1_0000_0000
    ensures var f := FileImage(data, labl, e);
      && |f| == 0x20 + |data| + |labl|
      && ParseHeader(f) == Success(Header(e, 0x20, |data|, 0x20 + |data|, |labl|))
      && Field(f, 8, 4, e) == |f|
      && f[0x20..0x20 + |data|] == data && f[0x20 + |data|..0x20 + |data| + |labl|] == labl
  {
    var dl, ll := |data|, |labl|;
    var ver, size, hdr, cnt := GU16(0x100, e), GU32(U32(0x20 + dl + ll), e), GU16(0x20, e), GU16(2, e);
    var t0, t1, t2, t3 := GU32(0x20, e), GU32(U32(dl), e), GU32(0x20 + U32(dl), e), GU32(U32(ll), e);
    GU16Value(0x100, e);
    GU16Value(0x20, e);
    GU16Value(2, e);
    GU32Value(U32(0x20 + dl + ll), e);
    GU32Value(0x20, e);
    GU32Value(U32(dl), e);
    GU32Value(0x20 + U32(dl), e);
    GU32Value(U32(ll), e);
    HeaderParts(FileImage(data, labl, e), ver, size, hdr, cnt, SectionTable(dl, ll, e), t0, t1, t2, t3, data, labl, e, 0x20, dl, 0x20 + dl, ll);
  }

  /** The header read from its parts, whatever bytes they are. */
  lemma HeaderParts(f: Bytes, ver: Bytes, size: Bytes, hdr: Bytes, cnt: Bytes, table: Bytes,
                    t0: Bytes, t1: Bytes, t2: Bytes, t3: Bytes, data: Bytes, labl: Bytes, e: Endianness,
                    d0: u32, d1: u32, l0: u32, l1: u32)
    requires f == Magic + Bom(e) + ver + size + hdr + cnt + table + data + labl
    requires table == t0 + t1 + t2 + t3
    requires |ver| == 2 && |size| == 4 && |hdr| == 2 && |cnt| == 2
    requires |t0| == 4 && |t1| == 4 && |t2| == 4 && |t3| == 4
    requires Value(ver, e) == 0x100 && Value(hdr, e) == 0x20 && Value(cnt, e) == 2
    requires Value(t0, e) == d0 && Value(t1, e) == d1 && Value(t2, e) == l0 && Value(t3, e) == l1
    ensures |f| == 0x20 + |data| + |labl|
    ensures ParseHeader(f) == Success(Header(e, d0, d1, l0, l1))
    ensures Field(f, 8, 4, e) == Value(size, e)
    ensures f[0x20..0x20 + |data|] == data && f[0x20 + |data|..0x20 + |data| + |labl|] == labl
  {
    var head := Magic + Bom(e) + ver + size + hdr + cnt;
    assert f == head + table + data + labl;
    assert f[..16] == head && f[16..32] == table;
    assert f[..4] == Magic && f[4..6] == Bom(e) && f[6..8] == ver && f[8..12] == size;
    assert f[12..14] == hdr && f[14..16] == cnt;
    assert f[16..20] == t0 && f[20..24] == t1 && f[24..28] == t2 && f[28..32] == t3;
    assert f[0x20..0x20 + |data|] == data && f[0x20 + |data|..0x20 + |data| + |labl|] == labl;
    assert OrderOf(f) == e;
    assert HeaderOk(f, e);
  }

  // ---------------------------------------------------------------------
  // The LABL section

  lemma {:induction false} SumAppend(xs: seq<nat>, x: nat, j: nat)
    requires j <= |xs|
    ensures Sum(xs + [x], j) == Sum(xs, j)
  {
    if j > 0 {
      SumAppend(xs, x, j - 1);
      assert (xs + [x])[j - 1] == xs[j - 1];
    }
  }

  /** The sum of the first `i` lengths depends on those lengths only. */
  lemma {:induction false} SumPrefix(xs: seq<nat>, ys: seq<nat>, i: nat)
    requires i <= |xs| && i <= |ys| && xs[..i] == ys[..i]
    ensures Sum(xs, i) == Sum(ys, i)
  {
    if i > 0 {
      assert xs[..i - 1] == xs[..i][..i - 1] && ys[..i - 1] == ys[..i][..i - 1];
      assert xs[i - 1] == xs[..i][i - 1];
      assert ys[i - 1] == ys[..i][i - 1];
      SumPrefix(xs, ys, i - 1);
    }
  }

  /** One more record: its length and its bytes. */
  lemma RecordsStep(ls: seq<(u32, Name)>, at: nat, e: Endianness, k: nat)
    requires 0 < k <= |ls|
    ensures Records(ls, at, e, k) == Records(ls, at, e, k - 1) + RecordImage(ls[k - 1], at + |Records(ls, at, e, k - 1)|, e)
  {
  }

  /** One more record length. */
  lemma RecordLengthsStep(ls: seq<(u32, Name)>, at: nat, e: Endianness, k: nat)
    requires 0 < k <= |ls|
    ensures RecordLengths(ls, at, e, k)
      == RecordLengths(ls, at, e, k - 1) + [|RecordImage(ls[k - 1], at + |Records(ls, at, e, k - 1)|, e)|]
  {
  }

  /** Record `k` follows the first `k` records. */
  lemma RecordsAppend(ls: seq<(u32, Name)>, at: nat, e: Endianness, k: nat)
    requires k < |ls|
    ensures Records(ls, at, e, k + 1) == Records(ls, at, e, k) + RecordImage(ls[k], at + |Records(ls, at, e, k)|, e)
  {
    RecordsStep(ls, at, e, k + 1);
  }

  lemma PrefixExtend(a: Bytes, b: Bytes, c: Bytes)
    requires |c| <= |a| && a[..|c|] == c
    ensures (a + b)[..|c|] == c
  {
  }

  lemma LengthsPrefixStep(xs: seq<nat>, x: nat, ys: seq<nat>)
    requires |ys| <= |xs| && xs[..|ys|] == ys
    ensures (xs + [x])[..|ys|] == ys
  {
  }

  /** The first `i` lengths are the same in every longer prefix. */
  lemma {:induction false} LengthsPrefix(ls: seq<(u32, Name)>, at: nat, e: Endianness, i: nat, k: nat)
    requires i <= k <= |ls|
    ensures RecordLengths(ls, at, e, k)[..i] == RecordLengths(ls, at, e, i)
  {
    if k > i {
      LengthsPrefix(ls, at, e, i, k - 1);
      RecordLengthsStep(ls, at, e, k);
      LengthsPrefixStep(RecordLengths(ls, at, e, k - 1), |RecordImage(ls[k - 1], at + |Records(ls, at, e, k - 1)|, e)|,
        RecordLengths(ls, at, e, i));
    }
  }

  /** The `i` record lengths add up to the bytes of the `i` records. */
  lemma {:induction false} LengthsTotal(ls: seq<(u32, Name)>, at: nat, e: Endianness, i: nat)
    requires i <= |ls|
    ensures Sum(RecordLengths(ls, at, e, i), i) == |Records(ls, at, e, i)|
  {
    if i > 0 {
      LengthsTotal(ls, at, e, i - 1);
      RecordsStep(ls, at, e, i);
      RecordLengthsStep(ls, at, e, i);
      SumAppend(RecordLengths(ls, at, e, i - 1), |RecordImage(ls[i - 1], at + |Records(ls, at, e, i - 1)|, e)|, i - 1);
    }
  }

  /** The first `i` record lengths add up to the bytes of the first `i`
      records, whichever longer prefix of the lengths they are taken from. */
  lemma LengthsSum(ls: seq<(u32, Name)>, at: nat, e: Endianness, i: nat, k: nat)
    requires i <= k <= |ls|
    ensures Sum(RecordLengths(ls, at, e, k), i) == |Records(ls, at, e, i)|
  {
    LengthsPrefix(ls, at, e, i, k);
    SumPrefix(RecordLengths(ls, at, e, k), RecordLengths(ls, at, e, i), i);
    LengthsTotal(ls, at, e, i);
  }

  /** The records written first are a prefix of those written later. */
  lemma {:induction false} RecordsPrefix(ls: seq<(u32, Name)>, at: nat, e: Endianness, i: nat, k: nat)
    requires i <= k <= |ls|
    ensures |Records(ls, at, e, i)| <= |Records(ls, at, e, k)|
    ensures Records(ls, at, e, k)[..|Records(ls, at, e, i)|] == Records(ls, at, e, i)
  {
    if k > i {
      RecordsPrefix(ls, at, e, i, k - 1);
      RecordsStep(ls, at, e, k);
      PrefixOfGrown(Records(ls, at, e, k), Records(ls, at, e, k - 1),
        RecordImage(ls[k - 1], at + |Records(ls, at, e, k - 1)|, e), Records(ls, at, e, i));
    }
  }

  lemma PrefixOfGrown(big: Bytes, prev: Bytes, img: Bytes, small: Bytes)
    requires big == prev + img && |small| <= |prev| && prev[..|small|] == small
    ensures |small| <= |big| && big[..|small|] == small
  {
    PrefixExtend(prev, img, small);
  }

  /** Entry `i` of the offset table is the base plus the first `i` lengths. */
  lemma {:induction false} OffsetEntry(lengths: seq<nat>, base: nat, e: Endianness, k: nat, i: nat)
    requires i < k <= |lengths|
    ensures OffsetTable(lengths, base, e, k)[4 * i..4 * i + 4] == GU32(U32(base + Sum(lengths, i)), e)
  {
    var prev := OffsetTable(lengths, base, e, k - 1);
    assert OffsetTable(lengths, base, e, k) == prev + GU32(U32(base + Sum(lengths, k - 1)), e);
    if i < k - 1 {
      OffsetEntry(lengths, base, e, k - 1, i);
      SliceLeft(prev, GU32(U32(base + Sum(lengths, k - 1)), e), 4 * i, 4 * i + 4);
    }
  }

  /** Entry `i` of the offset table reads as the base plus the first `i`
      lengths, cut to 32 bits. */
  lemma OffsetEntryValue(lengths: seq<nat>, base: nat, e: Endianness, k: nat, i: nat)
    requires i < k <= |lengths|
    ensures 4 * i + 4 <= |OffsetTable(lengths, base, e, k)|
    ensures Value(OffsetTable(lengths, base, e, k)[4 * i..4 * i + 4], e) == U32(base + Sum(lengths, i))
  {
    OffsetEntry(lengths, base, e, k, i);
    GU32Value(U32(base + Sum(lengths, i)), e);
  }

  /** An entry whose value fits in 32 bits holds it exactly. */
  lemma OffsetEntryFits(lengths: seq<nat>, base: nat, e: Endianness, k: nat, i: nat)
    requires i < k <= |lengths| && base + Sum(lengths, i) < 0x1_0000_0000
    ensures 4 * i + 4 <= |OffsetTable(lengths, base, e, k)|
    ensures Value(OffsetTable(lengths, base, e, k)[4 * i..4 * i + 4], e) == base + Sum(lengths, i)
  {
    OffsetEntryValue(lengths, base, e, k, i);
  }

  /** A record reads back as its label, whatever follows it. */
  lemma RecordReads(l: (u32, Name), p: nat, e: Endianness, input: Bytes)
    requires |l.1| < 0x1_0000_0000
    requires |RecordImage(l, p, e)| <= |input| && input[..|RecordImage(l, p, e)|] == RecordImage(l, p, e)
    ensures ParseLabel(input, e).Some? && ParseLabel(input, e).value.0 == Label(l.0, l.1)
  {
    var a, n := GU32(l.0, e), GU32(U32(|l.1|), e);
    var img := RecordImage(l, p, e);
    RecordFields(img, a, n, l.1, [0] + Zeros(Padding(p + 9 + |l.1|, 4)));
    PrefixSlice(input, img, 0, 4);
    PrefixSlice(input, img, 4, 8);
    PrefixSlice(input, img, 8, 8 + |l.1|);
    GU32Value(l.0, e);
    GU32Value(U32(|l.1|), e);
  }

  /** The address, length and name fields of a record image. */
  lemma RecordFields(img: Bytes, a: Bytes, n: Bytes, name: Bytes, rest: Bytes)
    requires img == a + n + name + rest && |a| == 4 && |n| == 4
    ensures img[..4] == a && img[4..8] == n && img[8..8 + |name|] == name
  {
  }

  /** A slice of a prefix is the same slice of the whole. */
  lemma PrefixSlice(input: Bytes, img: Bytes, i: nat, j: nat)
    requires i <= j <= |img| <= |input| && input[..|img|] == img
    ensures input[i..j] == img[i..j]
  {
    forall k | 0 <= k < j - i
      ensures input[i..j][k] == img[i..j][k]
    {
      assert img[i + k] == input[..|img|][i + k];
    }
  }

  lemma SliceLeft(x: Bytes, y: Bytes, a: nat, b: nat)
    requires a <= b <= |x|
    ensures (x + y)[a..b] == x[a..b]
  {
  }

  lemma SliceRight(x: Bytes, y: Bytes, a: nat, b: nat)
    requires |x| <= a <= b <= |x| + |y|
    ensures (x + y)[a..b] == y[a - |x|..b - |x|]
  {
  }

  /** A piece of a prefix is a piece of the whole. */
  lemma SubSlice(more: Bytes, recs: Bytes, upto: Bytes, before: Bytes, img: Bytes)
    requires |recs| <= |more| && more[..|recs|] == recs
    requires |upto| <= |recs| && recs[..|upto|] == upto && upto == before + img
    ensures |before| + |img| <= |more| && more[|before|..|before| + |img|] == img
  {
    assert more[|before|..|before| + |img|] == upto[|before|..];
  }

  /** An offset-table entry that holds `off`, and a record at `off` that
      reads back as `l`, make the entry read back as `l`. */
  lemma EntryFromParts(table: Bytes, relative: Bytes, e: Endianness, at: nat, off: nat, l: Label)
    requires at + 4 <= |table| && Value(table[at..at + 4], e) == off && off <= |relative|
    requires ParseLabel(relative[off..], e).Some? && ParseLabel(relative[off..], e).value.0 == l
    ensures ParseEntry(table[at..], relative, e) == Success(l)
  {
    assert table[at..][..4] == table[at..at + 4];
  }

  /** Entry `i` of a table of four-byte offsets followed by other bytes,
      all measured from a four-byte count: an entry holding `off`, with a
      record at `off` that reads back as `l`, reads back as `l`. */
  lemma EntryOfTable(count: Bytes, offs: Bytes, more: Bytes, table: Bytes, relative: Bytes, e: Endianness,
                     i: nat, off: nat, l: Label)
    requires table == offs + more && relative == count + table
    requires 4 * i + 4 <= |offs| && Value(offs[4 * i..4 * i + 4], e) == off && off <= |relative|
    requires ParseLabel(relative[off..], e).Some? && ParseLabel(relative[off..], e).value.0 == l
    ensures ParseEntry(EntrySlot(table, i), relative, e) == Success(l)
  {
    SliceLeft(offs, more, 4 * i, 4 * i + 4);
    EntryFromParts(table, relative, e, 4 * i, off, l);
  }

  /** The sum of the first `i` lengths is at most that of the first `k`. */
  lemma {:induction false} SumGrows(lengths: seq<nat>, i: nat, k: nat)
    requires i <= k <= |lengths|
    ensures Sum(lengths, i) <= Sum(lengths, k)
  {
    if i < k {
      SumGrows(lengths, i, k - 1);
    }
  }

  /** Every entry of `offs` holds `base` plus the lengths before it. */
  predicate TableHolds(offs: Bytes, lengths: seq<nat>, base: nat, e: Endianness)
  {
    && |offs| == 4 * |lengths|
    && forall i :: 0 <= i < |lengths| ==> Value(offs[4 * i..4 * i + 4], e) == base + Sum(lengths, i)
  }

  /** An offset table whose last sum stays below 2^32 holds every sum
      exactly. */
  lemma OffsetTableHolds(lengths: seq<nat>, base: nat, e: Endianness, k: nat, offs: Bytes)
    requires k == |lengths| && offs == OffsetTable(lengths, base, e, k)
    requires base + Sum(lengths, k) < 0x1_0000_0000
    ensures TableHolds(offs, lengths, base, e)
  {
    forall i | 0 <= i < k
      ensures Value(offs[4 * i..4 * i + 4], e) == base + Sum(lengths, i)
    {
      SumGrows(lengths, i, k);
      OffsetEntryFits(lengths, base, e, k, i);
    }
  }

  /** The first `i` records are no longer than the first `k`. */
  lemma RecordsGrow(ls: seq<(u32, Name)>, at: nat, e: Endianness, i: nat, k: nat)
    requires i <= k <= |ls|
    ensures |Records(ls, at, e, i)| <= |Records(ls, at, e, k)|
  {
    RecordsPrefix(ls, at, e, i, k);
  }

  /** The first `i + 1` records begin all the records, and they are the
      first `i` followed by record `i`. */
  lemma RecordSpan(ls: seq<(u32, Name)>, first: nat, e: Endianness, i: nat)
    requires i < |ls|
    ensures |Records(ls, first, e, i + 1)| <= |Records(ls, first, e, |ls|)|
    ensures Records(ls, first, e, |ls|)[..|Records(ls, first, e, i + 1)|] == Records(ls, first, e, i + 1)
    ensures Records(ls, first, e, i + 1)
      == Records(ls, first, e, i) + RecordImage(ls[i], first + |Records(ls, first, e, i)|, e)
  {
    RecordsPrefix(ls, first, e, i + 1, |ls|);
    RecordsAppend(ls, first, e, i);
  }

  /** Record `i` sits right after the first `i` records. */
  lemma RecordInPlace(ls: seq<(u32, Name)>, first: nat, e: Endianness, i: nat, more: Bytes)
    requires i < |ls|
    requires |Records(ls, first, e, |ls|)| <= |more| && more[..|Records(ls, first, e, |ls|)|] == Records(ls, first, e, |ls|)
    ensures |Records(ls, first, e, i)| + |RecordImage(ls[i], first + |Records(ls, first, e, i)|, e)| <= |more|
    ensures more[|Records(ls, first, e, i)|..|Records(ls, first, e, i)| + |RecordImage(ls[i], first + |Records(ls, first, e, i)|, e)|]
      == RecordImage(ls[i], first + |Records(ls, first, e, i)|, e)
    ensures |ls[i].1| <= |Records(ls, first, e, |ls|)|
  {
    RecordSpan(ls, first, e, i);
    SubSlice(more, Records(ls, first, e, |ls|), Records(ls, first, e, i + 1), Records(ls, first, e, i),
      RecordImage(ls[i], first + |Records(ls, first, e, i)|, e));
  }

  /** Entry `i` of the offset table holds `s` plus the bytes before the
      records (the count and the table), and the bytes after the table hold
      `img` at `s`. */
  predicate Placed(offs: Bytes, more: Bytes, e: Endianness, i: nat, s: nat, img: Bytes)
  {
    && 4 * i + 4 <= |offs| && Value(offs[4 * i..4 * i + 4], e) == 4 + |offs| + s
    && s + |img| <= |more| && more[s..s + |img|] == img
  }

  /** Every record `i` starts where the records before it end, and entry
      `i` points at it. */
  predicate AllPlaced(ls: seq<(u32, Name)>, first: nat, e: Endianness, offs: Bytes, more: Bytes)
  {
    forall i :: 0 <= i < |ls| ==>
      && |ls[i].1| < 0x1_0000_0000
      && Placed(offs, more, e, i, |Records(ls, first, e, i)|, RecordImage(ls[i], first + |Records(ls, first, e, i)|, e))
  }

  /** The LABL body as generated: every entry of the offset table points
      at its record, which is where the records before it end. */
  lemma RecordsLaidOut(ls: seq<(u32, Name)>, first: nat, e: Endianness, offs: Bytes, recs: Bytes, more: Bytes)
    requires offs == OffsetTable(RecordLengths(ls, first, e, |ls|), 4 + 4 * |ls|, e, |ls|)
    requires recs == Records(ls, first, e, |ls|)
    requires |recs| <= |more| && more[..|recs|] == recs
    requires 4 + |offs| + |more| < 0x1_0000_0000
    ensures AllPlaced(ls, first, e, offs, more)
  {
    TableOfRecords(ls, first, e, offs);
    forall i | 0 <= i < |ls|
      ensures |ls[i].1| < 0x1_0000_0000
      ensures Placed(offs, more, e, i, |Records(ls, first, e, i)|, RecordImage(ls[i], first + |Records(ls, first, e, i)|, e))
    {
      RecordPlaced(ls, first, e, i, offs, recs, more);
    }
  }

  /** The generated offset table holds every record's offset exactly. */
  lemma TableOfRecords(ls: seq<(u32, Name)>, first: nat, e: Endianness, offs: Bytes)
    requires offs == OffsetTable(RecordLengths(ls, first, e, |ls|), 4 + 4 * |ls|, e, |ls|)
    requires 4 + |offs| + |Records(ls, first, e, |ls|)| < 0x1_0000_0000
    ensures TableHolds(offs, RecordLengths(ls, first, e, |ls|), 4 + 4 * |ls|, e)
  {
    LengthsTotal(ls, first, e, |ls|);
    OffsetTableHolds(RecordLengths(ls, first, e, |ls|), 4 + 4 * |ls|, e, |ls|, offs);
  }

  /** Entry `i` points at record `i`, which sits where the records before
      it end. */
  lemma RecordPlaced(ls: seq<(u32, Name)>, first: nat, e: Endianness, i: nat, offs: Bytes, recs: Bytes, more: Bytes)
    requires i < |ls|
    requires TableHolds(offs, RecordLengths(ls, first, e, |ls|), 4 + 4 * |ls|, e)
    requires recs == Records(ls, first, e, |ls|)
    requires |recs| <= |more| && more[..|recs|] == recs
    requires 4 + |offs| + |more| < 0x1_0000_0000
    ensures |ls[i].1| < 0x1_0000_0000
    ensures Placed(offs, more, e, i, |Records(ls, first, e, i)|, RecordImage(ls[i], first + |Records(ls, first, e, i)|, e))
  {
    OffsetPlaced(ls, first, e, i, offs);
    RecordInPlace(ls, first, e, i, more);
  }

  /** The lengths before record `i` add up to the bytes before it, which
      are no more than all the records. */
  lemma BeforeRecord(ls: seq<(u32, Name)>, first: nat, e: Endianness, i: nat)
    requires i < |ls|
    ensures Sum(RecordLengths(ls, first, e, |ls|), i) == |Records(ls, first, e, i)|
    ensures |Records(ls, first, e, i)| <= |Records(ls, first, e, |ls|)|
  {
    LengthsSum(ls, first, e, i, |ls|);
    RecordsGrow(ls, first, e, i, |ls|);
  }

  /** Entry `i` points just past the records before record `i`. */
  lemma OffsetPlaced(ls: seq<(u32, Name)>, first: nat, e: Endianness, i: nat, offs: Bytes)
    requires i < |ls|
    requires TableHolds(offs, RecordLengths(ls, first, e, |ls|), 4 + 4 * |ls|, e)
    ensures 4 * i + 4 <= |offs| && Value(offs[4 * i..4 * i + 4], e) == 4 + |offs| + |Records(ls, first, e, i)|
  {
    BeforeRecord(ls, first, e, i);
  }

  /** A record image found at `s` in the bytes after `head` reads back as
      its label. */
  lemma RecordFound(head: Bytes, more: Bytes, relative: Bytes, s: nat, l: (u32, Name), p: nat, e: Endianness)
    requires relative == head + more && |relative| < 0x1_0000_0000
    requires s + |RecordImage(l, p, e)| <= |more| && more[s..s + |RecordImage(l, p, e)|] == RecordImage(l, p, e)
    requires |l.1| < 0x1_0000_0000
    ensures |head| + s <= |relative|
    ensures ParseLabel(relative[|head| + s..], e).Some? && ParseLabel(relative[|head| + s..], e).value.0 == Label(l.0, l.1)
  {
    var img := RecordImage(l, p, e);
    SliceRight(head, more, |head| + s, |head| + s + |img|);
    assert relative[|head| + s..][..|img|] == relative[|head| + s..|head| + s + |img|];
    RecordReads(l, p, e, relative[|head| + s..]);
  }

  lemma Regroup3(a: Bytes, b: Bytes, c: Bytes)
    ensures a + (b + c) == (a + b) + c
  {
  }

  /** An entry placed at a record image reads back as the image's label. */
  lemma EntryAtRecord(count: Bytes, offs: Bytes, more: Bytes, table: Bytes, relative: Bytes, e: Endianness,
                      i: nat, s: nat, l: (u32, Name), p: nat)
    requires |count| == 4 && table == offs + more && relative == count + table && |relative| < 0x1_0000_0000
    requires |l.1| < 0x1_0000_0000 && Placed(offs, more, e, i, s, RecordImage(l, p, e))
    ensures ParseEntry(EntrySlot(table, i), relative, e) == Success(Label(l.0, l.1))
  {
    Regroup3(count, offs, more);
    RecordFound(count + offs, more, relative, s, l, p, e);
    EntryOfTable(count, offs, more, table, relative, e, i, 4 + |offs| + s, Label(l.0, l.1));
  }

  /** An entry placed at its record reads back as the record's label. */
  lemma EntryReads(count: Bytes, offs: Bytes, more: Bytes, table: Bytes, relative: Bytes, e: Endianness,
                   ls: seq<(u32, Name)>, first: nat, i: nat)
    requires |count| == 4 && table == offs + more && relative == count + table && |relative| < 0x1_0000_0000
    requires i < |ls| && |ls[i].1| < 0x1_0000_0000
    requires Placed(offs, more, e, i, |Records(ls, first, e, i)|, RecordImage(ls[i], first + |Records(ls, first, e, i)|, e))
    ensures ParseEntry(EntrySlot(table, i), relative, e) == Success(Label(ls[i].0, ls[i].1))
  {
    EntryAtRecord(count, offs, more, table, relative, e, i, |Records(ls, first, e, i)|, ls[i], first + |Records(ls, first, e, i)|);
  }

  /** Entry `i` of the table reads back as `labels[i]`, for every `i`. */
  predicate EntriesRead(table: Bytes, relative: Bytes, e: Endianness, labels: seq<Label>)
  {
    && 4 * |labels| <= |table|
    && forall i {:trigger EntrySlot(table, i)} :: 0 <= i < |labels| ==>
      ParseEntry(EntrySlot(table, i), relative, e) == Success(labels[i])
  }

  /** Entries placed at their records read back as the records' labels. */
  lemma PlacedEntriesRead(ls: seq<(u32, Name)>, first: nat, e: Endianness,
                          count: Bytes, offs: Bytes, more: Bytes, table: Bytes, relative: Bytes)
    requires |count| == 4 && table == offs + more && relative == count + table && |relative| < 0x1_0000_0000
    requires AllPlaced(ls, first, e, offs, more)
    requires |offs| == 4 * |ls|
    ensures EntriesRead(table, relative, e, AsLabels(ls))
  {
    forall i | 0 <= i < |ls|
      ensures ParseEntry(EntrySlot(table, i), relative, e) == Success(AsLabels(ls)[i])
    {
      EntryReads(count, offs, more, table, relative, e, ls, first, i);
    }
  }

  /** Reading `k` entries that each read back as their label gives the
      first `k` labels. */
  lemma {:induction false} LabelsRead(table: Bytes, relative: Bytes, e: Endianness, labels: seq<Label>, k: nat)
    requires k <= |labels| && EntriesRead(table, relative, e, labels)
    ensures ParseLabels(table, relative, e, k) == Success(labels[..k])
  {
    if k > 0 {
      LabelsRead(table, relative, e, labels, k - 1);
      TakeSnoc(labels, k);
      LabelsStep(table, relative, e, k, labels[..k - 1], labels[k - 1]);
    }
  }

  lemma TakeAll(labels: seq<Label>)
    ensures labels[..|labels|] == labels
  {
  }

  lemma TakeSnoc(labels: seq<Label>, k: nat)
    requires 0 < k <= |labels|
    ensures labels[..k - 1] + [labels[k - 1]] == labels[..k]
  {
  }

  /** Reading one more entry appends the label it reads. */
  lemma LabelsStep(table: Bytes, relative: Bytes, e: Endianness, k: nat, labels: seq<Label>, l: Label)
    requires 0 < k
    requires ParseLabels(table, relative, e, k - 1) == Success(labels)
    requires ParseEntry(EntrySlot(table, k - 1), relative, e) == Success(l)
    ensures ParseLabels(table, relative, e, k) == Success(labels + [l])
  {
  }

  /** The LABL section image regrouped as tag, length, count and the rest. */
  lemma RegroupLabl(name: Bytes, len: Bytes, count: Bytes, offs: Bytes, recs: Bytes, z: Bytes)
    ensures name + len + (count + offs + recs) + z == name + len + (count + (offs + (recs + z)))
  {
  }

  /** The fields of a LABL section image, whatever bytes they are. */
  lemma LablFields(labl: Bytes, name: Bytes, len: Bytes, count: Bytes, table: Bytes)
    requires labl == name + len + (count + table) && |name| == 4 && |len| == 4 && |count| == 4
    ensures labl[..4] == name && labl[4..8] == len && labl[8..12] == count
    ensures labl[12..] == table && labl[8..|labl|] == count + table
  {
  }

  lemma LablBodyIs(ls: seq<(u32, Name)>, at: nat, e: Endianness)
    ensures LablBody(ls, at, e)
      == GU32(U32(|ls|), e) + OffsetTable(RecordLengths(ls, at + 4 + 4 * |ls|, e, |ls|), 4 + 4 * |ls|, e, |ls|)
         + Records(ls, at + 4 + 4 * |ls|, e, |ls|)
  {
  }

  lemma PrefixOf(a: Bytes, b: Bytes)
    ensures |a| <= |a + b| && (a + b)[..|a|] == a
  {
  }

  /** A LABL section read from its parts, whatever bytes they are. */
  lemma LablFromParts(labl: Bytes, len: Bytes, body: Bytes, pad: nat, count: Bytes, offs: Bytes, recs: Bytes,
                      e: Endianness, n: nat, labels: seq<Label>)
    requires body == count + offs + recs && labl == LablName + len + body + Zeros(pad)
    requires |len| == 4 && |count| == 4 && Value(len, e) == |labl| && Value(count, e) == n
    requires ParseLabels(offs + (recs + Zeros(pad)), count + (offs + (recs + Zeros(pad))), e, n) == Success(labels)
    ensures ParseLablSection(labl, e) == Success(labels)
  {
    RegroupLabl(LablName, len, count, offs, recs, Zeros(pad));
    LablFields(labl, LablName, len, count, offs + (recs + Zeros(pad)));
  }

  /** The LABL section image as tag, length field, body and padding. */
  lemma LablImageSplit(ls: seq<(u32, Name)>, at: nat, e: Endianness) returns (len: Bytes, body: Bytes, pad: nat)
    ensures LablImage(ls, at, e) == LablName + len + body + Zeros(pad)
    ensures body == LablBody(ls, at + 8, e) && len == GU32(U32(|body| + pad + 8), e)
  {
    body := LablBody(ls, at + 8, e);
    pad := Padding(at + |LablName| + 4 + |body|, 32);
    len := GU32(U32(|body| + pad + 8), e);
  }

  /** Every entry of a generated LABL body, followed by `pad` zeros, reads
      back as its label. */
  lemma LablEntries(ls: seq<(u32, Name)>, first: nat, e: Endianness, pad: nat)
    requires 4 + 4 * |ls| + |Records(ls, first, e, |ls|)| + pad < 0x1_0000_0000
    ensures
      var offs := OffsetTable(RecordLengths(ls, first, e, |ls|), 4 + 4 * |ls|, e, |ls|);
      var more := Records(ls, first, e, |ls|) + Zeros(pad);
      EntriesRead(offs + more, GU32(U32(|ls|), e) + (offs + more), e, AsLabels(ls))
  {
    var offs := OffsetTable(RecordLengths(ls, first, e, |ls|), 4 + 4 * |ls|, e, |ls|);
    var recs := Records(ls, first, e, |ls|);
    PrefixOf(recs, Zeros(pad));
    RecordsLaidOut(ls, first, e, offs, recs, recs + Zeros(pad));
    PlacedEntriesRead(ls, first, e, GU32(U32(|ls|), e), offs, recs + Zeros(pad),
      offs + (recs + Zeros(pad)), GU32(U32(|ls|), e) + (offs + (recs + Zeros(pad))));
  }

  /** The LABL section the writer produces reads back as its labels. */
  lemma LablRoundTrip(ls: seq<(u32, Name)>, at: nat, e: Endianness)
    requires |LablImage(ls, at, e)| < 0x1_0000_0000
    ensures ParseLablSection(LablImage(ls, at, e), e) == Success(AsLabels(ls))
  {
    var len, body, pad := LablImageSplit(ls, at, e);
    var count := GU32(U32(|ls|), e);
    var offs := OffsetTable(RecordLengths(ls, at + 8 + 4 + 4 * |ls|, e, |ls|), 4 + 4 * |ls|, e, |ls|);
    var recs := Records(ls, at + 8 + 4 + 4 * |ls|, e, |ls|);
    var more := recs + Zeros(pad);
    LablBodyIs(ls, at + 8, e);
    GU32Value(U32(|ls|), e);
    GU32Value(U32(|body| + pad + 8), e);
    PrefixOf(recs, Zeros(pad));
    LablEntries(ls, at + 8 + 4 + 4 * |ls|, e, pad);
    LabelsRead(offs + more, count + (offs + more), e, AsLabels(ls), |ls|);
    TakeAll(AsLabels(ls));
    LablFromParts(LablImage(ls, at, e), len, body, pad, count, offs, recs, e, |ls|, AsLabels(ls));
  }

  // ---------------------------------------------------------------------
  // The whole file

  /** A file whose header announces DATA and LABL where they are, and
      whose LABL section reads back as `labels`, parses as those sections. */
  lemma ParseFile(f: Bytes, data: Bytes, labl: Bytes, e: Endianness, labels: seq<Label>)
    requires |f| == 0x20 + |data| + |labl| && |f| < 0x1_0000_0000
    requires ParseHeader(f) == Success(Header(e, 0x20, |data|, 0x20 + |data|, |labl|))
    requires f[0x20..0x20 + |data|] == data && f[0x20 + |data|..0x20 + |data| + |labl|] == labl
    requires ParseLablSection(labl, e) == Success(labels)
    ensures ParseRseq(f) == Success(Rseq(data, labels))
  {
    var h := Header(e, 0x20, |data|, 0x20 + |data|, |labl|);
    ReadSectionsOf(f, h, labels);
  }

  /** A file built around a DATA image and a LABL image that reads back as
      `labels` parses as those two sections, and its size field holds its
      length. */
  lemma FileRoundTrip(data: Bytes, labl: Bytes, e: Endianness, labels: seq<Label>)
    requires TableFits(|data|) && 0x20 + |data| + |labl| < 0x1_0000_0000
    requires ParseLablSection(labl, e) == Success(labels)
    ensures ParseRseq(FileImage(data, labl, e)) == Success(Rseq(data, labels))
    ensures Field(FileImage(data, labl, e), 8, 4, e) == |FileImage(data, labl, e)|
  {
    HeaderOfImage(data, labl, e);
    ParseFile(FileImage(data, labl, e), data, labl, e, labels);
  }

  /** `parse` applied to the bytes `gen_rseq` writes, from whatever position
      it starts at, gives back the DATA section as written and the labels of
      the LABL section in the order they were written, as long as every size
      fits its 32-bit field. */
  lemma RseqRoundTrip(stream: Bytes, ls: seq<(u32, Name)>, e: Endianness, at: nat)
    requires TableFits(|DataImage(stream, e, at + 0x20)|)
    requires |RseqImage(stream, ls, e, at)| < 0x1_0000_0000
    ensures ParseRseq(RseqImage(stream, ls, e, at)) == Success(Rseq(DataImage(stream, e, at + 0x20), AsLabels(ls)))
    ensures Field(RseqImage(stream, ls, e, at), 8, 4, e) == |RseqImage(stream, ls, e, at)|
  {
    var mid := at + 0x20 + |DataImage(stream, e, at + 0x20)|;
    ContainerGen.RseqImageIs(stream, ls, e, at, mid);
    FileAt(DataImage(stream, e, at + 0x20), ls, e, mid);
  }

  /** A file around any DATA bytes and the LABL image of `ls` written at
      `mid` reads back as those bytes and labels. */
  lemma FileAt(data: Bytes, ls: seq<(u32, Name)>, e: Endianness, mid: nat)
    requires TableFits(|data|)
    requires 0x20 + |data| + |LablImage(ls, mid, e)| < 0x1_0000_0000
    ensures ParseRseq(FileImage(data, LablImage(ls, mid, e), e)) == Success(Rseq(data, AsLabels(ls)))
    ensures Field(FileImage(data, LablImage(ls, mid, e), e), 8, 4, e) == |FileImage(data, LablImage(ls, mid, e), e)|
  {
    LablRoundTrip(ls, mid, e);
    FileRoundTrip(data, LablImage(ls, mid, e), e, AsLabels(ls));
  }
}
