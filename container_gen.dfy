/** The container writer of `src/container/gen.rs`: a section is its name,
    a back-filled length and a body padded to an absolute 32-byte boundary;
    the DATA body is the instruction stream behind a 0xC header word; the
    LABL body is a label count, an offset table back-filled from the record
    lengths, and the records; the file header's size field and section
    table are back-filled last. Every writer method is specified by a pure
    image of the bytes it appends. */
module ContainerGen {
  import opened Common
  import opened Gen
  import opened Instructions
  import opened InstrGen
  import ContainerParser

  // ---------------------------------------------------------------------
  // Byte images

  /** `gen_section(name, func)` at absolute position `at`: the name, the
      length (body, padding and the eight bytes of name and length, cut to
      32 bits), the body, and zeros up to the next multiple of 32. */
  function SectionImage(name: Bytes, body: Bytes, at: nat, e: Endianness): (r: Bytes)
    ensures |r| == |name| + 4 + |body| + Padding(at + |name| + 4 + |body|, 32)
  {
    var pad := Padding(at + |name| + 4 + |body|, 32);
    name + GU32(U32(|body| + pad + 8), e) + body + Zeros(pad)
  }

  /** The DATA body: the section header length 0xC, then the stream. */
  function DataBody(stream: Bytes, e: Endianness): Bytes
  {
    GU32(0xC, e) + stream
  }

  function DataImage(stream: Bytes, e: Endianness, at: nat): Bytes
  {
    SectionImage(ContainerParser.DataName, DataBody(stream, e), at, e)
  }

  /** One LABL record at absolute position `at`: address, name length, the
      name, a zero byte, and zeros up to the next multiple of 4. */
  function RecordImage(l: (u32, Name), at: nat, e: Endianness): (r: Bytes)
    ensures |r| == 9 + |l.1| + Padding(at + 9 + |l.1|, 4)
  {
    GU32(l.0, e) + GU32(U32(|l.1|), e) + l.1 + [0] + Zeros(Padding(at + 9 + |l.1|, 4))
  }

  /** The first `k` records, the first one at absolute position `at`. */
  function Records(ls: seq<(u32, Name)>, at: nat, e: Endianness, k: nat): Bytes
    requires k <= |ls|
  {
    if k == 0 then []
    else
      var prev := Records(ls, at, e, k - 1);
      prev + RecordImage(ls[k - 1], at + |prev|, e)
  }

  /** The lengths `gen_len` reports for the first `k` records. */
  function RecordLengths(ls: seq<(u32, Name)>, at: nat, e: Endianness, k: nat): (r: seq<nat>)
    requires k <= |ls|
    ensures |r| == k
  {
    if k == 0 then []
    else
      var prev := Records(ls, at, e, k - 1);
      RecordLengths(ls, at, e, k - 1) + [|RecordImage(ls[k - 1], at + |prev|, e)|]
  }

  /** The sum of the first `k` lengths. */
  function Sum(lengths: seq<nat>, k: nat): nat
    requires k <= |lengths|
  {
    if k == 0 then 0 else Sum(lengths, k - 1) + lengths[k - 1]
  }

  /** The first `k` entries of the offset table: entry `i` is `base` plus
      the lengths before it, cut to 32 bits. */
  function OffsetTable(lengths: seq<nat>, base: nat, e: Endianness, k: nat): (r: Bytes)
    requires k <= |lengths|
    ensures |r| == 4 * k
  {
    if k == 0 then [] else OffsetTable(lengths, base, e, k - 1) + GU32(U32(base + Sum(lengths, k - 1)), e)
  }

  /** The LABL body with its count field at absolute position `at`. Offsets
      are measured from the count field, so the first record is at offset
      `4 + 4 * count`. */
  function LablBody(ls: seq<(u32, Name)>, at: nat, e: Endianness): Bytes
  {
    var n := |ls|;
    var first := at + 4 + 4 * n;
    GU32(U32(n), e) + OffsetTable(RecordLengths(ls, first, e, n), 4 + 4 * n, e, n) + Records(ls, first, e, n)
  }

  function LablImage(ls: seq<(u32, Name)>, at: nat, e: Endianness): Bytes
  {
    SectionImage(ContainerParser.LablName, LablBody(ls, at + 8, e), at, e)
  }

  /** The section table: DATA at 0x20 with its length, LABL right after it. */
  function SectionTable(dataLen: nat, lablLen: nat, e: Endianness): (r: Bytes)
    requires 0x20 + U32(dataLen) < 0x1_0000_0000
    ensures |r| == 16
  {
    GU32(0x20, e) + GU32(U32(dataLen), e) + GU32(0x20 + U32(dataLen), e) + GU32(U32(lablLen), e)
  }

  /** The sum `0x20 + data_len as u32` does not overflow. */
  predicate TableFits(dataLen: nat)
  {
    0x20 + U32(dataLen) < 0x1_0000_0000
  }

  /** The file around its two section images: magic, byte-order mark,
      version 0x100, file size, header length 0x20, section count 2, the
      section table, then the sections. */
  function FileImage(data: Bytes, labl: Bytes, e: Endianness): (r: Bytes)
    requires TableFits(|data|)
    ensures |r| == 0x20 + |data| + |labl|
  {
    ContainerParser.Magic + Bom(e) + GU16(0x100, e) + GU32(U32(0x20 + |data| + |labl|), e)
      + GU16(0x20, e) + GU16(2, e) + SectionTable(|data|, |labl|, e) + data + labl
  }

  /** The whole file written at absolute position `at`, with `ls` as the
      label list of the LABL section. */
  function RseqImage(stream: Bytes, ls: seq<(u32, Name)>, e: Endianness, at: nat): Bytes
    requires TableFits(|DataImage(stream, e, at + 0x20)|)
  {
    var data := DataImage(stream, e, at + 0x20);
    FileImage(data, LablImage(ls, at + 0x20 + |data|, e), e)
  }

  // ---------------------------------------------------------------------
  // Name order

  /** `a.cmp(b) != Greater` on the bytes of two names. */
  predicate NameLe(a: Name, b: Name)
  {
    |a| == 0 || (|b| > 0 && (a[0] < b[0] || (a[0] == b[0] && NameLe(a[1..], b[1..]))))
  }

  lemma {:induction false} NameLeTotal(a: Name, b: Name)
    ensures NameLe(a, b) || NameLe(b, a)
  {
    if |a| > 0 && |b| > 0 && a[0] == b[0] {
      NameLeTotal(a[1..], b[1..]);
    }
  }

  lemma {:induction false} NameLeTrans(a: Name, b: Name, c: Name)
    requires NameLe(a, b) && NameLe(b, c)
    ensures NameLe(a, c)
  {
    if |a| > 0 && a[0] == b[0] && b[0] == c[0] {
      NameLeTrans(a[1..], b[1..], c[1..]);
    }
  }

  lemma {:induction false} NameLeAntisym(a: Name, b: Name)
    requires NameLe(a, b) && NameLe(b, a)
    ensures a == b
  {
    if |a| > 0 {
      NameLeAntisym(a[1..], b[1..]);
      assert a == [a[0]] + a[1..] && b == [b[0]] + b[1..];
    }
  }

  /** Names in non-decreasing order. */
  predicate SortedByName(s: seq<(u32, Name)>)
  {
    forall k, l :: 0 <= k < l < |s| ==> NameLe(s[k].1, s[l].1)
  }

  /** `l` placed before the first name it does not exceed. */
  function Insert(l: (u32, Name), s: seq<(u32, Name)>): (r: seq<(u32, Name)>)
    ensures multiset(r) == multiset(s) + multiset{l}
  {
    if |s| == 0 then [l]
    else if NameLe(l.1, s[0].1) then [l] + s
    else
      assert s == [s[0]] + s[1..];
      [s[0]] + Insert(l, s[1..])
  }

  /** Insertion into a sorted list keeps it sorted. */
  lemma {:induction false} InsertSorted(l: (u32, Name), s: seq<(u32, Name)>)
    requires SortedByName(s)
    ensures SortedByName(Insert(l, s))
  {
    if |s| > 0 && NameLe(l.1, s[0].1) {
      var r := Insert(l, s);
      forall k, m | 0 <= k < m < |r|
        ensures NameLe(r[k].1, r[m].1)
      {
        if k == 0 && m > 1 {
          NameLeTrans(l.1, s[0].1, s[m - 1].1);
        }
      }
    } else if |s| > 0 {
      var t := Insert(l, s[1..]);
      InsertSorted(l, s[1..]);
      NameLeTotal(l.1, s[0].1);
      forall m | 0 <= m < |t|
        ensures NameLe(s[0].1, t[m].1)
      {
        assert t[m] in multiset(t);
        if t[m] != l {
          assert t[m] in multiset(s[1..]);
          var x :| 0 <= x < |s[1..]| && s[1..][x] == t[m];
          assert s[x + 1] == t[m];
        }
      }
    }
  }

  /** `labels.sort_unstable_by(|(_, a), (_, b)| a.cmp(b))`: the labels in
      order of name. */
  function SortByName(xs: seq<(u32, Name)>): (ys: seq<(u32, Name)>)
    ensures SortedByName(ys) && multiset(ys) == multiset(xs)
  {
    if |xs| == 0 then []
    else
      var t := SortByName(xs[1..]);
      InsertSorted(xs[0], t);
      assert xs == [xs[0]] + xs[1..];
      Insert(xs[0], t)
  }

  // ---------------------------------------------------------------------
  // Writers

  /** Writing over a gap of the same length replaces just the gap. */
  lemma PatchGap(a: Bytes, gap: Bytes, b: Bytes, bs: Bytes)
    requires |gap| == |bs|
    ensures Overwrite(a + gap + b, |a|, bs) == a + bs + b
  {
    assert a + gap + b == a + (gap + b);
    OverwriteRight(a, gap + b, |a|, bs);
    OverwriteLeft(gap, b, 0, bs);
    assert Overwrite(gap, 0, bs) == bs;
    assert a + (bs + b) == a + bs + b;
  }

  lemma Regroup4(p: Bytes, a: Bytes, b: Bytes, c: Bytes, d: Bytes)
    ensures p + a + b + (c + d) == p + (a + b + c + d)
  {
  }

  /** `PatchGap` with the position of the gap given. */
  lemma PatchAt(a: Bytes, gap: Bytes, b: Bytes, bs: Bytes, at: nat)
    requires |gap| == |bs| && at == |a|
    ensures Overwrite(a + gap + b, at, bs) == a + bs + b
  {
    PatchGap(a, gap, b, bs);
  }

  /** The padding `gen_align` writes is the only one below `amount` that
      reaches a multiple of `amount`. */
  lemma PaddingUnique(pos: nat, x: nat, amount: nat)
    requires amount > 0 && x < amount && (pos + x) % amount == 0
    ensures x == Padding(pos, amount)
  {
    var p := Padding(pos, amount);
    var q1, q2 := (pos + x) / amount, (pos + p) / amount;
    assert pos + x == q1 * amount && pos + p == q2 * amount;
    assert x - p == (q1 - q2) * amount;
    MulBounds(q1 - q2, amount);
  }

  /** `gen_align(amount)` at the end of the stream. */
  method AlignEnd(w: Writer, amount: nat)
    requires w.Valid() && w.pos == |w.buf| && amount > 0
    modifies w
    ensures w.Valid() && w.pos == |w.buf| && w.buf == old(w.buf) + Zeros(Padding(old(w.pos), amount))
  {
    ghost var before := w.buf;
    w.Align(amount);
    OverwriteAtEnd(before, Zeros(w.pos - |before|));
    PaddingUnique(|before|, w.pos - |before|, amount);
  }

  /** The section name, then `gen_placeholder(4)` for its length. */
  method OpenSection(w: Writer, name: Bytes) returns (p: Placeholder)
    requires w.Valid() && w.pos == |w.buf|
    modifies w
    ensures w.Valid() && w.pos == |w.buf| && w.buf == old(w.buf) + name + Zeros(4)
    ensures p.pos == old(w.pos) + |name|
  {
    Append(w, name);
    p := w.Reserve(4);
  }

  /** The end of `gen_section`: pad to 32 bytes, then fill the length slot
      with the bytes written after it plus 8. */
  method CloseSection(w: Writer, p: Placeholder, e: Endianness, ghost prefix: Bytes, ghost name: Bytes, ghost body: Bytes)
    requires w.Valid() && w.pos == |w.buf| && w.buf == prefix + name + Zeros(4) + body
    requires p.pos == |prefix| + |name|
    modifies w
    ensures w.Valid() && w.pos == |w.buf| && w.buf == prefix + SectionImage(name, body, |prefix|, e)
  {
    var start := p.pos + 4;
    AlignEnd(w, 32);
    var len := w.pos - start;
    SectionPatched(prefix, name, body, e);
    w.Fill(p, GU32(U32(len + 8), e));
  }

  /** Padding the body and filling the length slot gives the section. */
  lemma SectionPatched(prefix: Bytes, name: Bytes, body: Bytes, e: Endianness)
    ensures
      var pad := Padding(|prefix| + |name| + 4 + |body|, 32);
      Overwrite(prefix + name + Zeros(4) + body + Zeros(pad), |prefix| + |name|, GU32(U32(|body| + pad + 8), e))
        == prefix + SectionImage(name, body, |prefix|, e)
  {
    var pad := Padding(|prefix| + |name| + 4 + |body|, 32);
    SlotPatched(prefix, name, body, Zeros(pad), GU32(U32(|body| + pad + 8), e));
  }

  /** Filling the four-byte slot after `name`, on arbitrary pieces. */
  lemma SlotPatched(prefix: Bytes, name: Bytes, body: Bytes, tail: Bytes, len: Bytes)
    requires |len| == 4
    ensures Overwrite(prefix + name + Zeros(4) + body + tail, |prefix| + |name|, len)
              == prefix + (name + len + body + tail)
  {
    Assoc(prefix + name + Zeros(4), body, tail);
    PatchGap(prefix + name, Zeros(4), body + tail, len);
    Regroup4(prefix, name, len, body, tail);
  }

  /** What `gen_instructions` returns: one `(addr, name)` per label of the
      stream, with its recorded address. */
  predicate Lists(out: seq<(u32, Name)>, table: map<Name, u32>)
  {
    && |out| == |table|
    && (forall x :: x in out ==> x.1 in table && x.0 == table[x.1])
    && (forall n :: n in table ==> exists x :: x in out && x.1 == n)
  }

  /** A permutation of the list lists the same labels. */
  lemma ListsPermutation(xs: seq<(u32, Name)>, ys: seq<(u32, Name)>, table: map<Name, u32>)
    requires Lists(xs, table) && multiset(xs) == multiset(ys)
    ensures Lists(ys, table)
  {
    assert |xs| == |multiset(xs)| == |multiset(ys)| == |ys|;
    forall x | x in ys ensures x in xs {
      assert x in multiset(ys);
    }
    forall n | n in table ensures exists y :: y in ys && y.1 == n {
      var x :| x in xs && x.1 == n;
      assert x in multiset(xs);
      assert x in ys;
    }
  }

  /** `gen_data_section`: the DATA section around the 0xC header word and
      the instruction stream; the labels `gen_instructions` recorded. */
  method GenDataSection(w: Writer, ts: seq<OptionalInst>, e: Endianness) returns (r: Result<seq<(u32, Name)>, Name>)
    requires w.Valid() && w.pos == |w.buf|
    modifies w
    ensures r.Success? <==> Resolved(ts)
    ensures r.Failure? ==> r.error !in Labels(ts)
    ensures r.Success? ==> Lists(r.value, Labels(ts))
    ensures r.Success? ==> w.Valid() && w.pos == |w.buf| && w.buf == old(w.buf) + DataImage(Encode(ts, e), e, old(w.pos))
  {
    ghost var prefix := w.buf;
    var p := OpenSection(w, ContainerParser.DataName);
    Append(w, GU32(0xC, e));
    r := GenInstructions(w, ts, e);
    if r.Success? {
      assert w.buf == prefix + ContainerParser.DataName + Zeros(4) + DataBody(Encode(ts, e), e);
      CloseSection(w, p, e, prefix, ContainerParser.DataName, DataBody(Encode(ts, e), e));
    }
  }

  /** One record of the `try_fold`: `gen_len` around address, name length,
      name, zero byte and `gen_align(4)`. */
  method GenRecord(w: Writer, l: (u32, Name), e: Endianness) returns (len: nat)
    requires w.Valid() && w.pos == |w.buf|
    modifies w
    ensures w.Valid() && w.pos == |w.buf| && w.buf == old(w.buf) + RecordImage(l, old(w.pos), e)
    ensures len == |RecordImage(l, old(w.pos), e)|
  {
    ghost var prefix := w.buf;
    var start := w.pos;
    Append(w, GU32(l.0, e));
    Append(w, GU32(U32(|l.1|), e));
    Append(w, l.1);
    Append(w, [0]);
    AlignEnd(w, 4);
    len := w.pos - start;
  }

  /** The records of `gen_labl_section`, with the length of each. */
  method GenRecords(w: Writer, ls: seq<(u32, Name)>, e: Endianness) returns (lengths: seq<nat>)
    requires w.Valid() && w.pos == |w.buf|
    modifies w
    ensures w.Valid() && w.pos == |w.buf| && w.buf == old(w.buf) + Records(ls, old(w.pos), e, |ls|)
    ensures lengths == RecordLengths(ls, old(w.pos), e, |ls|)
  {
    ghost var prefix := w.buf;
    var at := w.pos;
    lengths := [];
    var k := 0;
    while k < |ls|
      invariant k <= |ls|
      invariant w.Valid() && w.pos == |w.buf| && w.buf == prefix + Records(ls, at, e, k)
      invariant lengths == RecordLengths(ls, at, e, k)
    {
      var len := GenRecord(w, ls[k], e);
      RecordsNext(prefix, ls, at, e, k);
      lengths := lengths + [len];
      k := k + 1;
    }
  }

  lemma RecordsNext(prefix: Bytes, ls: seq<(u32, Name)>, at: nat, e: Endianness, k: nat)
    requires k < |ls|
    ensures
      var prev := Records(ls, at, e, k);
      && prefix + prev + RecordImage(ls[k], at + |prev|, e) == prefix + Records(ls, at, e, k + 1)
      && RecordLengths(ls, at, e, k) + [|RecordImage(ls[k], at + |prev|, e)|] == RecordLengths(ls, at, e, k + 1)
  {
    var prev := Records(ls, at, e, k);
    assert prefix + prev + RecordImage(ls[k], at + |prev|, e) == prefix + (prev + RecordImage(ls[k], at + |prev|, e));
  }

  lemma OverwriteNothing(buf: Bytes, at: nat)
    requires at <= |buf|
    ensures Overwrite(buf, at, []) == buf
  {
  }

  /** The first `i` entries of the offset table are in place. */
  ghost predicate TableWritten(w: Writer, buf0: Bytes, at: nat, lengths: seq<nat>, base: nat, e: Endianness, i: nat)
    reads w
    requires i <= |lengths|
  {
    w.Valid() && w.pos == |w.buf| && w.buf == Overwrite(buf0, at, OffsetTable(lengths, base, e, i))
  }

  /** The offsets fold: entry `i` of the reserved table gets `base` plus the
      lengths of the records before it, as u32. */
  method GenOffsets(w: Writer, q: Placeholder, lengths: seq<nat>, base: nat, e: Endianness)
    requires w.Valid() && w.pos == |w.buf| && q.pos + 4 * |lengths| <= |w.buf|
    modifies w
    ensures w.Valid() && w.pos == |w.buf| && w.buf == Overwrite(old(w.buf), q.pos, OffsetTable(lengths, base, e, |lengths|))
  {
    ghost var buf0 := w.buf;
    var offset := base;
    var i := 0;
    OverwriteNothing(buf0, q.pos);
    while i < |lengths|
      invariant i <= |lengths| && offset == base + Sum(lengths, i)
      invariant TableWritten(w, buf0, q.pos, lengths, base, e, i)
    {
      WriteOffset(w, buf0, q.pos, lengths, base, e, i, offset);
      offset := offset + lengths[i];
      i := i + 1;
    }
  }

  /** One step of the offsets fold. */
  method WriteOffset(w: Writer, ghost buf0: Bytes, at: nat, lengths: seq<nat>, base: nat, e: Endianness, i: nat, offset: nat)
    requires i < |lengths| && at + 4 * |lengths| <= |buf0| && offset == base + Sum(lengths, i)
    requires TableWritten(w, buf0, at, lengths, base, e, i)
    modifies w
    ensures TableWritten(w, buf0, at, lengths, base, e, i + 1)
  {
    ghost var prev := OffsetTable(lengths, base, e, i);
    var entry := GU32(U32(offset), e);
    OffsetTableStep(lengths, base, e, i, offset, entry);
    OverwriteTwice(buf0, at, prev, entry);
    w.Fill(Placeholder(at + 4 * i), entry);
  }

  /** One more entry of the offset table. */
  lemma OffsetTableStep(lengths: seq<nat>, base: nat, e: Endianness, i: nat, offset: nat, entry: Bytes)
    requires i < |lengths| && offset == base + Sum(lengths, i) && entry == GU32(U32(offset), e)
    ensures OffsetTable(lengths, base, e, i + 1) == OffsetTable(lengths, base, e, i) + entry
  {
  }

  /** `gen_labl_section`: the count, the offset table reserved and filled
      after the records, the records, all inside a LABL section. */
  method GenLablSection(w: Writer, ls: seq<(u32, Name)>, e: Endianness)
    requires w.Valid() && w.pos == |w.buf|
    modifies w
    ensures w.Valid() && w.pos == |w.buf| && w.buf == old(w.buf) + LablImage(ls, old(w.pos), e)
  {
    ghost var prefix := w.buf;
    var n := |ls|;
    var p := OpenSection(w, ContainerParser.LablName);
    Append(w, GU32(U32(n), e));
    ghost var head := w.buf;
    var q := w.Reserve(4 * n);
    ghost var first := |head| + 4 * n;
    assert w.buf == head + Zeros(4 * n) && w.pos == first && q.pos == |head|;
    var lengths := GenRecords(w, ls, e);
    ghost var recs := Records(ls, first, e, n);
    assert w.buf == head + Zeros(4 * n) + recs;
    GenOffsets(w, q, lengths, 4 + 4 * n, e);
    assert w.buf == Overwrite(head + Zeros(4 * n) + recs, |head|, OffsetTable(RecordLengths(ls, first, e, n), 4 + 4 * n, e, n));
    LablPatched(prefix, ls, e, head, first);
    CloseSection(w, p, e, prefix, ContainerParser.LablName, LablBody(ls, |prefix| + 8, e));
  }

  /** Filling the reserved offset table in front of the records gives the
      LABL body. */
  lemma LablPatched(prefix: Bytes, ls: seq<(u32, Name)>, e: Endianness, head: Bytes, first: nat)
    requires head == prefix + ContainerParser.LablName + Zeros(4) + GU32(U32(|ls|), e)
    requires first == |head| + 4 * |ls|
    ensures Overwrite(head + Zeros(4 * |ls|) + Records(ls, first, e, |ls|), |head|,
                      OffsetTable(RecordLengths(ls, first, e, |ls|), 4 + 4 * |ls|, e, |ls|))
              == prefix + ContainerParser.LablName + Zeros(4) + LablBody(ls, |prefix| + 8, e)
  {
    PatchAfterCount(prefix + ContainerParser.LablName + Zeros(4), GU32(U32(|ls|), e), Zeros(4 * |ls|),
                    Records(ls, first, e, |ls|), OffsetTable(RecordLengths(ls, first, e, |ls|), 4 + 4 * |ls|, e, |ls|));
    LablBodyParts(ls, |prefix| + 8, e, first);
  }

  /** Filling a gap that follows a count field. */
  lemma PatchAfterCount(front: Bytes, count: Bytes, gap: Bytes, rest: Bytes, bs: Bytes)
    requires |gap| == |bs|
    ensures Overwrite(front + count + gap + rest, |front + count|, bs) == front + (count + bs + rest)
  {
    PatchGap(front + count, gap, rest, bs);
    assert front + count + bs + rest == front + (count + bs + rest);
  }

  lemma LablBodyParts(ls: seq<(u32, Name)>, at: nat, e: Endianness, first: nat)
    requires first == at + 4 + 4 * |ls|
    ensures LablBody(ls, at, e) == GU32(U32(|ls|), e) + OffsetTable(RecordLengths(ls, first, e, |ls|), 4 + 4 * |ls|, e, |ls|)
                                   + Records(ls, first, e, |ls|)
  {
  }

  /** Why `gen_rseq` gives up: a branch to a label the stream never
      defines, or `0x20 + data_len as u32` overflowing. */
  datatype GenFailure = UndefinedLabel(name: Name) | TableOverflow

  /** The first 0x20 bytes of the file as `gen_rseq` writes them before its
      two back-filled slots are filled: the file size at 8 and the section
      table at 16 are still zero. */
  function BlankHeader(e: Endianness): (r: Bytes)
    ensures |r| == 0x20
  {
    ContainerParser.Magic + Bom(e) + GU16(0x100, e) + Zeros(4) + GU16(0x20, e) + GU16(2, e) + Zeros(16)
  }

  /** The header up to the section table, with both slots reserved. */
  method OpenHeader(w: Writer, e: Endianness) returns (sizeSlot: Placeholder, tableSlot: Placeholder)
    requires w.Valid() && w.pos == |w.buf|
    modifies w
    ensures w.Valid() && w.pos == |w.buf| && w.buf == old(w.buf) + BlankHeader(e)
    ensures sizeSlot.pos == old(w.pos) + 8 && tableSlot.pos == old(w.pos) + 16
  {
    ghost var prefix := w.buf;
    Append(w, ContainerParser.Magic);
    Append(w, Bom(e));
    Append(w, GU16(0x100, e));
    sizeSlot := w.Reserve(4);
    Append(w, GU16(0x20, e));
    Append(w, GU16(2, e));
    tableSlot := w.Reserve(16);
    assert w.buf == prefix + ContainerParser.Magic + Bom(e) + GU16(0x100, e) + Zeros(4) + GU16(0x20, e) + GU16(2, e) + Zeros(16);
    Regroup7(prefix, ContainerParser.Magic, Bom(e), GU16(0x100, e), Zeros(4), GU16(0x20, e), GU16(2, e), Zeros(16));
  }

  /** Associativity for the seven pieces of the header. */
  lemma Regroup7(p: Bytes, a: Bytes, b: Bytes, c: Bytes, d: Bytes, f: Bytes, g: Bytes, h: Bytes)
    ensures p + a + b + c + d + f + g + h == p + (a + b + c + d + f + g + h)
  {
  }

  /** Filling the section table and then the file size of a blank header
      followed by the two sections gives the file image. */
  lemma HeaderPatched(prefix: Bytes, data: Bytes, labl: Bytes, e: Endianness, table: Bytes, size: Bytes)
    requires TableFits(|data|)
    requires table == SectionTable(|data|, |labl|, e) && size == GU32(U32(0x20 + |data| + |labl|), e)
    ensures Overwrite(Overwrite(prefix + BlankHeader(e) + data + labl, |prefix| + 16, table), |prefix| + 8, size)
              == prefix + FileImage(data, labl, e)
  {
    Regroup(prefix, BlankHeader(e), ContainerParser.Magic, Bom(e), GU16(0x100, e), GU16(0x20, e), GU16(2, e), data, labl, table, size);
  }

  /** The two back-filled slots of the header, on arbitrary pieces. */
  lemma Regroup(prefix: Bytes, blank: Bytes, magic: Bytes, bom: Bytes, version: Bytes, hdr: Bytes, cnt: Bytes,
                data: Bytes, labl: Bytes, table: Bytes, size: Bytes)
    requires |magic| == 4 && |bom| == 2 && |version| == 2 && |hdr| == 2 && |cnt| == 2
    requires |table| == 16 && |size| == 4
    requires blank == magic + bom + version + Zeros(4) + hdr + cnt + Zeros(16)
    ensures Overwrite(Overwrite(prefix + blank + data + labl, |prefix| + 16, table), |prefix| + 8, size)
              == prefix + (magic + bom + version + size + hdr + cnt + table + data + labl)
  {
    var front := prefix + magic + bom + version;
    var counts := hdr + cnt;
    assert prefix + blank + data + labl == (front + Zeros(4) + counts) + Zeros(16) + (data + labl);
    PatchAt(front + Zeros(4) + counts, Zeros(16), data + labl, table, |prefix| + 16);
    assert front + Zeros(4) + counts + table + (data + labl) == front + Zeros(4) + (counts + table + (data + labl));
    PatchAt(front, Zeros(4), counts + table + (data + labl), size, |prefix| + 8);
    Regroup10(prefix, magic, bom, version, size, hdr, cnt, table, data, labl);
  }

  /** Associativity for the ten pieces of the file. */
  lemma Regroup10(p: Bytes, a: Bytes, b: Bytes, c: Bytes, d: Bytes, f: Bytes, g: Bytes, h: Bytes, k: Bytes, l: Bytes)
    ensures p + a + b + c + d + (f + g + h + (k + l)) == p + (a + b + c + d + f + g + h + k + l)
  {
  }

  /** The two back-filling closures of `gen_rseq`: the section table from
      the two section lengths, then the file size from the length of
      everything after its slot. */
  method FillHeader(w: Writer, sizeSlot: Placeholder, tableSlot: Placeholder, e: Endianness,
                    ghost prefix: Bytes, ghost data: Bytes, ghost labl: Bytes, dataLen: nat, lablLen: nat)
    requires w.Valid() && w.pos == |w.buf|
    requires dataLen == |data| && lablLen == |labl|
    requires w.buf == prefix + BlankHeader(e) + data + labl
    requires TableFits(dataLen)
    requires sizeSlot.pos == |prefix| + 8 && tableSlot.pos == |prefix| + 16
    modifies w
    ensures w.Valid() && w.pos == |w.buf| && w.buf == prefix + FileImage(data, labl, e)
  {
    ghost var full := w.buf;
    var table := SectionTable(dataLen, lablLen, e);
    w.Fill(tableSlot, table);
    var fileSize := w.pos - (sizeSlot.pos + 4) + 0xC;
    assert fileSize == 0x20 + |data| + |labl|;
    var size := GU32(U32(fileSize), e);
    w.Fill(sizeSlot, size);
    assert w.buf == Overwrite(Overwrite(full, |prefix| + 16, table), |prefix| + 8, size);
    HeaderPatched(prefix, data, labl, e, table, size);
  }

  /** The DATA image depends on the position only through its value. */
  lemma DataImageAt(stream: Bytes, e: Endianness, a: nat, b: nat)
    requires a == b
    ensures DataImage(stream, e, a) == DataImage(stream, e, b)
  {
  }

  /** The LABL section after the DATA section, the overflow check of
      `0x20 + data_len as u32`, and the two back-filled slots. */
  method GenTail(w: Writer, ghost stream: Bytes, ls: seq<(u32, Name)>, e: Endianness,
                 sizeSlot: Placeholder, tableSlot: Placeholder, ghost prefix: Bytes, dataLen: nat) returns (fits: bool)
    requires w.Valid() && w.pos == |w.buf| && w.buf == prefix + BlankHeader(e) + DataImage(stream, e, |prefix| + 0x20)
    requires dataLen == |DataImage(stream, e, |prefix| + 0x20)|
    requires sizeSlot.pos == |prefix| + 8 && tableSlot.pos == |prefix| + 16
    modifies w
    ensures fits <==> TableFits(|DataImage(stream, e, |prefix| + 0x20)|)
    ensures fits ==> w.Valid() && w.pos == |w.buf| && w.buf == prefix + RseqImage(stream, ls, e, |prefix|)
  {
    ghost var data := DataImage(stream, e, |prefix| + 0x20);
    var midPos := w.pos;
    GenLablSection(w, ls, e);
    var lablLen := w.pos - midPos;
    if 0x20 + U32(dataLen) >= 0x1_0000_0000 {
      return false;
    }
    FillHeader(w, sizeSlot, tableSlot, e, prefix, data, LablImage(ls, midPos, e), dataLen, lablLen);
    RseqImageIs(stream, ls, e, |prefix|, midPos);
    fits := true;
  }

  /** The file image with the LABL section at `mid`, just after the DATA
      section. */
  lemma RseqImageIs(stream: Bytes, ls: seq<(u32, Name)>, e: Endianness, at: nat, mid: nat)
    requires TableFits(|DataImage(stream, e, at + 0x20)|)
    requires mid == at + 0x20 + |DataImage(stream, e, at + 0x20)|
    ensures RseqImage(stream, ls, e, at) == FileImage(DataImage(stream, e, at + 0x20), LablImage(ls, mid, e), e)
  {
  }

  /** `gen_rseq`: the blank header; the two sections; then the section
      table and the file size are back-filled. */
  method GenRseq(w: Writer, ts: seq<OptionalInst>, e: Endianness) returns (r: Result<(), GenFailure>, ghost sorted: seq<(u32, Name)>)
    requires w.Valid() && w.pos == |w.buf|
    modifies w
    ensures r.Success? <==> Resolved(ts) && TableFits(|DataImage(Encode(ts, e), e, old(w.pos) + 0x20)|)
    ensures !Resolved(ts) ==> r.Failure? && r.error.UndefinedLabel? && r.error.name !in Labels(ts)
    ensures r.Success? ==> SortedByName(sorted) && Lists(sorted, Labels(ts))
    ensures r.Success? ==> w.Valid() && w.pos == |w.buf| && w.buf == old(w.buf) + RseqImage(Encode(ts, e), sorted, e, old(w.pos))
  {
    ghost var prefix := w.buf;
    var sizeSlot, tableSlot := OpenHeader(w, e);
    var startPos := w.pos;
    var res := GenDataSection(w, ts, e);
    if res.Failure? {
      return Failure(UndefinedLabel(res.error)), [];
    }
    var dataLen := w.pos - startPos;
    DataImageAt(Encode(ts, e), e, startPos, |prefix| + 0x20);
    var labels := SortByName(res.value);
    sorted := labels;
    ListsPermutation(res.value, labels, Labels(ts));
    var fits := GenTail(w, Encode(ts, e), labels, e, sizeSlot, tableSlot, prefix, dataLen);
    if !fits {
      return Failure(TableOverflow), sorted;
    }
    r := Success(());
  }
}
