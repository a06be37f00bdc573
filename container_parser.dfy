/** The container reader of `src/container/parser.rs` with the record types
    of `src/container/mod.rs`: the 32-byte RSEQ header (magic, byte-order
    marker, version, file size, header size, section count and the two
    section headers), the slicing of the DATA and LABL sections out of the
    whole file, and the LABL section's offset table of label records. */
module ContainerParser {
  import opened Common
  import opened Gen
  import opened Parse

  /** `Label(addr, name)`: a label's offset in the instruction stream. */
  datatype Label = Label(addr: u32, name: Name)

  /** `RSEQ { data, labels }`: the DATA section's bytes and the labels. */
  datatype Rseq = Rseq(data: Bytes, labels: seq<Label>)

  /** Why a file does not parse: a failed combinator (with the context the
      source attaches to it), or a Rust panic on an out-of-range slice or an
      underflowing subtraction. */
  datatype Error =
    | BadMagic            // tag("RSEQ")
    | BadBom              // "Bad BOM Marker"
    | BadVersion          // "Bad Version"
    | BadHeaderLength     // "Unknown header length"
    | BadSectionCount     // "Unknown section count"
    | BadTag              // tag("LABL")
    | Truncated           // a fixed-width read or a `take` past the end
    | SectionOutOfRange   // `orig_input[off .. off + len]` panics
    | LengthUnderflow     // `len - 0x8` panics below 8
    | BadSectionLength    // "Bad section length?"
    | LabelOutOfRange     // `relative[offset..]` panics

  const Magic: Bytes := [0x52, 0x53, 0x45, 0x51]    // "RSEQ"
  const DataName: Bytes := [0x44, 0x41, 0x54, 0x41] // "DATA"
  const LablName: Bytes := [0x4C, 0x41, 0x42, 0x4C] // "LABL"

  /** `tag(t)`: the input starts with `t`. */
  function ParseTag(input: Bytes, t: Bytes): (r: Option<Bytes>)
    ensures r.Some? <==> |input| >= |t| && input[..|t|] == t
    ensures r.Some? ==> r.value == input[|t|..]
  {
    if |input| >= |t| && input[..|t|] == t then Some(input[|t|..]) else None
  }

  /** `bom`: `FE FF` is big-endian, `FF FE` little-endian. */
  function ParseBom(input: Bytes): (r: Option<(Endianness, Bytes)>)
    ensures r.Some? <==> |input| >= 2 && (input[..2] == [0xFE, 0xFF] || input[..2] == [0xFF, 0xFE])
    ensures r.Some? ==> input[..2] == Bom(r.value.0) && r.value.1 == input[2..]
  {
    if |input| >= 2 && input[0] == 0xFE && input[1] == 0xFF then Some((Big, input[2..]))
    else if |input| >= 2 && input[0] == 0xFF && input[1] == 0xFE then Some((Little, input[2..]))
    else None
  }

  /** The marker the generator writes reads back as its byte order. */
  lemma BomRoundTrip(e: Endianness, rest: Bytes)
    ensures ParseBom(Bom(e) + rest) == Some((e, rest))
  {
    assert (Bom(e) + rest)[2..] == rest;
  }

  // The marker's test vectors.

  lemma BomVectors()
    ensures ParseBom([0xFF, 0xFE, 0x00]) == Some((Little, [0x00]))
    ensures ParseBom([0xFE, 0xFF, 0x00]) == Some((Big, [0x00]))
    ensures ParseBom([0xFE, 0xFE, 0x00]) == None
  {
    assert [0xFF, 0xFE, 0x00][2..] == [0x00];
    assert [0xFE, 0xFF, 0x00][2..] == [0x00];
  }

  /** `parse_label`: the address, then a u32-length-prefixed name. */
  function ParseLabel(input: Bytes, e: Endianness): (r: Option<(Label, Bytes)>)
    ensures r.Some? <==> |input| >= 8 && |input| - 8 >= Value(input[4..8], e)
    ensures r.Some? ==>
      var n := Value(input[4..8], e);
      && r.value.0.addr == Value(input[..4], e) && r.value.0.name == input[8..8 + n]
      && r.value.1 == input[8 + n..]
  {
    match PU32(input, e)
    case None => None
    case Some((addr, rest)) =>
      match PU32(rest, e)
      case None => None
      case Some((n, rest1)) =>
        assert rest[..4] == input[4..8] && rest1 == input[8..];
        if |rest1| < n then None else Some((Label(addr, rest1[..n]), rest1[n..]))
  }

  /** The offset-table entry `entry` points at a record within `relative`
      that reads back as `l`. */
  predicate EntryAt(relative: Bytes, e: Endianness, entry: Bytes, l: Label)
  {
    Value(entry, e) <= |relative| && ParseLabel(relative[Value(entry, e)..], e).Some?
    && ParseLabel(relative[Value(entry, e)..], e).value.0 == l
  }

  /** `map_parser(label_location, parse_label)`: an offset, then the
      label record at that offset within `relative`. */
  function ParseEntry(input: Bytes, relative: Bytes, e: Endianness): (r: Result<Label, Error>)
    ensures r.Success? <==> |input| >= 4 && Value(input[..4], e) <= |relative| && ParseLabel(relative[Value(input[..4], e)..], e).Some?
    ensures r.Success? ==> EntryAt(relative, e, input[..4], r.value)
  {
    match PU32(input, e)
    case None => Failure(Truncated)
    case Some((off, _)) =>
      if off > |relative| then Failure(LabelOutOfRange)
      else
        match ParseLabel(relative[off..], e)
        case None => Failure(Truncated)
        case Some((l, _)) => Success(l)
  }

  /** Entry `i` of the offset table and everything after it. */
  function EntrySlot(table: Bytes, i: nat): (r: Bytes)
    requires 4 * i <= |table|
    ensures |r| == |table| - 4 * i
  {
    table[4 * i..]
  }

  /** `count(..., cnt)`: entries 0 .. cnt - 1 of the offset table, read in
      order; the first entry that fails decides the error. Label `i` is what
      entry `i` of the table reads. */
  function ParseLabels(table: Bytes, relative: Bytes, e: Endianness, cnt: nat): (r: Result<seq<Label>, Error>)
    ensures r.Success? ==> |r.value| == cnt && |table| >= 4 * cnt
    ensures r.Success? ==> forall i {:trigger EntrySlot(table, i)} :: 0 <= i < cnt ==> ParseEntry(EntrySlot(table, i), relative, e) == Success(r.value[i])
  {
    if cnt == 0 then Success([])
    else
      match ParseLabels(table, relative, e, cnt - 1)
      case Failure(err) => Failure(err)
      case Success(ls) =>
        match ParseEntry(EntrySlot(table, cnt - 1), relative, e)
        case Failure(err) => Failure(err)
        case Success(l) =>
          EntriesStep(table, relative, e, cnt, ls, l);
          Success(ls + [l])
  }

  /** One more entry read keeps label `i` equal to what entry `i` reads. */
  lemma EntriesStep(table: Bytes, relative: Bytes, e: Endianness, cnt: nat, ls: seq<Label>, l: Label)
    requires cnt > 0 && |ls| == cnt - 1 && |table| >= 4 * cnt
    requires forall i {:trigger EntrySlot(table, i)} :: 0 <= i < cnt - 1 ==> ParseEntry(EntrySlot(table, i), relative, e) == Success(ls[i])
    requires ParseEntry(EntrySlot(table, cnt - 1), relative, e) == Success(l)
    ensures forall i {:trigger EntrySlot(table, i)} :: 0 <= i < cnt ==> ParseEntry(EntrySlot(table, i), relative, e) == Success((ls + [l])[i])
  {
    forall i | 0 <= i < cnt
      ensures ParseEntry(EntrySlot(table, i), relative, e) == Success((ls + [l])[i])
    {
      if i == cnt - 1 {
        assert (ls + [l])[i] == l;
      } else {
        assert (ls + [l])[i] == ls[i];
      }
    }
  }

  /** `parse_labl_section`: the tag, the section length, the part of the
      section after the length field (which label offsets are relative to:
      it starts at the count field), the count, and the labels. */
  function ParseLablSection(input: Bytes, e: Endianness): (r: Result<seq<Label>, Error>)
    ensures r.Success? ==> |input| >= 12 && input[..4] == LablName
    ensures r.Success? ==>
      var len := Value(input[4..8], e);
      8 <= len <= |input| && |r.value| == Value(input[8..12], e)
      && ParseLabels(input[12..], input[8..len], e, Value(input[8..12], e)) == Success(r.value)
    ensures |input| >= 12 && input[..4] == LablName && 8 <= Value(input[4..8], e) <= |input| ==>
      r == ParseLabels(input[12..], input[8..Value(input[4..8], e)], e, Value(input[8..12], e))
    ensures |input| >= 8 && input[..4] == LablName && Value(input[4..8], e) < 8 ==> r == Failure(LengthUnderflow)
    ensures |input| < 4 || input[..4] != LablName ==> r == Failure(BadTag)
  {
    match ParseTag(input, LablName)
    case None => Failure(BadTag)
    case Some(rest) =>
      match PU32(rest, e)
      case None => Failure(Truncated)
      case Some((len, rest1)) =>
        assert rest[..4] == input[4..8];
        if len < 8 then Failure(LengthUnderflow)
        else if |rest1| < len - 8 then Failure(BadSectionLength)
        else
          var relative := rest1[..len - 8];
          match PU32(rest1, e)
          case None => Failure(Truncated)
          case Some((cnt, rest2)) =>
            assert rest1[..4] == input[8..12] && rest2 == input[12..] && relative == input[8..len];
            ParseLabels(rest2, relative, e, cnt)
  }

  /** The header fields at their offsets, read in byte order `e`. */
  function Field(orig: Bytes, at: nat, width: nat, e: Endianness): nat
    requires at + width <= |orig|
  {
    Value(orig[at..at + width], e)
  }

  /** The header checks `parse` makes: magic, byte-order marker, version
      0x100, header length 0x20 and two sections. The file size at offset 8
      is not checked. */
  predicate HeaderOk(orig: Bytes, e: Endianness)
  {
    && |orig| >= 0x20
    && orig[..4] == Magic
    && orig[4..6] == Bom(e)
    && Field(orig, 6, 2, e) == 0x100
    && Field(orig, 12, 2, e) == 0x20
    && Field(orig, 14, 2, e) == 2
  }

  /** The byte order the marker at offset 4 announces. */
  function OrderOf(orig: Bytes): Endianness
    requires |orig| > 4
  {
    if orig[4] == 0xFE then Big else Little
  }

  /** `&orig_input[off .. off + len]` is in range: otherwise the 32-bit
      addition overflows or the slice passes the end, and either panics. */
  predicate InFile(orig: Bytes, off: u32, len: u32)
  {
    off + len < 0x1_0000_0000 && off + len <= |orig|
  }

  /** A fixed-width read with the header check `verify` attaches to it. */
  function Check16(input: Bytes, e: Endianness, want: u16, err: Error): (r: Result<Bytes, Error>)
    ensures r.Success? <==> |input| >= 2 && Value(input[..2], e) == want
    ensures r.Success? ==> r.value == input[2..]
    ensures r.Failure? ==> r.error == if |input| < 2 then Truncated else err
  {
    match PU16(input, e)
    case None => Failure(Truncated)
    case Some((v, rest)) => if v == want then Success(rest) else Failure(err)
  }

  /** The byte order and the two section headers (offset, length). */
  datatype Header = Header(order: Endianness, dataOff: u32, dataLen: u32, lablOff: u32, lablLen: u32)

  /** Only the file-size field is written over: the header reads the same. */
  lemma HeaderIgnoresFileSize(orig: Bytes, size: Bytes)
    requires |orig| >= 12 && |size| == 4
    ensures ParseHeader(orig[..8] + size + orig[12..]) == ParseHeader(orig)
  {
    var other := orig[..8] + size + orig[12..];
    assert other[..8] == orig[..8] && other[12..] == orig[12..];
    SameHeader(other, orig);
  }

  /** `parse` reads the header from the first eight bytes and the bytes
      from offset 12 on. */
  lemma SameHeader(a: Bytes, b: Bytes)
    requires |a| == |b| >= 12 && a[..8] == b[..8] && a[12..] == b[12..]
    ensures ParseHeader(a) == ParseHeader(b)
  {
    assert a[..4] == a[..8][..4] && b[..4] == b[..8][..4];
    assert a[4..][..2] == a[..8][4..6] && b[4..][..2] == b[..8][4..6];
    assert a[4..][0] == a[..8][4] && b[4..][0] == b[..8][4];
    assert a[4..][1] == a[..8][5] && b[4..][1] == b[..8][5];
    assert a[4..][2..] == a[6..] && b[4..][2..] == b[6..];
    assert a[6..][..2] == a[..8][6..8] && b[6..][..2] == b[..8][6..8];
    assert a[6..][2..] == a[8..] && b[6..][2..] == b[8..];
    assert a[8..][4..] == a[12..] && b[8..][4..] == b[12..];
  }

  /** The fixed part of `parse`: magic, marker, version, file size,
      header length, section count and the two section headers. */
  function ParseHeader(orig: Bytes): (r: Result<Header, Error>)
    ensures r.Success? <==> |orig| >= 0x20 && HeaderOk(orig, OrderOf(orig))
    ensures r.Success? ==> r.value.order == OrderOf(orig)
    ensures r.Success? ==>
      var e := r.value.order;
      && r.value.dataOff == Field(orig, 16, 4, e) && r.value.dataLen == Field(orig, 20, 4, e)
      && r.value.lablOff == Field(orig, 24, 4, e) && r.value.lablLen == Field(orig, 28, 4, e)
    ensures (|orig| < 4 || orig[..4] != Magic) ==> r == Failure(BadMagic)
  {
    match ParseTag(orig, Magic)
    case None => Failure(BadMagic)
    case Some(r4) =>
      match ParseBom(r4)
      case None => Failure(BadBom)
      case Some((e, r6)) =>
        assert r6 == orig[6..] && orig[4..6] == Bom(e) && e == OrderOf(orig);
        match Check16(r6, e, 0x100, BadVersion)
        case Failure(err) => assert |orig| >= 8 ==> r6[..2] == orig[6..8]; Failure(err)
        case Success(r8) =>
          assert r8 == orig[8..] && r6[..2] == orig[6..8];
          match PU32(r8, e)
          case None => Failure(Truncated)
          case Some((_, r12)) =>
            assert r12 == orig[12..];
            match Check16(r12, e, 0x20, BadHeaderLength)
            case Failure(err) => assert |orig| >= 14 ==> r12[..2] == orig[12..14]; Failure(err)
            case Success(r14) =>
              assert r14 == orig[14..] && r12[..2] == orig[12..14];
              match Check16(r14, e, 2, BadSectionCount)
              case Failure(err) => assert |orig| >= 16 ==> r14[..2] == orig[14..16]; Failure(err)
              case Success(r16) =>
                assert r16 == orig[16..] && r14[..2] == orig[14..16];
                match SectionHeaders(r16, e)
                case None => Failure(Truncated)
                case Some((d0, d1, l0, l1)) =>
                  HeaderFields(orig, e);
                  Success(Header(e, d0, d1, l0, l1))
  }

  lemma HeaderFields(orig: Bytes, e: Endianness)
    requires |orig| >= 0x20
    ensures orig[6..][..2] == orig[6..8] && orig[12..][..2] == orig[12..14] && orig[14..][..2] == orig[14..16]
    ensures orig[16..][..4] == orig[16..20] && orig[16..][4..8] == orig[20..24]
    ensures orig[16..][8..12] == orig[24..28] && orig[16..][12..16] == orig[28..32]
  {
  }

  /** `parse`: the header, then the two sections sliced out of the whole
      file and the labels read from the LABL section. */
  function ParseRseq(orig: Bytes): (r: Result<Rseq, Error>)
    ensures r.Success? ==> |orig| >= 0x20 && HeaderOk(orig, OrderOf(orig))
    ensures (|orig| < 4 || orig[..4] != Magic) ==> r == Failure(BadMagic)
  {
    match ParseHeader(orig)
    case Failure(err) => Failure(err)
    case Success(h) => ReadSections(orig, h)
  }

  /** The second half of `parse`: the DATA and LABL sections at the offsets
      and lengths the section headers give, both measured from the start of
      the file (a range that overflows 32 bits or passes the end is an
      error), then the labels of the LABL section. */
  function ReadSections(orig: Bytes, h: Header): (r: Result<Rseq, Error>)
    ensures r.Success? ==>
      && InFile(orig, h.dataOff, h.dataLen) && InFile(orig, h.lablOff, h.lablLen)
      && r.value.data == orig[h.dataOff..h.dataOff + h.dataLen]
      && ParseLablSection(orig[h.lablOff..h.lablOff + h.lablLen], h.order) == Success(r.value.labels)
    ensures !InFile(orig, h.dataOff, h.dataLen) || !InFile(orig, h.lablOff, h.lablLen) ==> r == Failure(SectionOutOfRange)
  {
    if !InFile(orig, h.dataOff, h.dataLen) || !InFile(orig, h.lablOff, h.lablLen) then Failure(SectionOutOfRange)
    else WithLabels(orig[h.dataOff..h.dataOff + h.dataLen], ParseLablSection(orig[h.lablOff..h.lablOff + h.lablLen], h.order))
  }

  /** The file read from its DATA bytes and the outcome of reading its
      labels: an error in the labels is the error of `parse`. */
  function WithLabels(data: Bytes, labels: Result<seq<Label>, Error>): (r: Result<Rseq, Error>)
    ensures r.Success? <==> labels.Success?
    ensures r.Success? ==> r.value == Rseq(data, labels.value)
    ensures r.Failure? ==> r.error == labels.error
  {
    if labels.Failure? then Failure(labels.error) else Success(Rseq(data, labels.value))
  }

  /** Sections in range and a LABL section that reads back as `labels`
      are all the second half of `parse` needs. */
  lemma ReadSectionsOf(orig: Bytes, h: Header, labels: seq<Label>)
    requires InFile(orig, h.dataOff, h.dataLen) && InFile(orig, h.lablOff, h.lablLen)
    requires ParseLablSection(orig[h.lablOff..h.lablOff + h.lablLen], h.order) == Success(labels)
    ensures ReadSections(orig, h) == Success(Rseq(orig[h.dataOff..h.dataOff + h.dataLen], labels))
  {
    ReadSectionsUnfold(orig, h);
  }

  /** Sections in range leave `parse` with the outcome of reading the LABL
      section. */
  lemma ReadSectionsUnfold(orig: Bytes, h: Header)
    requires InFile(orig, h.dataOff, h.dataLen) && InFile(orig, h.lablOff, h.lablLen)
    ensures ReadSections(orig, h)
      == WithLabels(orig[h.dataOff..h.dataOff + h.dataLen], ParseLablSection(orig[h.lablOff..h.lablOff + h.lablLen], h.order))
  {
  }

  /** What a successful `parse` returns: the header reads, and the
      sections it locates read as the result. */
  lemma ParseRseqSections(orig: Bytes)
    requires ParseRseq(orig).Success?
    ensures ParseHeader(orig).Success?
    ensures
      var h := ParseHeader(orig).value;
      && InFile(orig, h.dataOff, h.dataLen) && InFile(orig, h.lablOff, h.lablLen)
      && ParseRseq(orig).value.data == orig[h.dataOff..h.dataOff + h.dataLen]
      && ParseLablSection(orig[h.lablOff..h.lablOff + h.lablLen], h.order) == Success(ParseRseq(orig).value.labels)
  {
  }

  /** `section_header` twice: offset and length of DATA, then of LABL. */
  function SectionHeaders(input: Bytes, e: Endianness): (r: Option<(u32, u32, u32, u32)>)
    ensures r.Some? <==> |input| >= 16
    ensures r.Some? ==> r.value == (Value(input[..4], e), Value(input[4..8], e), Value(input[8..12], e), Value(input[12..16], e))
  {
    if |input| < 16 then None
    else
      var a, b, c, d := PU32(input, e).value.0, PU32(input[4..], e).value.0, PU32(input[8..], e).value.0, PU32(input[12..], e).value.0;
      assert input[4..][..4] == input[4..8] && input[8..][..4] == input[8..12] && input[12..][..4] == input[12..16];
      Some((a, b, c, d))
  }

}
