/** Decoding a whole instruction stream that `gen_instructions` wrote:
    `parse_instructions`, given the map from every label's address to its
    name, gives back the original token stream, label tokens included, as
    long as the stream is one the decoder can reproduce. */
module StreamTrip {
  import opened Common
  import opened Gen
  import opened Parse
  import opened Instructions
  import opened InstrParser
  import opened InstrGen
  import opened RoundTrip

  /** No two label tokens follow each other: the decoder emits at most one
      label per offset. */
  predicate NoAdjacentLabels(ts: seq<OptionalInst>)
  {
    forall i :: 0 <= i < |ts| - 1 ==> !(ts[i].Label? && ts[i + 1].Label?)
  }

  /** Every label name is defined at most once: the label table keeps only
      the last definition of a name. */
  predicate UniqueDefs(ts: seq<OptionalInst>)
  {
    forall i, j :: 0 <= i < j < |ts| && ts[i].Label? && ts[j].Label? ==> ts[i].name != ts[j].name
  }

  /** A stream the decoder reproduces: labels at distinct offsets and with
      distinct names, every instruction well formed and branching to a
      defined label, every raw byte an opcode the decoder does not know, and
      an encoding short enough for 24-bit addresses. */
  predicate Reproducible(ts: seq<OptionalInst>)
  {
    && NoAdjacentLabels(ts)
    && UniqueDefs(ts)
    && (forall i :: 0 <= i < |ts| && ts[i].Inst? ==>
          WellFormed(ts[i].i) && (DestOf(ts[i].i).Some? ==> DestOf(ts[i].i).value.DestLabel?))
    && (forall i :: 0 <= i < |ts| && ts[i].Byte? ==> UnknownOpcode(ts[i].b))
    && Resolved(ts)
    && Len(ts, |ts|) < 0x100_0000
  }

  /** `labels` is the decoder's view of a label table: each label's address
      maps back to its name, and nothing else is in it. */
  predicate Inverts(labels: map<u32, Name>, table: map<Name, u32>)
  {
    && (forall n :: n in table ==> table[n] in labels && labels[table[n]] == n)
    && (forall a :: a in labels ==> exists n :: n in table && table[n] == a)
  }

  /** The label token at index `i`, if there is one. */
  function FollowLabel(ts: seq<OptionalInst>, i: nat): (r: seq<OptionalInst>)
    ensures |r| <= 1
  {
    if i < |ts| && ts[i].Label? then [ts[i]] else []
  }

  // ---------------------------------------------------------------------
  // Offsets

  lemma {:induction false} LenMono(ts: seq<OptionalInst>, a: nat, b: nat)
    requires a <= b <= |ts|
    ensures Len(ts, a) <= Len(ts, b)
  {
    if a < b {
      LenMono(ts, a, b - 1);
    }
  }

  /** A token that is not a label takes at least one byte. */
  lemma LenStrict(ts: seq<OptionalInst>, a: nat, b: nat)
    requires a < b <= |ts| && !ts[a].Label?
    ensures Len(ts, a) < Len(ts, b)
  {
    LenMono(ts, a + 1, b);
  }

  /** A label at index `i` and a boundary `m` with no label on either side
      sit at different offsets. */
  lemma LenDistinct(ts: seq<OptionalInst>, i: nat, m: nat)
    requires i < |ts| && ts[i].Label? && m <= |ts|
    requires m == |ts| || !ts[m].Label?
    requires m == 0 || !ts[m - 1].Label?
    ensures Len(ts, i) != Len(ts, m)
  {
    if i < m {
      LenMono(ts, i, m - 1);
      LenStrict(ts, m - 1, m);
    } else {
      LenStrict(ts, m, i);
    }
  }

  // ---------------------------------------------------------------------
  // The label table

  /** A defined name was last defined by a label token at its offset. */
  lemma {:induction false} DefsWitness(ts: seq<OptionalInst>, k: nat, n: Name)
    requires k <= |ts| && n in Defs(ts, 0, k)
    ensures exists i :: 0 <= i < k && ts[i].Label? && ts[i].name == n && Defs(ts, 0, k)[n] == Len(ts, i)
  {
    if !(ts[k - 1].Label? && ts[k - 1].name == n) {
      DefsWitness(ts, k - 1, n);
    }
  }

  /** With unique names, every label token's name is defined at its offset. */
  lemma {:induction false} DefsAt(ts: seq<OptionalInst>, k: nat, i: nat)
    requires UniqueDefs(ts) && i < k <= |ts| && ts[i].Label?
    ensures ts[i].name in Defs(ts, 0, k) && Defs(ts, 0, k)[ts[i].name] == Len(ts, i)
  {
    if i < k - 1 {
      DefsAt(ts, k - 1, i);
    }
  }

  /** The table holds each defined name's offset, which fits 24 bits. */
  lemma TableValue(ts: seq<OptionalInst>, n: Name)
    requires Len(ts, |ts|) < 0x100_0000 && n in Labels(ts)
    ensures n in Defs(ts, 0, |ts|) && Labels(ts)[n] == Defs(ts, 0, |ts|)[n] < 0x100_0000
  {
    DefsBounds(ts, 0, |ts|);
  }

  /** A name a token mentions is among the stream's names. */
  lemma {:induction false} NamedMember(ts: seq<OptionalInst>, j: nat, k: nat)
    requires j < k <= |ts| && RefName(ts[j]).Some?
    ensures RefName(ts[j]).value in Named(ts, k)
  {
    if j < k - 1 {
      NamedMember(ts, j, k - 1);
    }
  }

  /** The decoder's map has the label of a label token at its offset. */
  lemma LabelAtLabel(ts: seq<OptionalInst>, labels: map<u32, Name>, i: nat)
    requires Reproducible(ts) && Inverts(labels, Labels(ts))
    requires i < |ts| && ts[i].Label?
    ensures LabelAt(labels, Len(ts, i)) == [ts[i]]
  {
    DefsAt(ts, |ts|, i);
    LenMono(ts, i, |ts|);
    TableValue(ts, ts[i].name);
  }

  /** ... and nothing at a boundary with no label token on either side. */
  lemma LabelAtGap(ts: seq<OptionalInst>, labels: map<u32, Name>, m: nat)
    requires Reproducible(ts) && Inverts(labels, Labels(ts))
    requires m <= |ts| && (m == |ts| || !ts[m].Label?) && (m == 0 || !ts[m - 1].Label?)
    ensures LabelAt(labels, Len(ts, m)) == []
  {
    LenMono(ts, m, |ts|);
    forall n | n in Labels(ts)
      ensures Labels(ts)[n] != Len(ts, m)
    {
      TableValue(ts, n);
      DefsWitness(ts, |ts|, n);
      var i :| 0 <= i < |ts| && ts[i].Label? && ts[i].name == n && Defs(ts, 0, |ts|)[n] == Len(ts, i);
      LenDistinct(ts, i, m);
    }
  }

  // ---------------------------------------------------------------------
  // The bytes of one token

  lemma {:induction false} AssemblePrefix(ts: seq<OptionalInst>, e: Endianness, table: map<Name, u32>, k: nat, m: nat)
    requires k <= m <= |ts|
    ensures Len(ts, k) <= Len(ts, m) && Assemble(ts, e, table, m)[..Len(ts, k)] == Assemble(ts, e, table, k)
  {
    LenMono(ts, k, m);
    if k == m {
      var a := Assemble(ts, e, table, m);
      assert a[..|a|] == a;
    } else {
      AssemblePrefix(ts, e, table, k, m - 1);
      var a := Assemble(ts, e, table, m - 1);
      var t := TokenBytes(ts[m - 1], e, Resolve(ts[m - 1], table));
      assert Assemble(ts, e, table, m) == a + t;
      PrefixOfConcat(a, t, Len(ts, k));
    }
  }

  lemma PrefixOfConcat<T>(x: seq<T>, y: seq<T>, n: nat)
    requires n <= |x|
    ensures (x + y)[..n] == x[..n]
  {
  }

  /** The encoding from a token's offset on is its bytes, then the rest. */
  lemma TokenSlice(ts: seq<OptionalInst>, e: Endianness, j: nat)
    requires j < |ts|
    ensures var input := Encode(ts, e);
      Len(ts, j + 1) <= |input|
      && input[Len(ts, j)..] == TokenBytes(ts[j], e, Resolve(ts[j], Labels(ts))) + input[Len(ts, j + 1)..]
  {
    var input := Encode(ts, e);
    AssemblePrefix(ts, e, Labels(ts), j + 1, |ts|);
    LenMono(ts, j + 1, |ts|);
    var x := Assemble(ts, e, Labels(ts), j);
    var t := TokenBytes(ts[j], e, Resolve(ts[j], Labels(ts)));
    assert input[..Len(ts, j + 1)] == x + t;
    assert input[Len(ts, j)..Len(ts, j + 1)] == t;
    assert input[Len(ts, j)..] == input[Len(ts, j)..Len(ts, j + 1)] + input[Len(ts, j + 1)..];
  }

  /** An instruction of a reproducible stream decodes from its patched
      bytes. */
  lemma InstDecodable(ts: seq<OptionalInst>, labels: map<u32, Name>, j: nat)
    requires Reproducible(ts) && Inverts(labels, Labels(ts))
    requires j < |ts| && ts[j].Inst?
    ensures Decodable(ts[j].i, Resolve(ts[j], Labels(ts)), labels)
  {
    var t := ts[j];
    if RefName(t).Some? {
      var n := RefName(t).value;
      NamedMember(ts, j, |ts|);
      TableValue(ts, n);
    }
  }

  /** The decoder's step where an instruction's bytes start. */
  lemma InstStep(input: Bytes, e: Endianness, labels: map<u32, Name>, pos: nat, next: nat,
                 i: Instruction, fill: Option<u32>)
    requires pos <= next <= |input| && Decodable(i, fill, labels)
    requires input[pos..] == InstBytes(i, e, fill) + input[next..]
    ensures pos < |input| && NextToken(input, e, labels, pos) == Token(Inst(i), next)
  {
    InstrRoundTrip(i, e, fill, labels, input[next..]);
    assert ParseInstr(input[pos..], e, labels) == Decoded(i, input[next..]);
  }

  /** The decoder's step at a byte no opcode starts with. */
  lemma ByteStep(input: Bytes, e: Endianness, labels: map<u32, Name>, pos: nat)
    requires pos < |input| && UnknownOpcode(input[pos])
    ensures NextToken(input, e, labels, pos) == Token(Byte(input[pos]), pos + 1)
  {
    DispatchTable(input[pos..], e, labels);
  }

  /** The decoder's step at a token's offset yields that token and the
      offset after it. */
  lemma TokenAt(ts: seq<OptionalInst>, e: Endianness, labels: map<u32, Name>, j: nat)
    requires Reproducible(ts) && Inverts(labels, Labels(ts))
    requires j < |ts| && !ts[j].Label?
    ensures Len(ts, j) < |Encode(ts, e)|
    ensures NextToken(Encode(ts, e), e, labels, Len(ts, j)) == Token(ts[j], Len(ts, j + 1))
  {
    var input := Encode(ts, e);
    var pos, next := Len(ts, j), Len(ts, j + 1);
    TokenSlice(ts, e, j);
    if ts[j].Inst? {
      InstDecodable(ts, labels, j);
      InstStep(input, e, labels, pos, next, ts[j].i, Resolve(ts[j], Labels(ts)));
    } else {
      assert input[pos..][0] == ts[j].b;
      ByteStep(input, e, labels, pos);
    }
  }

  // ---------------------------------------------------------------------
  // The scan

  /** The working label map `out_labels` at token index `j`: every label
      still to come is found at the offset after the token before it. */
  predicate Pending(work: map<u32, Name>, ts: seq<OptionalInst>, j: nat)
  {
    forall i :: j <= i < |ts| && !ts[i].Label? ==> LabelAt(work, Len(ts, i + 1)) == FollowLabel(ts, i + 1)
  }

  /** Removing the offset just passed keeps every label still to come. */
  lemma PendingStep(ts: seq<OptionalInst>, work: map<u32, Name>, j: nat, j': nat)
    requires Len(ts, |ts|) < 0x100_0000
    requires j < j' <= |ts| && Len(ts, j') == Len(ts, j + 1) && Pending(work, ts, j)
    ensures Pending(work - {U32(Len(ts, j + 1))}, ts, j')
  {
    var next := Len(ts, j + 1);
    forall i | j' <= i < |ts| && !ts[i].Label?
      ensures LabelAt(work - {U32(next)}, Len(ts, i + 1)) == FollowLabel(ts, i + 1)
    {
      LenMono(ts, j', i);
      LenStrict(ts, i, i + 1);
      LenMono(ts, i + 1, |ts|);
    }
  }

  /** The label at `j + 1`, if any, is followed by a token or the end at
      the next token index `j'`. */
  lemma SkipLabel(ts: seq<OptionalInst>, j: nat) returns (j': nat)
    requires NoAdjacentLabels(ts) && j < |ts| && !ts[j].Label?
    ensures j' == j + 1 + |FollowLabel(ts, j + 1)|
    ensures j' <= |ts| && (j' == |ts| || !ts[j'].Label?) && Len(ts, j') == Len(ts, j + 1)
    ensures ts[j..] == [ts[j]] + FollowLabel(ts, j + 1) + ts[j'..]
  {
    j' := j + 1 + |FollowLabel(ts, j + 1)|;
    if j' == j + 2 {
      assert ts[j..] == [ts[j]] + [ts[j + 1]] + ts[j + 2..];
    } else {
      assert ts[j..] == [ts[j]] + ts[j + 1..];
    }
  }

  /** From token index `j` on, the scan gives back the rest of the stream. */
  lemma {:induction false} ScanSuffix(ts: seq<OptionalInst>, e: Endianness, labels: map<u32, Name>,
                                      work: map<u32, Name>, j: nat)
    requires Reproducible(ts) && Inverts(labels, Labels(ts))
    requires j <= |ts| && (j == |ts| || !ts[j].Label?) && Pending(work, ts, j)
    requires Len(ts, j) <= |Encode(ts, e)|
    ensures ScanFrom(Encode(ts, e), e, labels, work, Len(ts, j)) == Success(ts[j..])
    decreases |ts| - j
  {
    var input := Encode(ts, e);
    if j < |ts| {
      var next := Len(ts, j + 1);
      TokenAt(ts, e, labels, j);
      var j' := SkipLabel(ts, j);
      PendingStep(ts, work, j, j');
      ScanSuffix(ts, e, labels, work - {U32(next)}, j');
      ScanStep(input, e, labels, work, Len(ts, j), ts[j], next, FollowLabel(ts, j + 1), ts[j'..]);
    } else {
      assert Len(ts, j) == |input| && ts[j..] == [];
      ScanEnd(input, e, labels, work);
    }
  }

  /** The scan stops at the end of the input. */
  lemma ScanEnd(input: Bytes, e: Endianness, labels: map<u32, Name>, work: map<u32, Name>)
    ensures ScanFrom(input, e, labels, work, |input|) == Success([])
  {
  }

  /** One token of the scan, then the label at the offset after it. */
  lemma ScanStep(input: Bytes, e: Endianness, labels: map<u32, Name>, work: map<u32, Name>, pos: nat,
                 t: OptionalInst, next: nat, follow: seq<OptionalInst>, tail: seq<OptionalInst>)
    requires pos < |input| && NextToken(input, e, labels, pos) == Token(t, next)
    requires LabelAt(work, next) == follow
    requires ScanFrom(input, e, labels, work - {U32(next)}, next) == Success(tail)
    ensures ScanFrom(input, e, labels, work, pos) == Success([t] + follow + tail)
  {
  }

  /** `parse_instructions` given the inverse of the label table reproduces
      the token stream `gen_instructions` encoded. */
  lemma StreamRoundTrip(ts: seq<OptionalInst>, e: Endianness, labels: map<u32, Name>)
    requires Reproducible(ts) && Inverts(labels, Labels(ts))
    ensures Scan(Encode(ts, e), e, labels) == Success(ts)
  {
    var j0 := |FollowLabel(ts, 0)|;
    PendingInit(ts, labels);
    assert Len(ts, j0) == 0;
    ScanSuffix(ts, e, labels, labels - {U32(0)}, j0);
    assert ts == FollowLabel(ts, 0) + ts[j0..];
  }

  /** Before the scan: the label at offset 0 is the stream's first token if
      that is a label, and every later label is still pending. */
  lemma PendingInit(ts: seq<OptionalInst>, labels: map<u32, Name>)
    requires Reproducible(ts) && Inverts(labels, Labels(ts))
    ensures LabelAt(labels, 0) == FollowLabel(ts, 0)
    ensures Pending(labels - {U32(0)}, ts, |FollowLabel(ts, 0)|)
  {
    forall i | 0 <= i < |ts| && !ts[i].Label?
      ensures LabelAt(labels, Len(ts, i + 1)) == FollowLabel(ts, i + 1)
    {
      if i + 1 < |ts| && ts[i + 1].Label? {
        LabelAtLabel(ts, labels, i + 1);
      } else {
        LabelAtGap(ts, labels, i + 1);
      }
    }
    if |FollowLabel(ts, 0)| == 1 {
      LabelAtLabel(ts, labels, 0);
    } else {
      LabelAtGap(ts, labels, 0);
    }
    forall i | |FollowLabel(ts, 0)| <= i < |ts| && !ts[i].Label?
      ensures LabelAt(labels - {U32(0)}, Len(ts, i + 1)) == FollowLabel(ts, i + 1)
    {
      LenStrict(ts, i, i + 1);
      LenMono(ts, i + 1, |ts|);
    }
  }
}
