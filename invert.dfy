/** The pitch-mirror transform of `src/bin/invert.rs`: every note of a decoded
    token stream has its pitch `p` replaced by `0x7F - p`, in place; all other
    tokens, and a note's velocity and length, are left as they are. */
module Invert {
  import opened Common
  import opened Instructions
  import InstrParser

  /** A token the mirror can rewrite without a `u8` underflow: a note's pitch
      is at most 0x7F, as the decoder guarantees for every note it produces. */
  predicate InRange(t: OptionalInst)
  {
    t.Inst? && t.i.Note? ==> t.i.note <= 0x7F
  }

  predicate AllInRange(s: seq<OptionalInst>)
  {
    forall i :: 0 <= i < |s| ==> InRange(s[i])
  }

  /** Every stream the instruction decoder returns meets the mirror's
      precondition. */
  lemma DecodedInRange(input: Bytes, e: Endianness, labels: map<u32, Name>)
    ensures var r := InstrParser.Scan(input, e, labels);
      r.Success? ==> AllInRange(r.value)
  {
    var r := InstrParser.Scan(input, e, labels);
    InstrParser.ScanWellFormed(input, e, labels);
    if r.Success? {
      forall k | 0 <= k < |r.value|
        ensures InRange(r.value[k])
      {
        assert r.value[k].Inst? ==> WellFormed(r.value[k].i);
      }
    }
  }

  /** The rewrite of one token. */
  function Mirror(t: OptionalInst): OptionalInst
    requires InRange(t)
  {
    match t
    case Inst(Note(p, v, len)) => Inst(Note(0x7F - p, v, len))
    case _ => t
  }

  /** One token's rewrite: pitches stay in range, a note keeps its velocity
      and length and gets the mirrored pitch, any other token is unchanged,
      and mirroring twice gives back the token. */
  lemma MirrorToken(t: OptionalInst)
    requires InRange(t)
    ensures InRange(Mirror(t))
    ensures t.Inst? && t.i.Note? ==>
      Mirror(t) == Inst(Note(0x7F - t.i.note, t.i.velocity, t.i.len))
    ensures !(t.Inst? && t.i.Note?) ==> Mirror(t) == t
    ensures Mirror(Mirror(t)) == t
  {
  }

  /** The whole stream rewritten, token by token in stream order. */
  function MirrorAll(s: seq<OptionalInst>): (r: seq<OptionalInst>)
    requires AllInRange(s)
    ensures |r| == |s|
    ensures forall i :: 0 <= i < |s| ==> r[i] == Mirror(s[i])
  {
    if |s| == 0 then [] else MirrorAll(s[..|s| - 1]) + [Mirror(s[|s| - 1])]
  }

  /** The mirrored stream again satisfies the pitch bound, and mirroring it a
      second time restores the original stream. */
  lemma {:induction false} MirrorInvolution(s: seq<OptionalInst>)
    requires AllInRange(s)
    ensures AllInRange(MirrorAll(s))
    ensures MirrorAll(MirrorAll(s)) == s
  {
    var r := MirrorAll(s);
    forall i | 0 <= i < |s|
      ensures InRange(r[i]) && Mirror(r[i]) == s[i]
    {
      MirrorToken(s[i]);
    }
  }

  /** Token count and order are kept and only notes' pitches change: token
      `i` of the result is token `i` of the input, except that a note at `i`
      carries the mirrored pitch. */
  lemma MirrorKeepsShape(s: seq<OptionalInst>, i: nat)
    requires AllInRange(s) && i < |s|
    ensures |MirrorAll(s)| == |s|
    ensures s[i].Inst? && s[i].i.Note? ==>
      MirrorAll(s)[i] == Inst(Note(0x7F - s[i].i.note, s[i].i.velocity, s[i].i.len))
    ensures !(s[i].Inst? && s[i].i.Note?) ==> MirrorAll(s)[i] == s[i]
  {
    MirrorToken(s[i]);
  }

  /** The loop over `rseq.instructions`, rewriting each note in place. */
  method InvertNotes(a: array<OptionalInst>)
    requires AllInRange(a[..])
    modifies a
    ensures a[..] == MirrorAll(old(a[..]))
  {
    var i := 0;
    while i < a.Length
      invariant 0 <= i <= a.Length
      invariant forall k :: 0 <= k < i ==> a[k] == Mirror(old(a[k]))
      invariant forall k :: i <= k < a.Length ==> a[k] == old(a[k])
    {
      match a[i] {
        case Inst(Note(p, v, len)) =>
          a[i] := Inst(Note(0x7F - p, v, len));
        case _ =>
      }
      i := i + 1;
    }
  }
}
