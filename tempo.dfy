/** The tempo rescale of `src/bin/tempo.rs`: one pass over a decoded token
    stream that rewrites every tempo change to the target tempo and rescales
    every note and rest duration by `target / current`, where `current` is the
    value of the nearest tempo change before it in stream order. */
module TempoStretch {
  import opened Common
  import opened Instructions
  import Gen

  /** `tempo_stretch`: `value * target / source` in 128-bit arithmetic, where
      the product of a 64-bit and a 16-bit value cannot overflow, truncated
      back to 64 bits. Dividing by a zero source panics. */
  function Stretch(source: u16, target: u16, value: u64): u64
    requires source != 0
  {
    var product: nat := value * target;
    U64(product / source)
  }

  /** Euclidean division is unique: `q` is the quotient of any `x` in
      `[q * a, q * a + a)`. */
  lemma DivUnique(x: int, a: int, q: int)
    requires a > 0 && q * a <= x < q * a + a
    ensures x / a == q
  {
    var d := x / a - q;
    assert d * a == x / a * a - q * a;
    Gen.MulBounds(d, a);
  }

  /** While the quotient fits in 64 bits the result is the floor of
      `value * target / source`. */
  lemma StretchFloor(source: u16, target: u16, value: u64)
    requires source != 0 && value * target < source * 0x1_0000_0000_0000_0000
    ensures Stretch(source, target, value) * source <= value * target
    ensures value * target < (Stretch(source, target, value) + 1) * source
  {
    var q := value * target / source;
    if q >= 0x1_0000_0000_0000_0000 {
      Gen.MulBounds(q - 0x1_0000_0000_0000_0000 + 1, source);
      assert false;
    }
  }

  /** Rescaling to the tempo a duration was written for leaves it as it is. */
  lemma StretchSame(tempo: u16, value: u64)
    requires tempo != 0
    ensures Stretch(tempo, tempo, value) == value
  {
    DivUnique(value * tempo, tempo, value);
  }

  /** Why the rewrite stops: a note or rest with no tempo change before it
      (`current.unwrap()`), or whose tempo is zero (the division). */
  datatype Fault = NoTempo | ZeroTempo

  predicate IsTempo(t: OptionalInst)
  {
    t.Inst? && t.i.SetU16Param? && t.i.sparam == Tempo
  }

  predicate IsTimed(t: OptionalInst)
  {
    t.Inst? && (t.i.Note? || t.i.Rest?)
  }

  /** The value of `current` when the loop reaches token `i`: the old value
      of the last tempo change before `i`, if any. */
  function CurrentAt(s: seq<OptionalInst>, i: nat): Option<u16>
    requires i <= |s|
  {
    if i == 0 then None
    else if IsTempo(s[i - 1]) then Some(s[i - 1].i.svalue)
    else CurrentAt(s, i - 1)
  }

  /** `current` is the value of the nearest preceding tempo change: it is
      `Some(v)` exactly when some tempo change at `j < i` has value `v` and no
      tempo change lies strictly between `j` and `i`. */
  lemma {:induction false} CurrentIsNearest(s: seq<OptionalInst>, i: nat, v: u16)
    requires i <= |s|
    ensures CurrentAt(s, i) == Some(v) <==>
      exists j :: 0 <= j < i && IsTempo(s[j]) && s[j].i.svalue == v &&
        forall k :: j < k < i ==> !IsTempo(s[k])
  {
    if i > 0 {
      CurrentIsNearest(s, i - 1, v);
      if IsTempo(s[i - 1]) {
        if CurrentAt(s, i) != Some(v) {
          forall j | 0 <= j < i && IsTempo(s[j]) && s[j].i.svalue == v
            ensures exists k :: j < k < i && IsTempo(s[k])
          {
            assert j != i - 1;
            assert IsTempo(s[i - 1]);
          }
        }
      } else {
        if CurrentAt(s, i) == Some(v) {
          var j :| 0 <= j < i - 1 && IsTempo(s[j]) && s[j].i.svalue == v &&
            forall k :: j < k < i - 1 ==> !IsTempo(s[k]);
          assert forall k :: j < k < i ==> !IsTempo(s[k]);
        }
      }
    }
  }

  /** A stream with no tempo change before `i` has no current tempo there. */
  lemma {:induction false} NoCurrentBeforeTempo(s: seq<OptionalInst>, i: nat)
    requires i <= |s|
    requires forall j :: 0 <= j < i ==> !IsTempo(s[j])
    ensures CurrentAt(s, i) == None
  {
    if i > 0 {
      NoCurrentBeforeTempo(s, i - 1);
    }
  }

  /** The rewrite of one token given the current tempo. */
  function Retime(t: OptionalInst, current: Option<u16>, target: u16): Result<OptionalInst, Fault>
  {
    if IsTempo(t) then Success(Inst(SetU16Param(Tempo, target)))
    else if IsTimed(t) then
      if current.None? then Failure(NoTempo)
      else if current.value == 0 then Failure(ZeroTempo)
      else if t.i.Note? then Success(Inst(Note(t.i.note, t.i.velocity, Stretch(current.value, target, t.i.len))))
      else Success(Inst(Rest(Stretch(current.value, target, t.i.len))))
    else Success(t)
  }

  /** The rewrite fails exactly on a note or rest without a usable current
      tempo. On success a tempo change carries the target, a note keeps its
      pitch and velocity, a note or rest gets the stretched length, and every
      other token is unchanged. */
  lemma RetimeToken(t: OptionalInst, current: Option<u16>, target: u16)
    ensures Retime(t, current, target).Failure? <==>
      IsTimed(t) && (current.None? || current.value == 0)
    ensures Retime(t, current, target).Failure? ==>
      Retime(t, current, target).error == (if current.None? then NoTempo else ZeroTempo)
    ensures IsTempo(t) ==> Retime(t, current, target) == Success(Inst(SetU16Param(Tempo, target)))
    ensures IsTimed(t) && current.Some? && current.value != 0 ==>
      var u := Retime(t, current, target).value;
      && u.Inst? && (u.i.Note? <==> t.i.Note?) && (u.i.Rest? <==> t.i.Rest?)
      && u.i.len == Stretch(current.value, target, t.i.len)
      && (t.i.Note? ==> u.i.note == t.i.note && u.i.velocity == t.i.velocity)
    ensures !IsTempo(t) && !IsTimed(t) ==> Retime(t, current, target) == Success(t)
  {
  }

  /** With the target equal to the current tempo, a note or rest is left as
      it is. */
  lemma RetimeSame(t: OptionalInst, target: u16)
    requires IsTimed(t) && target != 0
    ensures Retime(t, Some(target), target) == Success(t)
  {
    StretchSame(target, t.i.len);
  }

  /** One arm of the loop's `match`: the rewritten token and the new value of
      `current`, or `false` where the source panics. */
  method RetimeOne(t: OptionalInst, current: Option<u16>, target: u16)
    returns (ok: bool, u: OptionalInst, next: Option<u16>)
    ensures ok <==> Retime(t, current, target).Success?
    ensures ok ==> u == Retime(t, current, target).value
    ensures next == if IsTempo(t) then Some(t.i.svalue) else current
  {
    u, next := t, current;
    match t {
      case Inst(SetU16Param(Tempo, value)) =>
        next := Some(value);
        u := Inst(SetU16Param(Tempo, target));
      case Inst(Note(p, v, len)) =>
        if current.None? || current.value == 0 {
          return false, u, next;
        }
        u := Inst(Note(p, v, Stretch(current.value, target, len)));
      case Inst(Rest(len)) =>
        if current.None? || current.value == 0 {
          return false, u, next;
        }
        u := Inst(Rest(Stretch(current.value, target, len)));
      case _ =>
    }
    ok := true;
  }

  /** The first `i` tokens after the loop has passed them, or the fault of
      the first token it stops at. */
  function RetimeUpTo(s: seq<OptionalInst>, i: nat, target: u16): (r: Result<seq<OptionalInst>, Fault>)
    requires i <= |s|
    ensures r.Success? ==> |r.value| == i
  {
    if i == 0 then Success([])
    else match RetimeUpTo(s, i - 1, target)
      case Failure(f) => Failure(f)
      case Success(done) =>
        match RetimeAt(s, i - 1, target)
        case Failure(f) => Failure(f)
        case Success(t) => Success(done + [t])
  }

  /** One token's rewrite at its position in the stream. */
  function RetimeAt(s: seq<OptionalInst>, k: nat, target: u16): Result<OptionalInst, Fault>
    requires k < |s|
  {
    Retime(s[k], CurrentAt(s, k), target)
  }

  /** The pass succeeds on a prefix exactly when every token in it can be
      rewritten with the tempo current at its position. */
  lemma {:induction false} RetimeUpToSucceeds(s: seq<OptionalInst>, i: nat, target: u16)
    requires i <= |s|
    ensures RetimeUpTo(s, i, target).Success? <==>
      forall k :: 0 <= k < i ==> RetimeAt(s, k, target).Success?
  {
    if i > 0 {
      RetimeUpToSucceeds(s, i - 1, target);
    }
  }

  /** On success token `k` of the result is the rewrite of token `k` with
      the tempo current at `k`. */
  lemma {:induction false} RetimeUpToAt(s: seq<OptionalInst>, i: nat, target: u16)
    requires i <= |s| && RetimeUpTo(s, i, target).Success?
    ensures forall k :: 0 <= k < i ==>
      (RetimeAt(s, k, target).Success? && RetimeUpTo(s, i, target).value[k] == RetimeAt(s, k, target).value)
  {
    if i > 0 {
      RetimeUpToAt(s, i - 1, target);
      RetimeUpToStep(RetimeUpTo(s, i - 1, target).value, RetimeAt(s, i - 1, target).value,
        RetimeUpTo(s, i, target).value);
    }
  }

  lemma RetimeUpToStep(done: seq<OptionalInst>, t: OptionalInst, r: seq<OptionalInst>)
    requires r == done + [t]
    ensures forall k :: 0 <= k < |done| ==> r[k] == done[k]
    ensures r[|done|] == t
  {
  }

  /** Once the pass has stopped it stays stopped on every longer prefix. */
  lemma {:induction false} RetimeUpToStops(s: seq<OptionalInst>, i: nat, j: nat, target: u16)
    requires i <= j <= |s| && RetimeUpTo(s, i, target).Failure?
    ensures RetimeUpTo(s, j, target).Failure?
  {
    if j > i {
      RetimeUpToStops(s, i, j - 1, target);
    }
  }

  /** The loop over `rseq.instructions`, rewriting tokens in place while
      tracking `current`. It stops at the first failing token. */
  method Retempo(a: array<OptionalInst>, target: u16) returns (ok: bool)
    modifies a
    ensures ok <==> RetimeUpTo(old(a[..]), a.Length, target).Success?
    ensures ok ==> a[..] == RetimeUpTo(old(a[..]), a.Length, target).value
  {
    ghost var s0 := a[..];
    var current: Option<u16> := None;
    var i := 0;
    while i < a.Length
      invariant 0 <= i <= a.Length && |s0| == a.Length
      invariant current == CurrentAt(s0, i)
      invariant RetimeUpTo(s0, i, target).Success?
      invariant a[..i] == RetimeUpTo(s0, i, target).value
      invariant a[i..] == s0[i..]
    {
      var done, u, next := RetimeOne(a[i], current, target);
      if !done {
        RetimeUpToStops(s0, i + 1, a.Length, target);
        return false;
      }
      a[i] := u;
      current := next;
      i := i + 1;
    }
    return true;
  }
}
