/** One step of the interpreter of `src/bin/play.rs` (lines 109-230) and the
    runs built from it: the steps of one track until `EndOfTrack`, and the
    work list of tracks (lines 105-238), as functions of the track state. */
module PlayExec {
  import opened Common
  import opened Instructions
  import opened PlayEvents
  import opened PlayNotes
  import opened PlayUser

  /** The label map of lines 94-100: each label name with its position in
      the token stream; when a name occurs twice, `collect` keeps the later
      position. This is the map of the first `n` tokens. */
  function LabelsUpTo(prog: seq<OptionalInst>, n: nat): map<Name, nat>
    requires n <= |prog|
  {
    if n == 0 then map[]
    else if prog[n - 1].Label? then LabelsUpTo(prog, n - 1)[prog[n - 1].name := n - 1]
    else LabelsUpTo(prog, n - 1)
  }

  function LabelPositions(prog: seq<OptionalInst>): map<Name, nat>
  {
    LabelsUpTo(prog, |prog|)
  }

  /** A name is in the map exactly when a label of that name occurs among
      the first `n` tokens; it maps to the last such occurrence. */
  lemma {:induction false} LabelsUpToSpec(prog: seq<OptionalInst>, n: nat, name: Name)
    requires n <= |prog|
    ensures name in LabelsUpTo(prog, n) <==> exists i :: 0 <= i < n && prog[i] == Label(name)
    ensures name in LabelsUpTo(prog, n) ==>
      && LabelsUpTo(prog, n)[name] < n
      && prog[LabelsUpTo(prog, n)[name]] == Label(name)
      && forall j :: LabelsUpTo(prog, n)[name] < j < n ==> prog[j] != Label(name)
  {
    if n > 0 {
      LabelsUpToSpec(prog, n - 1, name);
      if name in LabelsUpTo(prog, n) && prog[n - 1] != Label(name) {
        var i := LabelsUpTo(prog, n - 1)[name];
        assert prog[i] == Label(name);
      }
    }
  }

  /** The label map of the whole stream. */
  lemma LabelPositionsSpec(prog: seq<OptionalInst>, name: Name)
    ensures name in LabelPositions(prog) <==> exists i :: 0 <= i < |prog| && prog[i] == Label(name)
    ensures name in LabelPositions(prog) ==>
      && LabelPositions(prog)[name] < |prog|
      && prog[LabelPositions(prog)[name]] == Label(name)
      && forall j :: LabelPositions(prog)[name] < j < |prog| ==> prog[j] != Label(name)
  {
    LabelsUpToSpec(prog, |prog|, name);
  }

  /** Where a branch goes: `labels[&name]`, which panics on a missing name,
      or `unimplemented!()` for a raw address. */
  function Target(dest: Destination, labels: map<Name, nat>): (r: Result<nat, Fault>)
    ensures r.Success? <==> dest.DestLabel? && dest.name in labels
    ensures r.Success? ==> r.value == labels[dest.name]
    ensures r.Failure? ==> r.error == (if dest.DestLabel? then MissingLabel else AddressDestination)
  {
    match dest
    case DestLabel(name) => if name in labels then Success(labels[name]) else Failure(MissingLabel)
    case DestAddress(_) => Failure(AddressDestination)
  }

  /** What one step does: continue with the new state, possibly having
      forked a new track; stop at `EndOfTrack`; or panic. */
  datatype Step = Next(next: State, spawn: Option<State>) | Ended | Halt(fault: Fault)

  /** `instruction_pos += 1` at line 229. */
  function Advance(s: State): State
  {
    s.(pos := s.pos + 1)
  }

  /** `push_control_event`. */
  function Control(s: State, controller: u8, value: u8): State
    requires s.lastPos <= s.tickPos
  {
    Emit(s, Midi(s.index, Controller(controller, value)))
  }

  /** The controller a byte parameter drives, if the player implements it. */
  function ControllerOf(p: U8Param): Option<u8>
  {
    match p
    case Pan => Some(0xA)
    case Volume => Some(7)
    case Expression => Some(0xB)
    case _ => None
  }

  /** The microseconds per quarter note of a tempo change:
      `60 * 1000000 * 2 / value`. */
  function TempoMicros(value: u16): u32
    requires value != 0
  {
    120000000 / value
  }

  /** One instruction, lines 113-225, followed by line 229 where it falls
      through to it. */
  function ExecInst(s: State, inst: Instruction, labels: map<Name, nat>): Step
    requires Inv(s)
  {
    match inst
    case Note(key, vel, len) =>
      if s.tickPos + len >= 0x1_0000_0000_0000_0000 then Halt(TickOverflow)
      else
        var t := Emit(s, Midi(s.index, NoteOn(key, vel)));
        Next(Advance(t.(pending := t.pending + [Pending(key, s.tickPos + len)])), None)
    case Rest(len) =>
      if s.tickPos + len >= 0x1_0000_0000_0000_0000 then Halt(TickOverflow)
      else Next(Advance(RestState(s, len)), None)
    case Instrument(program) => Next(Advance(Emit(s, Midi(s.index, ProgramChange(program % 0x100)))), None)
    case Fork(track, dest) =>
      (match Target(dest, labels)
       case Failure(f) => Halt(f)
       case Success(n) => Next(Advance(s), Some(NewTrack(track, s.tickPos, n))))
    case Jump(dest) =>
      (match Target(dest, labels)
       case Failure(f) => Halt(f)
       case Success(n) => Next(s.(pos := n), None))
    case Call(dest) =>
      (match Target(dest, labels)
       case Failure(f) => Halt(f)
       case Success(n) => Next(s.(stack := s.stack + [s.pos], pos := n), None))
    case If => Next(if s.flag then Advance(s) else s.(pos := s.pos + 2), None)
    case UserProcess(op, variable, imm) =>
      (match UserStep(s, op, variable, imm)
       case Failure(f) => Halt(f)
       case Success(t) => Next(Advance(t), None))
    case Return =>
      if |s.stack| == 0 then Halt(EmptyStack)
      else Next(s.(pos := s.stack[|s.stack| - 1] + 1, stack := s.stack[..|s.stack| - 1]), None)
    case EndOfTrack => Ended
    case SetU8Param(param, value) =>
      (match ControllerOf(param)
       case Some(c) => Next(Advance(Control(s, c, value)), None)
       case None => Next(Advance(s), None))
    case SetU16Param(param, value) =>
      if param != Tempo then Next(Advance(s), None)
      else if value == 0 then Halt(DivisionByZero)
      else Next(Advance(Emit(s, SetTempo(TempoMicros(value)))), None)
    case _ => Next(Advance(s), None)
  }

  /** One pass of the loop at line 109: index the stream (a panic past its
      end), skip labels and undecoded bytes, or run an instruction. */
  function Exec(s: State, prog: seq<OptionalInst>, labels: map<Name, nat>): Step
    requires Inv(s)
  {
    if s.pos >= |prog| then Halt(PositionOutOfRange)
    else match prog[s.pos]
      case Label(_) => Next(Advance(s), None)
      case Byte(_) => Next(Advance(s), None)
      case Inst(i) => ExecInst(s, i, labels)
  }

  /** Every step keeps the track invariant, and so does every track it
      forks. */
  lemma ExecInv(s: State, prog: seq<OptionalInst>, labels: map<Name, nat>)
    requires Inv(s)
    ensures Exec(s, prog, labels).Next? ==> Inv(Exec(s, prog, labels).next)
    ensures Exec(s, prog, labels).Next? && Exec(s, prog, labels).spawn.Some? ==>
      Inv(Exec(s, prog, labels).spawn.value)
  {
    if s.pos < |prog| && prog[s.pos].Inst? {
      ExecInstInv(s, prog[s.pos].i, labels);
    }
  }

  lemma ExecInstInv(s: State, inst: Instruction, labels: map<Name, nat>)
    requires Inv(s)
    ensures ExecInst(s, inst, labels).Next? ==> Inv(ExecInst(s, inst, labels).next)
    ensures ExecInst(s, inst, labels).Next? && ExecInst(s, inst, labels).spawn.Some? ==>
      Inv(ExecInst(s, inst, labels).spawn.value)
  {
    match inst {
      case Note(key, vel, len) =>
        if s.tickPos + len < 0x1_0000_0000_0000_0000 {
          EmitKeeps(s, Midi(s.index, NoteOn(key, vel)));
        }
      case Rest(len) =>
        if s.tickPos + len < 0x1_0000_0000_0000_0000 {
          RestInv(s, len);
        }
      case Instrument(program) => EmitKeeps(s, Midi(s.index, ProgramChange(program % 0x100)));
      case Fork(track, dest) =>
        if Target(dest, labels).Success? {
          NewTrackStarts(track, s.tickPos, Target(dest, labels).value);
        }
      case UserProcess(op, variable, imm) => UserStepInv(s, op, variable, imm);
      case SetU8Param(param, value) =>
        if ControllerOf(param).Some? {
          EmitKeeps(s, Midi(s.index, Controller(ControllerOf(param).value, value)));
        }
      case SetU16Param(param, value) =>
        if param == Tempo && value != 0 {
          EmitKeeps(s, SetTempo(TempoMicros(value)));
        }
      case _ =>
    }
  }

  /** Labels and undecoded bytes are skipped; running past the end of the
      stream panics. */
  lemma ExecSkips(s: State, prog: seq<OptionalInst>, labels: map<Name, nat>)
    requires Inv(s)
    ensures s.pos >= |prog| <==> Exec(s, prog, labels) == Halt(PositionOutOfRange)
    ensures s.pos < |prog| && !prog[s.pos].Inst? ==> Exec(s, prog, labels) == Next(s.(pos := s.pos + 1), None)
  {
  }

  /** `If` runs the next instruction when the flag is set and skips it
      otherwise; nothing but the position changes. */
  lemma IfSkips(s: State, prog: seq<OptionalInst>, labels: map<Name, nat>)
    requires Inv(s) && s.pos < |prog| && prog[s.pos] == Inst(If)
    ensures Exec(s, prog, labels) == Next(s.(pos := s.pos + (if s.flag then 1 else 2)), None)
  {
  }

  /** With the label map of the stream, a jump either panics because no
      label of that name exists, or lands on the last label of that name,
      leaving all but the position unchanged. */
  lemma JumpLandsOnLabel(s: State, prog: seq<OptionalInst>, name: Name)
    requires Inv(s) && s.pos < |prog| && prog[s.pos] == Inst(Jump(DestLabel(name)))
    ensures Exec(s, prog, LabelPositions(prog)) == Halt(MissingLabel) <==>
      forall i :: 0 <= i < |prog| ==> prog[i] != Label(name)
    ensures Exec(s, prog, LabelPositions(prog)).Next? ==>
      var t := Exec(s, prog, LabelPositions(prog)).next;
      t.pos < |prog| && prog[t.pos] == Label(name) && t == s.(pos := t.pos)
  {
    LabelPositionsSpec(prog, name);
  }

  /** `Call` pushes its own position and jumps; a later `Return` on the
      stack it left resumes just after the `Call`, with the stack as it was
      before the call. */
  lemma CallThenReturn(s: State, prog: seq<OptionalInst>, labels: map<Name, nat>, u: State)
    requires Inv(s) && s.pos < |prog| && prog[s.pos].Inst? && prog[s.pos].i.Call?
    requires Exec(s, prog, labels).Next?
    requires Inv(u) && u.stack == Exec(s, prog, labels).next.stack
    requires u.pos < |prog| && prog[u.pos] == Inst(Return)
    ensures Exec(s, prog, labels).next.stack == s.stack + [s.pos]
    ensures Exec(s, prog, labels).next.pos == labels[prog[s.pos].i.dest.name]
    ensures Exec(u, prog, labels).Next?
    ensures Exec(u, prog, labels).next.pos == s.pos + 1
    ensures Exec(u, prog, labels).next.stack == s.stack
  {
    assert (s.stack + [s.pos])[..|s.stack|] == s.stack;
  }

  /** `Return` on an empty stack panics (`pop().unwrap()`). */
  lemma ReturnEmpty(s: State, prog: seq<OptionalInst>, labels: map<Name, nat>)
    requires Inv(s) && s.pos < |prog| && prog[s.pos] == Inst(Return)
    ensures Exec(s, prog, labels) == Halt(EmptyStack) <==> |s.stack| == 0
  {
  }

  /** A note emits its NoteOn at the current tick and becomes pending until
      `tick_pos + len`; it panics when that end does not fit in 64 bits. */
  lemma NoteStep(s: State, key: u8, vel: u8, len: u64, labels: map<Name, nat>)
    requires Inv(s)
    ensures ExecInst(s, Note(key, vel, len), labels).Halt? <==> s.tickPos + len >= 0x1_0000_0000_0000_0000
    ensures ExecInst(s, Note(key, vel, len), labels).Next? ==>
      var t := ExecInst(s, Note(key, vel, len), labels).next;
      && t.messages == s.messages + [Event(U32(s.tickPos - s.lastPos), Midi(s.index, NoteOn(key, vel)))]
      && t.pending == s.pending + [Pending(key, s.tickPos + len)]
      && t.tickPos == s.tickPos == t.lastPos && t.pos == s.pos + 1
  {
  }

  /** A rest advances the clock by `len` and releases the notes ending by
      then; it panics when the new tick does not fit in 64 bits. */
  lemma RestStep(s: State, len: u64, labels: map<Name, nat>)
    requires Inv(s)
    ensures ExecInst(s, Rest(len), labels).Halt? <==> s.tickPos + len >= 0x1_0000_0000_0000_0000
    ensures ExecInst(s, Rest(len), labels).Next? ==>
      var t := ExecInst(s, Rest(len), labels).next;
      t.tickPos == s.tickPos + len && t.pos == s.pos + 1 &&
      forall i :: 0 <= i < |t.pending| ==> t.tickPos < t.pending[i].end
  {
    if s.tickPos + len < 0x1_0000_0000_0000_0000 {
      RestSplitsAtClock(s, len);
    }
  }

  /** Pan, volume and expression become controllers 10, 7 and 11 with the
      parameter's value; the other byte parameters emit nothing. A tempo
      change emits `120000000 / value` microseconds per quarter note and
      panics on zero; the other short parameters emit nothing. */
  lemma ParamEvents(s: State, p: U8Param, q: U16Param, value: u8, svalue: u16, labels: map<Name, nat>)
    requires Inv(s)
    ensures ExecInst(s, SetU8Param(p, value), labels).Next?
    ensures p.Pan? || p.Volume? || p.Expression? ==>
      ExecInst(s, SetU8Param(p, value), labels).next.messages ==
        s.messages + [Event(U32(s.tickPos - s.lastPos),
          Midi(s.index, Controller(if p.Pan? then 10 else if p.Volume? then 7 else 11, value)))]
    ensures !(p.Pan? || p.Volume? || p.Expression?) ==>
      ExecInst(s, SetU8Param(p, value), labels) == Next(s.(pos := s.pos + 1), None)
    ensures ExecInst(s, SetU16Param(q, svalue), labels).Halt? <==> q == Tempo && svalue == 0
    ensures q == Tempo && svalue != 0 ==>
      ExecInst(s, SetU16Param(q, svalue), labels).next.messages ==
        s.messages + [Event(U32(s.tickPos - s.lastPos), SetTempo(120000000 / svalue))]
    ensures q != Tempo ==> ExecInst(s, SetU16Param(q, svalue), labels) == Next(s.(pos := s.pos + 1), None)
  {
  }

  /** A fork leaves the forking track at the next instruction and starts a
      track with the given number at the destination, at the forker's tick. */
  lemma ForkStep(s: State, track: u8, dest: Destination, labels: map<Name, nat>)
    requires Inv(s)
    ensures ExecInst(s, Fork(track, dest), labels).Next? <==> Target(dest, labels).Success?
    ensures ExecInst(s, Fork(track, dest), labels).Next? ==>
      && ExecInst(s, Fork(track, dest), labels).next == s.(pos := s.pos + 1)
      && ExecInst(s, Fork(track, dest), labels).spawn ==
        Some(NewTrack(track, s.tickPos, labels[dest.name]))
  {
  }

  /** Only `EndOfTrack` ends a track, and only `Fork` spawns one. */
  lemma StepKinds(s: State, inst: Instruction, labels: map<Name, nat>)
    requires Inv(s)
    ensures ExecInst(s, inst, labels).Ended? <==> inst.EndOfTrack?
    ensures ExecInst(s, inst, labels).Next? && ExecInst(s, inst, labels).spawn.Some? ==> inst.Fork?
  {
  }

  /** The result of running one track: its final state (at its
      `EndOfTrack`) with the tracks it forked in fork order and the steps
      left; a panic; or running out of steps. */
  datatype TrackRun = Finished(final: State, children: seq<State>, left: nat) | TrackHalt(fault: Fault) | Exhausted

  function Spawned(sp: Option<State>): seq<State>
  {
    if sp.Some? then [sp.value] else []
  }

  /** The inner `loop` of lines 109-230, allowed at most `fuel` steps. */
  function RunTrack(s: State, prog: seq<OptionalInst>, labels: map<Name, nat>, fuel: nat): (r: TrackRun)
    requires Inv(s)
    ensures r.Finished? ==> r.left < fuel
    decreases fuel
  {
    if fuel == 0 then Exhausted
    else match Exec(s, prog, labels)
      case Halt(f) => TrackHalt(f)
      case Ended => Finished(s, [], fuel - 1)
      case Next(t, sp) =>
        ExecInv(s, prog, labels);
        match RunTrack(t, prog, labels, fuel - 1)
        case Finished(fin, kids, left) => Finished(fin, Spawned(sp) + kids, left)
        case other => other
  }

  /** A track that finishes ends valid, stopped at an `EndOfTrack`, and every
      track it forked is valid. */
  lemma {:induction false} RunTrackInv(s: State, prog: seq<OptionalInst>, labels: map<Name, nat>, fuel: nat)
    requires Inv(s)
    ensures RunTrack(s, prog, labels, fuel).Finished? ==>
      var r := RunTrack(s, prog, labels, fuel);
      && Inv(r.final)
      && r.final.pos < |prog| && prog[r.final.pos] == Inst(EndOfTrack)
      && forall k :: 0 <= k < |r.children| ==> Inv(r.children[k])
    decreases fuel
  {
    if fuel > 0 && Exec(s, prog, labels).Next? {
      ExecInv(s, prog, labels);
      var t := Exec(s, prog, labels).next;
      RunTrackInv(t, prog, labels, fuel - 1);
    } else if fuel > 0 && Exec(s, prog, labels).Ended? {
      if s.pos < |prog| && prog[s.pos].Inst? {
        StepKinds(s, prog[s.pos].i, labels);
      }
    }
  }

  /** The outcome of the whole program: the event list of every track in
      the order the tracks finished, a panic, or running out of steps. */
  datatype RunResult = Played(tracks: seq<seq<Event>>) | Crashed(fault: Fault) | OutOfFuel

  /** The outer `while` of lines 106-238: pop the last track, run it, push
      the tracks it forked, flush and end it, and collect its events. */
  function RunAll(work: seq<State>, done: seq<seq<Event>>, prog: seq<OptionalInst>,
                  labels: map<Name, nat>, fuel: nat): RunResult
    requires forall k :: 0 <= k < |work| ==> Inv(work[k])
    decreases fuel, |work|
  {
    if |work| == 0 then Played(done)
    else
      var s := work[|work| - 1];
      match RunTrack(s, prog, labels, fuel)
      case Exhausted => OutOfFuel
      case TrackHalt(f) => Crashed(f)
      case Finished(fin, kids, left) =>
        RunTrackInv(s, prog, labels, fuel);
        Finish2Inv(work[..|work| - 1], kids);
        RunAll(work[..|work| - 1] + kids, done + [Finish(fin).messages], prog, labels, left)
  }

  lemma Finish2Inv(a: seq<State>, b: seq<State>)
    requires forall k :: 0 <= k < |a| ==> Inv(a[k])
    requires forall k :: 0 <= k < |b| ==> Inv(b[k])
    ensures forall k :: 0 <= k < |a + b| ==> Inv((a + b)[k])
  {
  }

  /** The whole program: the label map of the stream and one track,
      number 0, at tick 0 and position 0. */
  function Play(prog: seq<OptionalInst>, fuel: nat): RunResult
  {
    NewTrackStarts(0, 0, 0);
    RunAll([NewTrack(0, 0, 0)], [], prog, LabelPositions(prog), fuel)
  }

  /** Ending a track keeps its earlier events, and its last event is
      `EndOfTrack`; its first is still its track number. */
  lemma FinishEnds(s: State)
    requires Inv(s)
    ensures |Finish(s).messages| > |s.messages|
    ensures Finish(s).messages[..|s.messages|] == s.messages
    ensures Finish(s).messages[|Finish(s).messages| - 1].kind == TrackEnd
    ensures Finish(s).messages[0].kind.TrackNumber?
  {
    FinishFlushes(s);
  }

  /** Every event list the player writes begins with a track number and ends
      with `EndOfTrack`. */
  lemma {:induction false} RunAllWellFormed(work: seq<State>, done: seq<seq<Event>>, prog: seq<OptionalInst>,
                                            labels: map<Name, nat>, fuel: nat)
    requires forall k :: 0 <= k < |work| ==> Inv(work[k])
    requires forall k :: 0 <= k < |done| ==> TrackEvents(done[k])
    ensures RunAll(work, done, prog, labels, fuel).Played? ==>
      forall k :: 0 <= k < |RunAll(work, done, prog, labels, fuel).tracks| ==>
        TrackEvents(RunAll(work, done, prog, labels, fuel).tracks[k])
    decreases fuel, |work|
  {
    if |work| > 0 {
      var s := work[|work| - 1];
      var r := RunTrack(s, prog, labels, fuel);
      if r.Finished? {
        RunTrackInv(s, prog, labels, fuel);
        Finish2Inv(work[..|work| - 1], r.children);
        FinishEnds(r.final);
        var done' := done + [Finish(r.final).messages];
        assert forall k :: 0 <= k < |done'| ==> TrackEvents(done'[k]) by {
          forall k | 0 <= k < |done'|
            ensures TrackEvents(done'[k])
          {
            if k < |done| {
              assert done'[k] == done[k];
            }
          }
        }
        RunAllWellFormed(work[..|work| - 1] + r.children, done', prog, labels, r.left);
      }
    }
  }

  /** A track's event list as the MIDI file needs it. */
  predicate TrackEvents(es: seq<Event>)
  {
    |es| >= 2 && es[0].kind.TrackNumber? && es[|es| - 1].kind == TrackEnd
  }

  /** The program's events are well formed. */
  lemma PlayWellFormed(prog: seq<OptionalInst>, fuel: nat)
    ensures Play(prog, fuel).Played? ==>
      forall k :: 0 <= k < |Play(prog, fuel).tracks| ==> TrackEvents(Play(prog, fuel).tracks[k])
  {
    NewTrackStarts(0, 0, 0);
    RunAllWellFormed([NewTrack(0, 0, 0)], [], prog, LabelPositions(prog), fuel);
  }

  /** One pass of the loop with lines 173-204 as written: a user operation
      indexes the variable array before it looks at the operation, and
      `CmpGt` tests `<`. Every other instruction runs as in `Exec`. */
  function ExecAsWritten(s: State, prog: seq<OptionalInst>, labels: map<Name, nat>): Step
    requires Inv(s)
  {
    if s.pos < |prog| && prog[s.pos].Inst? && prog[s.pos].i.UserProcess? then
      var i := prog[s.pos].i;
      match UserStepAsWritten(s, i.op, i.variable, i.imm)
      case Failure(f) => Halt(f)
      case Success(t) => Next(Advance(t), None)
    else Exec(s, prog, labels)
  }

  /** The shortest program with a decoded `User` call. */
  const UserProgram: seq<OptionalInst> := [Inst(UserProcess(User, 0xFF, 0)), Inst(EndOfTrack)]

  /** As written, the first step of `UserProgram` stops the player at the
      variable index, while the step that skips the index moves on. */
  lemma UserCallbackProgram()
    ensures var s := NewTrack(0, 0, 0);
      && Inv(s)
      && ExecAsWritten(s, UserProgram, LabelPositions(UserProgram)) == Halt(VariableIndex)
      && Exec(s, UserProgram, LabelPositions(UserProgram)) == Next(Advance(s), None)
  {
    var s := NewTrack(0, 0, 0);
    NewTrackStarts(0, 0, 0);
    UserCallbackAsWritten(s, 0);
  }

  /** With the index skipped, `UserProgram` plays to its end. */
  lemma UserCallbackPlays()
    ensures Play(UserProgram, 2).Played?
  {
    var prog, labels := UserProgram, LabelPositions(UserProgram);
    var s := NewTrack(0, 0, 0);
    NewTrackStarts(0, 0, 0);
    UserCallbackProgram();
    var t := Advance(s);
    ExecInv(s, prog, labels);
    assert Exec(t, prog, labels) == Ended;
    assert RunTrack(t, prog, labels, 1) == Finished(t, [], 0);
    assert RunTrack(s, prog, labels, 2) == Finished(t, [], 0);
  }
}
