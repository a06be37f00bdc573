/** The player's `Track` (`src/bin/play.rs`, lines 24-71) as an object whose
    methods update its fields in place, the fetch-execute loop of one track
    (lines 109-236), and the work list of tracks (lines 105-238). Every
    method is proved to do what the functions of `PlayEvents`, `PlayNotes`
    and `PlayExec` say. */
module PlayTrack {
  import opened Common
  import opened Instructions
  import opened PlayEvents
  import opened PlayNotes
  import opened PlayUser
  import opened PlayExec

  /** How one pass of the loop ends: on to the next pass, at `EndOfTrack`,
      or in a panic. */
  datatype Status = Running | Stopped | Panicked(fault: Fault)

  /** How the loop of one track ends. */
  datatype Outcome = Done | Halted(fault: Fault) | OutOfSteps

  class Track {
    var pending: seq<Pending>
    var messages: seq<Event>
    var index: u8
    var lastPos: u64
    var tickPos: u64
    var pos: nat
    var stack: seq<nat>
    var flag: bool
    /** `[i16; 48]`, an array held by value inside the track. */
    var variables: seq<i16>

    /** The fields as a value. */
    function Snapshot(): State
      reads this
    {
      State(pending, messages, index, lastPos, tickPos, pos, stack, flag, variables)
    }

    predicate Valid()
      reads this
    {
      Inv(Snapshot())
    }

    /** `push_event`. */
    method PushEvent(kind: EventKind)
      requires lastPos <= tickPos
      modifies this
      ensures Snapshot() == Emit(old(Snapshot()), kind)
    {
      messages := messages + [Event(U32(tickPos - lastPos), kind)];
      lastPos := tickPos;
    }

    /** `push_midi_event`: on the track's own channel. */
    method PushMidiEvent(message: MidiMessage)
      requires lastPos <= tickPos
      modifies this
      ensures Snapshot() == Emit(old(Snapshot()), Midi(old(index), message))
    {
      PushEvent(Midi(index, message));
    }

    /** `push_control_event`. */
    method PushControlEvent(controller: u8, value: u8)
      requires lastPos <= tickPos
      modifies this
      ensures Snapshot() == Control(old(Snapshot()), controller, value)
    {
      PushMidiEvent(Controller(controller, value));
    }

    /** `tracks.pop()` moving a queued track into the mutable local
      `track` of line 107. */
    constructor (s: State)
      ensures Snapshot() == s
    {
      pending, messages, index, lastPos, tickPos := s.pending, s.messages, s.index, s.lastPos, s.tickPos;
      pos, stack, flag, variables := s.pos, s.stack, s.flag, s.variables;
    }

    /** `fork`: a new track with this track's tick. */
    function Fork(index: u8, pos: nat): State
      reads this
    {
      NewTrack(index, tickPos, pos)
    }

    /** One turn of the release loop of lines 125-131: pop the
      earliest-ending note, move the clock to its end, emit its NoteOff. */
    method PopNote()
      requires Draining(Snapshot()) && |pending| > 0
      modifies this
      ensures Snapshot() == Pop(old(Snapshot()))
      ensures Draining(Snapshot())
    {
      PopDraining(Snapshot());
      var note := pending[|pending| - 1];
      pending := pending[..|pending| - 1];
      tickPos := tickPos + (note.end - tickPos);
      PushMidiEvent(NoteOff(note.key, 0));
    }

    /** The release loop of lines 125-131: pop while the earliest-ending
      note ends by `after`. */
    method Release(after: u64)
      requires Draining(Snapshot())
      modifies this
      ensures Snapshot() == Drain(old(Snapshot()), after)
    {
      ghost var drained := Drain(Snapshot(), after);
      while |pending| > 0 && pending[|pending| - 1].end <= after
        invariant Draining(Snapshot())
        invariant Drain(Snapshot(), after) == drained
        decreases |pending|
      {
        ghost var before := Snapshot();
        PopNote();
        assert Drain(before, after) == Drain(Snapshot(), after);
      }
    }

    /** The `Rest` arm of lines 119-134 after its overflow check: sort, pop
      and release while the earliest-ending note ends by `after_rest`, set
      the clock. */
    method Rest(len: u64)
      requires Valid() && tickPos + len < 0x1_0000_0000_0000_0000
      modifies this
      ensures Snapshot() == RestState(old(Snapshot()), len)
    {
      ghost var s0 := Snapshot();
      RestIsDrain(s0, len);
      pending := SortByEnd(pending);
      var afterRest: u64 := tickPos + len;
      Release(afterRest);
      tickPos := afterRest;
    }

    /** The end of a track, lines 232-236: take the pending notes, release
      each at the current tick in stored order, then `EndOfTrack`. */
    method Finish()
      requires Valid()
      modifies this
      ensures Snapshot() == PlayNotes.Finish(old(Snapshot()))
    {
      ghost var s0 := Snapshot();
      var notes := pending;
      pending := [];
      var i := 0;
      while i < |notes|
        invariant 0 <= i <= |notes| && lastPos <= tickPos
        invariant Flush(Snapshot(), notes[i..]) == Flush(s0.(pending := []), notes)
      {
        ghost var before := Snapshot();
        PushMidiEvent(NoteOff(notes[i].key, 0));
        assert notes[i..][1..] == notes[i + 1..];
        i := i + 1;
      }
      PushEvent(TrackEnd);
    }

    /** The `UserProcess` arm, lines 173-204, with the `User` callback not
      indexing the variables. */
    method StepUser(op: UserOp, variable: u8, imm: i16) returns (status: Status)
      requires Valid()
      modifies this
      ensures UserStep(old(Snapshot()), op, variable, imm).Failure? <==> status.Panicked?
      ensures status.Panicked? ==> status.fault == UserStep(old(Snapshot()), op, variable, imm).error
      ensures !status.Panicked? ==> status == Running && Snapshot() == UserStep(old(Snapshot()), op, variable, imm).value
    {
      if op.User? {
        return Running;
      }
      if variable >= VariableCount {
        return Panicked(VariableIndex);
      }
      match Apply(op, variables[variable], imm) {
        case Failure(f) => return Panicked(f);
        case Success(SetVariable(x)) => variables := variables[variable := x];
        case Success(SetFlag(b)) => flag := b;
        case Success(NoEffect) =>
      }
      return Running;
    }

    /** The arms of lines 113-225 for one instruction. `advance` is false
      where the arm skips line 229 (`continue` or `break`). */
    method StepInst(inst: Instruction, labels: map<Name, nat>)
      returns (status: Status, child: Option<State>, advance: bool)
      requires Valid()
      modifies this
      ensures ExecInst(old(Snapshot()), inst, labels).Halt? <==> status.Panicked?
      ensures ExecInst(old(Snapshot()), inst, labels).Halt? ==>
        status.fault == ExecInst(old(Snapshot()), inst, labels).fault
      ensures ExecInst(old(Snapshot()), inst, labels).Ended? <==> status == Stopped
      ensures ExecInst(old(Snapshot()), inst, labels).Ended? ==> Snapshot() == old(Snapshot())
      ensures status != Running ==> !advance
      ensures ExecInst(old(Snapshot()), inst, labels).Next? ==>
        && status == Running
        && (if advance then Advance(Snapshot()) else Snapshot()) == ExecInst(old(Snapshot()), inst, labels).next
        && child == ExecInst(old(Snapshot()), inst, labels).spawn
    {
      status, child, advance := Running, None, true;
      match inst {
        case Note(key, vel, len) =>
          status := StepNote(key, vel, len);
          advance := status == Running;
        case Rest(len) =>
          if tickPos + len >= 0x1_0000_0000_0000_0000 {
            return Panicked(TickOverflow), None, false;
          }
          Rest(len);
        case Instrument(program) =>
          PushMidiEvent(ProgramChange(program % 0x100));
        case Fork(track, dest) =>
          match Target(dest, labels) {
            case Failure(f) => return Panicked(f), None, false;
            case Success(n) =>
              child := Some(Fork(track, n));
          }
        case Jump(dest) =>
          match Target(dest, labels) {
            case Failure(f) => return Panicked(f), None, false;
            case Success(n) =>
              pos := n;
              advance := false;
          }
        case Call(dest) =>
          match Target(dest, labels) {
            case Failure(f) => return Panicked(f), None, false;
            case Success(n) =>
              stack := stack + [pos];
              pos := n;
              advance := false;
          }
        case If =>
          if !flag {
            pos := pos + 1;
          }
        case UserProcess(op, variable, imm) =>
          status := StepUser(op, variable, imm);
          advance := status == Running;
        case Return =>
          if |stack| == 0 {
            return Panicked(EmptyStack), None, false;
          }
          pos := stack[|stack| - 1];
          stack := stack[..|stack| - 1];
        case EndOfTrack =>
          return Stopped, None, false;
        case SetU8Param(param, value) =>
          match ControllerOf(param) {
            case Some(c) => PushControlEvent(c, value);
            case None =>
          }
        case SetU16Param(param, value) =>
          if param == Tempo {
            if value == 0 {
              return Panicked(DivisionByZero), None, false;
            }
            PushEvent(SetTempo(TempoMicros(value)));
          }
        case _ =>
      }
    }

    /** The `Note` arm, lines 114-118. */
    method StepNote(key: u8, vel: u8, len: u64) returns (status: Status)
      requires Valid()
      modifies this
      ensures status.Panicked? <==> old(tickPos) + len >= 0x1_0000_0000_0000_0000
      ensures status.Panicked? ==> status.fault == TickOverflow
      ensures !status.Panicked? ==>
        && status == Running
        && Snapshot() == Emit(old(Snapshot()), Midi(old(index), NoteOn(key, vel))).(
             pending := old(pending) + [Pending(key, old(tickPos) + len)])
    {
      PushMidiEvent(NoteOn(key, vel));
      if tickPos + len >= 0x1_0000_0000_0000_0000 {
        return Panicked(TickOverflow);
      }
      pending := pending + [Pending(key, tickPos + len)];
      return Running;
    }

    /** One pass of the `loop` of lines 109-230: fetch the token at
      `instruction_pos`, execute it, and move to the next one unless the
      arm jumped, called or stopped. */
    method Step(prog: seq<OptionalInst>, labels: map<Name, nat>) returns (status: Status, child: Option<State>)
      requires Valid()
      modifies this
      ensures Exec(old(Snapshot()), prog, labels).Halt? <==> status.Panicked?
      ensures status.Panicked? ==> status.fault == Exec(old(Snapshot()), prog, labels).fault
      ensures Exec(old(Snapshot()), prog, labels).Ended? <==> status == Stopped
      ensures status == Stopped ==> Snapshot() == old(Snapshot())
      ensures Exec(old(Snapshot()), prog, labels).Next? ==>
        && status == Running
        && Snapshot() == Exec(old(Snapshot()), prog, labels).next
        && child == Exec(old(Snapshot()), prog, labels).spawn
    {
      if pos >= |prog| {
        return Panicked(PositionOutOfRange), None;
      }
      status, child := Running, None;
      match prog[pos] {
        case Label(_) =>
        case Byte(_) =>
        case Inst(i) =>
          assert Exec(old(Snapshot()), prog, labels) == ExecInst(old(Snapshot()), i, labels);
          var advance;
          status, child, advance := StepInst(i, labels);
          if !advance {
            return;
          }
      }
      pos := pos + 1;
    }

    /** One pass of the loop, in terms of the run still ahead of the track:
      after a `Running` pass it is the rest of the run the track had before,
      less the track it forked, if any. */
    method Pass(prog: seq<OptionalInst>, labels: map<Name, nat>, ghost fuel: nat)
      returns (status: Status, child: Option<State>, ghost rest: TrackRun)
      requires Valid() && fuel > 0
      modifies this
      ensures status.Panicked? ==> RunTrack(old(Snapshot()), prog, labels, fuel) == TrackHalt(status.fault)
      ensures status == Stopped ==> RunTrack(old(Snapshot()), prog, labels, fuel) == Finished(Snapshot(), [], fuel - 1)
      ensures status == Running ==>
        && Valid()
        && rest == RunTrack(Snapshot(), prog, labels, fuel - 1)
        && RunTrack(old(Snapshot()), prog, labels, fuel) == Prepend(Spawned(child), rest)
    {
      ghost var before := Snapshot();
      RunTrackStep(before, prog, labels, fuel);
      status, child := Step(prog, labels);
      rest := if status == Running then RunTrack(Snapshot(), prog, labels, fuel - 1) else Exhausted;
    }

    /** The whole `loop` of lines 109-230 for this track, allowed at most
      `fuel` passes: `Done` at `EndOfTrack`, with the tracks it forked in
      the order they were pushed and the passes left over. */
    method Run(prog: seq<OptionalInst>, labels: map<Name, nat>, fuel: nat)
      returns (outcome: Outcome, children: seq<State>, left: nat)
      requires Valid()
      modifies this
      ensures Agrees(RunTrack(old(Snapshot()), prog, labels, fuel), outcome, Snapshot(), children, left)
    {
      ghost var goal := RunTrack(Snapshot(), prog, labels, fuel);
      ghost var ahead := goal;
      children := [];
      var fuelLeft := fuel;
      while fuelLeft > 0
        invariant Valid()
        invariant ahead == RunTrack(Snapshot(), prog, labels, fuelLeft)
        invariant goal == Prepend(children, ahead)
        decreases fuelLeft
      {
        var status, child;
        ghost var rest;
        status, child, rest := Pass(prog, labels, fuelLeft);
        match status {
          case Panicked(f) =>
            return Halted(f), children, 0;
          case Stopped =>
            assert children + [] == children;
            return Done, children, fuelLeft - 1;
          case Running =>
            PrependTwice(children, Spawned(child), rest);
            children := children + Spawned(child);
            ahead := rest;
            fuelLeft := fuelLeft - 1;
        }
      }
      return OutOfSteps, children, 0;
    }
  }

  /** The outcome of the track loop, the track's final state, the states of
      the tracks it forked and the passes left over are those of the run `r`. */
  predicate Agrees(r: TrackRun, outcome: Outcome, final: State, children: seq<State>, left: nat)
  {
    match r
    case Exhausted => outcome == OutOfSteps
    case TrackHalt(f) => outcome == Halted(f)
    case Finished(fin, kids, l) => outcome == Done && final == fin && children == kids && left == l
  }

  /** The run of a track that forked `kids` before reaching a state whose
      own run is `r`. */
  function Prepend(kids: seq<State>, r: TrackRun): TrackRun
  {
    match r
    case Finished(fin, more, left) => Finished(fin, kids + more, left)
    case other => other
  }

  /** One pass of the track loop in terms of its run. */
  lemma RunTrackStep(s: State, prog: seq<OptionalInst>, labels: map<Name, nat>, fuel: nat)
    requires Inv(s) && fuel > 0
    ensures Exec(s, prog, labels).Halt? ==> RunTrack(s, prog, labels, fuel) == TrackHalt(Exec(s, prog, labels).fault)
    ensures Exec(s, prog, labels).Ended? ==> RunTrack(s, prog, labels, fuel) == Finished(s, [], fuel - 1)
    ensures Exec(s, prog, labels).Next? ==>
      Inv(Exec(s, prog, labels).next) &&
      RunTrack(s, prog, labels, fuel) ==
        Prepend(Spawned(Exec(s, prog, labels).spawn), RunTrack(Exec(s, prog, labels).next, prog, labels, fuel - 1))
  {
    ExecInv(s, prog, labels);
  }

  lemma PrependTwice(a: seq<State>, b: seq<State>, r: TrackRun)
    ensures Prepend(a, Prepend(b, r)) == Prepend(a + b, r)
  {
    if r.Finished? {
      assert a + (b + r.children) == (a + b) + r.children;
    }
  }

  /** Lines 94-238 after decoding: collect the label positions, start with
      track 0 at tick 0 and token 0, and while tracks are queued pop the
      last one, run its loop, queue the tracks it forked, release its
      pending notes, end it and keep its events. */
  method PlayProgram(prog: seq<OptionalInst>, fuel: nat) returns (r: RunResult)
    ensures r == Play(prog, fuel)
  {
    var labels := LabelPositions(prog);
    NewTrackStarts(0, 0, 0);
    var tracks := [NewTrack(0, 0, 0)];
    var done: seq<seq<Event>> := [];
    var fuelLeft := fuel;
    while |tracks| > 0
      invariant forall k :: 0 <= k < |tracks| ==> Inv(tracks[k])
      invariant RunAll(tracks, done, prog, labels, fuelLeft) == Play(prog, fuel)
      decreases fuelLeft, |tracks|
    {
      ghost var work := tracks;
      var track := new Track(tracks[|tracks| - 1]);
      tracks := tracks[..|tracks| - 1];
      var outcome, children, left := track.Run(prog, labels, fuelLeft);
      match outcome {
        case OutOfSteps => return OutOfFuel;
        case Halted(f) => return Crashed(f);
        case Done =>
          RunTrackInv(work[|work| - 1], prog, labels, fuelLeft);
          Finish2Inv(tracks, children);
          track.Finish();
          done := done + [track.messages];
          tracks := tracks + children;
          fuelLeft := left;
      }
    }
    return Played(done);
  }
}
