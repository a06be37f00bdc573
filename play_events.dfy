/** The interpreter's events and per-track state (`src/bin/play.rs`). The
    MIDI file the player writes is represented by an abstract event list: a
    delta time (`(tick_pos - last_pos) as u32`) and the kind of event. */
module PlayEvents {
  import opened Common

  /** The channel messages the player emits. */
  datatype MidiMessage =
    | NoteOn(key: u8, vel: u8)
    | NoteOff(offKey: u8, offVel: u8)
    | ProgramChange(program: u8)
    | Controller(controller: u8, value: u8)

  datatype EventKind =
    | Midi(channel: u8, message: MidiMessage)
    | TrackNumber(number: u16)
    | SetTempo(microsPerBeat: u32)
    | TrackEnd

  datatype Event = Event(delta: u32, kind: EventKind)

  /** A sounding note: its key and the tick at which it ends. */
  datatype Pending = Pending(key: u8, end: u64)

  /** Every way the player can stop with a Rust panic. */
  datatype Fault =
    | PositionOutOfRange   // `rseq.instructions[track.instruction_pos]`
    | MissingLabel         // `labels[&name]`
    | AddressDestination   // `_ => unimplemented!()` for a raw address
    | TickOverflow         // `track.tick_pos + len`
    | EmptyStack           // `track.stack.pop().unwrap()`
    | VariableIndex        // `track.variables[var as usize]`
    | ArithmeticOverflow   // i16 `+ - * / %` and `-imm` overflow
    | DivisionByZero       // i16 `/ %` by zero, tempo 0
    | ShiftOverflow        // shift amount of 16 or more

  /** The number of user variables of a track (`[i16; 48]`). */
  const VariableCount := 48

  /** The fields of one `Track`. */
  datatype State = State(
    pending: seq<Pending>,
    messages: seq<Event>,
    index: u8,
    lastPos: u64,
    tickPos: u64,
    pos: nat,
    stack: seq<nat>,
    flag: bool,
    variables: seq<i16>)

  /** No note of `ps` ends before tick `t`. */
  predicate NoneEndsBefore(ps: seq<Pending>, t: nat)
  {
    forall i :: 0 <= i < |ps| ==> t <= ps[i].end
  }

  /** What every track the player creates keeps: 48 variables, the last
      event never after the clock, no pending note ending before the clock,
      and the track number as the first event. */
  predicate Inv(s: State)
  {
    && |s.variables| == VariableCount
    && s.lastPos <= s.tickPos
    && NoneEndsBefore(s.pending, s.tickPos)
    && |s.messages| > 0 && s.messages[0].kind.TrackNumber?
  }

  /** `push_event`: the event is stamped with the ticks since the previous
      event, truncated to 32 bits, and the clock of the last event moves to
      the current tick. */
  function Emit(s: State, kind: EventKind): State
    requires s.lastPos <= s.tickPos
  {
    s.(messages := s.messages + [Event(U32(s.tickPos - s.lastPos), kind)], lastPos := s.tickPos)
  }

  /** An emitted event keeps the invariant, leaves the earlier events as
      they were, and afterwards the last event is at the current tick. */
  lemma EmitKeeps(s: State, kind: EventKind)
    requires Inv(s)
    ensures Inv(Emit(s, kind))
    ensures Emit(s, kind).messages[..|s.messages|] == s.messages
    ensures Emit(s, kind).messages[|s.messages|] == Event(U32(s.tickPos - s.lastPos), kind)
    ensures Emit(s, kind).lastPos == Emit(s, kind).tickPos == s.tickPos
  {
    assert Emit(s, kind).messages[0] == s.messages[0];
  }

  /** `Track::new`: no pending notes, empty stack, clear flag, zeroed
      variables, the last event at tick 0, and a first `TrackNumber` event. */
  function NewTrack(index: u8, tickPos: u64, pos: nat): State
  {
    Emit(State([], [], index, 0, tickPos, pos, [], false, seq(VariableCount, _ => 0)), TrackNumber(index))
  }

  /** A new track satisfies the invariant; its one event, the track number,
      carries the whole starting tick as its delta, so a forked track's
      first event lands at the forker's tick. */
  lemma NewTrackStarts(index: u8, tickPos: u64, pos: nat)
    ensures Inv(NewTrack(index, tickPos, pos))
    ensures NewTrack(index, tickPos, pos).messages == [Event(U32(tickPos), TrackNumber(index))]
    ensures NewTrack(index, tickPos, pos).pending == [] && NewTrack(index, tickPos, pos).stack == []
    ensures !NewTrack(index, tickPos, pos).flag
    ensures forall k :: 0 <= k < VariableCount ==> NewTrack(index, tickPos, pos).variables[k] == 0
    ensures NewTrack(index, tickPos, pos).tickPos == NewTrack(index, tickPos, pos).lastPos == tickPos
    ensures NewTrack(index, tickPos, pos).pos == pos && NewTrack(index, tickPos, pos).index == index
  {
  }
}
