/** The pending-note bookkeeping of `src/bin/play.rs`: what a rest releases
    (lines 119-134) and what the end of a track flushes (lines 232-236). */
module PlayNotes {
  import opened Common
  import opened PlayEvents

  /** The order `sort_unstable_by(|a, b| b.end.cmp(&a.end))` leaves: ends
      non-increasing, so the earliest-ending note is last. */
  predicate EndsDescending(ps: seq<Pending>)
  {
    forall i, j :: 0 <= i < j < |ps| ==> ps[j].end <= ps[i].end
  }

  /** Ends non-decreasing from `from` on. */
  predicate EndsAscendingFrom(ps: seq<Pending>, from: nat)
  {
    && (forall i :: 0 <= i < |ps| ==> from <= ps[i].end)
    && (forall i, j :: 0 <= i < j < |ps| ==> ps[i].end <= ps[j].end)
  }

  function InsertByEnd(p: Pending, ps: seq<Pending>): seq<Pending>
  {
    if |ps| == 0 then [p]
    else if ps[0].end <= p.end then [p] + ps
    else [ps[0]] + InsertByEnd(p, ps[1..])
  }

  /** Inserting adds exactly the one note. */
  lemma {:induction false} InsertByEndPerm(p: Pending, ps: seq<Pending>)
    ensures multiset(InsertByEnd(p, ps)) == multiset(ps) + multiset{p}
  {
    if |ps| > 0 && ps[0].end > p.end {
      InsertByEndPerm(p, ps[1..]);
      assert ps == [ps[0]] + ps[1..];
    }
  }

  /** Inserting into a list sorted by descending end keeps it sorted. */
  lemma {:induction false} InsertByEndSorted(p: Pending, ps: seq<Pending>)
    requires EndsDescending(ps)
    ensures EndsDescending(InsertByEnd(p, ps))
  {
    if |ps| > 0 && ps[0].end > p.end {
      InsertByEndSorted(p, ps[1..]);
      InsertByEndPerm(p, ps[1..]);
      var r := InsertByEnd(p, ps[1..]);
      forall k | 0 <= k < |r|
        ensures r[k].end <= ps[0].end
      {
        assert r[k] in multiset(r);
        assert r[k] in multiset(ps[1..]) || r[k] == p;
        if r[k] != p {
          var m :| 0 <= m < |ps[1..]| && ps[1..][m] == r[k];
          assert ps[m + 1] == r[k];
        }
      }
    }
  }

  /** The pending notes after the sort. How notes with equal ends are
      ordered is left open by an unstable sort; this one keeps the order of
      insertion among them. */
  function SortByEnd(ps: seq<Pending>): seq<Pending>
  {
    if |ps| == 0 then [] else InsertByEnd(ps[0], SortByEnd(ps[1..]))
  }

  /** The sort orders by descending end and keeps every note: the result is
      a permutation of its input. */
  lemma {:induction false} SortByEndSpec(ps: seq<Pending>)
    ensures EndsDescending(SortByEnd(ps))
    ensures multiset(SortByEnd(ps)) == multiset(ps)
  {
    if |ps| > 0 {
      SortByEndSpec(ps[1..]);
      InsertByEndSorted(ps[0], SortByEnd(ps[1..]));
      InsertByEndPerm(ps[0], SortByEnd(ps[1..]));
      assert ps == [ps[0]] + ps[1..];
    }
  }

  /** The notes the release loop pops, in the order it pops them: the
      trailing run of notes ending by `after`, last first. */
  function Due(ps: seq<Pending>, after: nat): seq<Pending>
  {
    if |ps| > 0 && ps[|ps| - 1].end <= after then [ps[|ps| - 1]] + Due(ps[..|ps| - 1], after)
    else []
  }

  /** The notes left pending once the loop stops. */
  function Kept(ps: seq<Pending>, after: nat): seq<Pending>
  {
    if |ps| > 0 && ps[|ps| - 1].end <= after then Kept(ps[..|ps| - 1], after) else ps
  }

  /** The release loop pops a suffix of the list, last element first, and
      leaves the prefix before it; it stops at a note ending after `after`. */
  lemma {:induction false} DueShape(ps: seq<Pending>, after: nat)
    ensures |Due(ps, after)| <= |ps|
    ensures Kept(ps, after) == ps[..|ps| - |Due(ps, after)|]
    ensures forall i :: 0 <= i < |Due(ps, after)| ==> Due(ps, after)[i] == ps[|ps| - 1 - i]
    ensures |Kept(ps, after)| > 0 ==> after < Kept(ps, after)[|Kept(ps, after)| - 1].end
    decreases |ps|
  {
    if |ps| > 0 && ps[|ps| - 1].end <= after {
      var init := ps[..|ps| - 1];
      DueShape(init, after);
      assert init[..|init| - |Due(init, after)|] == ps[..|ps| - |Due(ps, after)|];
      forall i | 1 <= i < |Due(ps, after)|
        ensures Due(ps, after)[i] == ps[|ps| - 1 - i]
      {
        assert Due(ps, after)[i] == Due(init, after)[i - 1];
      }
    }
  }

  /** Every released note ends by `after`. */
  lemma {:induction false} DueBounded(ps: seq<Pending>, after: nat)
    ensures forall i :: 0 <= i < |Due(ps, after)| ==> Due(ps, after)[i].end <= after
    decreases |ps|
  {
    if |ps| > 0 && ps[|ps| - 1].end <= after {
      DueBounded(ps[..|ps| - 1], after);
    }
  }

  lemma {:induction false} DueMultiset(ps: seq<Pending>, after: nat)
    ensures multiset(Due(ps, after)) + multiset(Kept(ps, after)) == multiset(ps)
    decreases |ps|
  {
    if |ps| > 0 && ps[|ps| - 1].end <= after {
      var init := ps[..|ps| - 1];
      assert ps == init + [ps[|ps| - 1]];
      DueMultiset(init, after);
    }
  }

  /** On a list sorted by descending end the released notes come out in
      non-decreasing end order, none before the earliest pending end. */
  lemma DueOrdered(ps: seq<Pending>, after: nat)
    requires EndsDescending(ps) && |ps| > 0
    ensures EndsAscendingFrom(Due(ps, after), ps[|ps| - 1].end)
  {
    DueShape(ps, after);
  }

  /** On a list sorted by descending end every note kept ends after `after`,
      and the kept notes stay sorted. */
  lemma KeptAfter(ps: seq<Pending>, after: nat)
    requires EndsDescending(ps)
    ensures EndsDescending(Kept(ps, after))
    ensures forall i :: 0 <= i < |Kept(ps, after)| ==> after < Kept(ps, after)[i].end
  {
    DueShape(ps, after);
    var kept := Kept(ps, after);
    if |kept| > 0 {
      assert kept[|kept| - 1] == ps[|kept| - 1];
      forall i | 0 <= i < |kept|
        ensures after < kept[i].end
      {
        assert kept[i] == ps[i];
      }
    }
  }

  /** The NoteOff events for notes released in order starting with the
      previous event at `from`: each is stamped with the ticks since the one
      before it, so each lands at its note's end tick. */
  function OffEvents(ds: seq<Pending>, from: nat, channel: u8): seq<Event>
    requires EndsAscendingFrom(ds, from)
  {
    if |ds| == 0 then []
    else [Event(U32(ds[0].end - from), Midi(channel, NoteOff(ds[0].key, 0)))] + OffEvents(ds[1..], ds[0].end, channel)
  }

  /** The end tick of the last released note, or `dflt` if none is. */
  function LastEnd(ds: seq<Pending>, dflt: nat): nat
  {
    if |ds| == 0 then dflt else ds[|ds| - 1].end
  }

  /** The state the release loop starts from: sorted, and clocks in order. */
  predicate Draining(s: State)
  {
    && EndsDescending(s.pending)
    && s.lastPos <= s.tickPos
    && NoneEndsBefore(s.pending, s.tickPos)
  }

  /** The state after one turn of the release loop: the earliest-ending note
      popped, the clock moved to its end, and its NoteOff emitted. */
  function Pop(s: State): State
    requires Draining(s) && |s.pending| > 0
  {
    Emit(s.(pending := s.pending[..|s.pending| - 1], tickPos := s.pending[|s.pending| - 1].end),
         Midi(s.index, NoteOff(s.pending[|s.pending| - 1].key, 0)))
  }

  lemma PopDraining(s: State)
    requires Draining(s) && |s.pending| > 0
    ensures Draining(Pop(s))
  {
    var n := |s.pending|;
    forall i | 0 <= i < n - 1
      ensures s.pending[n - 1].end <= s.pending[i].end
    {
    }
  }

  /** The `while` loop of lines 125-131: pop while the earliest-ending note
      ends by `after`. */
  function Drain(s: State, after: u64): State
    requires Draining(s)
    decreases |s.pending|
  {
    if |s.pending| > 0 && s.pending[|s.pending| - 1].end <= after then
      PopDraining(s);
      Drain(Pop(s), after)
    else s
  }

  /** The release loop only touches the pending notes, the clocks and the
      events. */
  lemma {:induction false} DrainKeeps(s: State, after: u64)
    requires Draining(s)
    ensures Drain(s, after).index == s.index && Drain(s, after).pos == s.pos
    ensures Drain(s, after).stack == s.stack && Drain(s, after).flag == s.flag
    ensures Drain(s, after).variables == s.variables
    decreases |s.pending|
  {
    if |s.pending| > 0 && s.pending[|s.pending| - 1].end <= after {
      PopDraining(s);
      DrainKeeps(Pop(s), after);
    }
  }

  /** The notes due from a draining state end in order, none before the
      last event. */
  lemma DueFrom(s: State, after: nat)
    requires Draining(s)
    ensures EndsAscendingFrom(Due(s.pending, after), s.lastPos)
  {
    if |s.pending| > 0 {
      DueOrdered(s.pending, after);
    }
  }

  lemma OffEventsCons(p: Pending, d: seq<Pending>, from: nat, channel: u8)
    requires EndsAscendingFrom([p] + d, from) && from <= p.end
    ensures EndsAscendingFrom(d, p.end)
    ensures OffEvents([p] + d, from, channel) ==
      [Event(U32(p.end - from), Midi(channel, NoteOff(p.key, 0)))] + OffEvents(d, p.end, channel)
  {
    assert ([p] + d)[0] == p;
    assert ([p] + d)[1..] == d;
    forall i | 0 <= i < |d|
      ensures p.end <= d[i].end
    {
      assert d[i] == ([p] + d)[i + 1];
    }
  }

  lemma EventsAssoc(a: seq<Event>, e: Event, b: seq<Event>)
    ensures a + [e] + b == a + ([e] + b)
  {
  }

  /** One turn of the release loop, given what the rest of the loop does. */
  lemma DrainCons(s: State, after: u64)
    requires Draining(s) && |s.pending| > 0 && s.pending[|s.pending| - 1].end <= after
    requires Draining(Pop(s))
    requires EndsAscendingFrom(Due(Pop(s).pending, after), Pop(s).lastPos)
    requires EndsAscendingFrom(Due(s.pending, after), s.lastPos)
    requires Drain(Pop(s), after).pending == Kept(Pop(s).pending, after)
    requires Drain(Pop(s), after).messages ==
      Pop(s).messages + OffEvents(Due(Pop(s).pending, after), Pop(s).lastPos, Pop(s).index)
    requires Drain(Pop(s), after).tickPos == LastEnd(Due(Pop(s).pending, after), Pop(s).tickPos)
    requires Drain(Pop(s), after).lastPos == LastEnd(Due(Pop(s).pending, after), Pop(s).lastPos)
    ensures Drain(s, after).pending == Kept(s.pending, after)
    ensures Drain(s, after).messages == s.messages + OffEvents(Due(s.pending, after), s.lastPos, s.index)
    ensures Drain(s, after).tickPos == LastEnd(Due(s.pending, after), s.tickPos)
    ensures Drain(s, after).lastPos == LastEnd(Due(s.pending, after), s.lastPos)
  {
    assert Drain(s, after) == Drain(Pop(s), after);
    PopMessages(s, after);
  }

  /** The NoteOff of the popped note followed by those of the notes due
      after it are the NoteOffs of all the due notes. */
  lemma PopMessages(s: State, after: u64)
    requires Draining(s) && |s.pending| > 0 && s.pending[|s.pending| - 1].end <= after
    requires EndsAscendingFrom(Due(Pop(s).pending, after), Pop(s).lastPos)
    requires EndsAscendingFrom(Due(s.pending, after), s.lastPos)
    ensures Pop(s).messages + OffEvents(Due(Pop(s).pending, after), Pop(s).lastPos, Pop(s).index)
      == s.messages + OffEvents(Due(s.pending, after), s.lastPos, s.index)
  {
    var last := s.pending[|s.pending| - 1];
    assert Due(s.pending, after) == [last] + Due(Pop(s).pending, after);
    OffEventsCons(last, Due(Pop(s).pending, after), s.lastPos, s.index);
    EventsAssoc(s.messages, Event(U32(last.end - s.lastPos), Midi(s.index, NoteOff(last.key, 0))),
      OffEvents(Due(Pop(s).pending, after), last.end, s.index));
  }

  /** What the release loop does: the due notes leave the pending list, one
      NoteOff each is appended at its end tick, and both clocks end at the
      last released note's end. */
  lemma {:induction false} DrainIs(s: State, after: u64)
    requires Draining(s)
    ensures EndsAscendingFrom(Due(s.pending, after), s.lastPos)
    ensures Drain(s, after).pending == Kept(s.pending, after)
    ensures Drain(s, after).messages == s.messages + OffEvents(Due(s.pending, after), s.lastPos, s.index)
    ensures Drain(s, after).tickPos == LastEnd(Due(s.pending, after), s.tickPos)
    ensures Drain(s, after).lastPos == LastEnd(Due(s.pending, after), s.lastPos)
    decreases |s.pending|
  {
    DueFrom(s, after);
    if |s.pending| > 0 && s.pending[|s.pending| - 1].end <= after {
      PopDraining(s);
      DrainIs(Pop(s), after);
      DrainCons(s, after);
    }
  }

  /** Sorting keeps the pending notes, so none of them ends before the
      clock afterwards either. */
  lemma SortKeepsBound(ps: seq<Pending>, t: nat)
    requires NoneEndsBefore(ps, t)
    ensures NoneEndsBefore(SortByEnd(ps), t)
  {
    var sorted := SortByEnd(ps);
    SortByEndSpec(ps);
    forall i | 0 <= i < |sorted|
      ensures t <= sorted[i].end
    {
      assert sorted[i] in multiset(ps);
    }
  }

  /** The notes a rest of `len` releases, in release order. */
  function Released(s: State, len: nat): seq<Pending>
  {
    Due(SortByEnd(s.pending), s.tickPos + len)
  }

  /** The sorted pending list of a valid state is ready for the release
      loop, and the notes it releases end in order from the last event on. */
  lemma RestReady(s: State, len: nat)
    requires Inv(s)
    ensures Draining(s.(pending := SortByEnd(s.pending)))
    ensures EndsAscendingFrom(Released(s, len), s.lastPos)
  {
    SortKeepsBound(s.pending, s.tickPos);
    SortByEndSpec(s.pending);
    DueFrom(s.(pending := SortByEnd(s.pending)), s.tickPos + len);
  }

  /** `Rest(len)` after its overflow check, in closed form: the released
      notes leave the pending list and their NoteOffs are appended, and the
      clock moves to `tick_pos + len`. */
  function RestState(s: State, len: u64): State
    requires Inv(s) && s.tickPos + len < 0x1_0000_0000_0000_0000
  {
    RestReady(s, len);
    s.(pending := Kept(SortByEnd(s.pending), s.tickPos + len),
       messages := s.messages + OffEvents(Released(s, len), s.lastPos, s.index),
       lastPos := LastEnd(Released(s, len), s.lastPos),
       tickPos := s.tickPos + len)
  }

  /** The closed form is what the source's loop computes: sort by
      descending end, pop and release while the earliest-ending note ends by
      `tick_pos + len`, then set the clock. */
  lemma RestIsDrain(s: State, len: u64)
    requires Inv(s) && s.tickPos + len < 0x1_0000_0000_0000_0000
    ensures Draining(s.(pending := SortByEnd(s.pending)))
    ensures RestState(s, len) ==
      Drain(s.(pending := SortByEnd(s.pending)), s.tickPos + len).(tickPos := s.tickPos + len)
  {
    RestReady(s, len);
    DrainIs(s.(pending := SortByEnd(s.pending)), s.tickPos + len);
    DrainKeeps(s.(pending := SortByEnd(s.pending)), s.tickPos + len);
  }

  /** The invariant survives a rest. */
  lemma RestInv(s: State, len: u64)
    requires Inv(s) && s.tickPos + len < 0x1_0000_0000_0000_0000
    ensures Inv(RestState(s, len))
  {
    RestReady(s, len);
    SortByEndSpec(s.pending);
    KeptAfter(SortByEnd(s.pending), s.tickPos + len);
    DueBounded(SortByEnd(s.pending), s.tickPos + len);
    assert RestState(s, len).messages[0] == s.messages[0];
  }

  /** A rest splits the pending notes: those it releases and those it
      keeps are together exactly the notes pending before it. */
  lemma RestPartition(s: State, len: u64)
    requires Inv(s) && s.tickPos + len < 0x1_0000_0000_0000_0000
    ensures multiset(Released(s, len)) + multiset(RestState(s, len).pending) == multiset(s.pending)
  {
    SortedPartition(s.pending, s.tickPos + len);
  }

  lemma SortedPartition(ps: seq<Pending>, after: nat)
    ensures multiset(Due(SortByEnd(ps), after)) + multiset(Kept(SortByEnd(ps), after)) == multiset(ps)
  {
    var sorted := SortByEnd(ps);
    SortByEndSpec(ps);
    DueMultiset(sorted, after);
  }

  /** A rest releases notes ending by `tick_pos + len` and keeps only notes
      ending after it. */
  lemma RestSplitsAtClock(s: State, len: u64)
    requires Inv(s) && s.tickPos + len < 0x1_0000_0000_0000_0000
    ensures forall i :: 0 <= i < |Released(s, len)| ==> Released(s, len)[i].end <= s.tickPos + len
    ensures forall i :: 0 <= i < |RestState(s, len).pending| ==> s.tickPos + len < RestState(s, len).pending[i].end
  {
    SortByEndSpec(s.pending);
    KeptAfter(SortByEnd(s.pending), s.tickPos + len);
    DueBounded(SortByEnd(s.pending), s.tickPos + len);
  }

  /** The notes after the first end after it, in ascending order. */
  lemma TailEndsAscending(ds: seq<Pending>, from: nat)
    requires EndsAscendingFrom(ds, from) && |ds| > 0
    ensures EndsAscendingFrom(ds[1..], ds[0].end)
  {
    forall i | 0 <= i < |ds| - 1
      ensures ds[0].end <= ds[1..][i].end
    {
      assert ds[1..][i] == ds[i + 1];
    }
  }

  /** The NoteOff events of released notes: one per note, in order, the
      `k`-th stamped with the ticks since the end of the note before it, so
      that each lands at its own note's end tick. */
  lemma {:induction false} OffEventsAt(ds: seq<Pending>, from: nat, channel: u8, k: nat)
    requires EndsAscendingFrom(ds, from) && k < |ds|
    ensures |OffEvents(ds, from, channel)| == |ds|
    ensures OffEvents(ds, from, channel)[k] ==
      Event(U32(ds[k].end - (if k == 0 then from else ds[k - 1].end)), Midi(channel, NoteOff(ds[k].key, 0)))
    decreases |ds|
  {
    TailEndsAscending(ds, from);
    if k > 0 {
      OffEventsAt(ds[1..], ds[0].end, channel, k - 1);
    } else if |ds| > 1 {
      OffEventsAt(ds[1..], ds[0].end, channel, 0);
    } else {
      assert OffEvents(ds[1..], ds[0].end, channel) == [];
    }
  }

  /** The loop of lines 232-234: one NoteOff per note, in stored order. */
  function Flush(s: State, notes: seq<Pending>): (r: State)
    requires s.lastPos <= s.tickPos
    ensures r.lastPos <= r.tickPos == s.tickPos
    decreases |notes|
  {
    if |notes| == 0 then s
    else Flush(Emit(s, Midi(s.index, NoteOff(notes[0].key, 0))), notes[1..])
  }

  /** The end of a track: hand over the pending notes, release each at the
      current tick, then emit `EndOfTrack`. */
  function Finish(s: State): State
    requires s.lastPos <= s.tickPos
  {
    Emit(Flush(s.(pending := []), s.pending), TrackEnd)
  }

  /** The NoteOff events of the flush: the first carries the ticks since the
      last event, the others none. */
  function FlushEvents(notes: seq<Pending>, first: u32, channel: u8): (r: seq<Event>)
    ensures |r| == |notes|
  {
    seq(|notes|, i requires 0 <= i < |notes| =>
      Event(if i == 0 then first else 0, Midi(channel, NoteOff(notes[i].key, 0))))
  }

  lemma {:induction false} FlushIs(s: State, notes: seq<Pending>)
    requires s.lastPos <= s.tickPos
    ensures Flush(s, notes) == s.(
      messages := s.messages + FlushEvents(notes, U32(s.tickPos - s.lastPos), s.index),
      lastPos := if |notes| == 0 then s.lastPos else s.tickPos)
    decreases |notes|
  {
    if |notes| > 0 {
      var t := Emit(s, Midi(s.index, NoteOff(notes[0].key, 0)));
      FlushIs(t, notes[1..]);
      var a := FlushEvents(notes, U32(s.tickPos - s.lastPos), s.index);
      var b := FlushEvents(notes[1..], 0, s.index);
      assert a == [a[0]] + b;
    }
  }

  /** The end of a track flushes the remaining pending notes in their stored
      order at the current tick, then ends the track: the earlier events are
      kept, and the last event is `EndOfTrack`. */
  lemma FinishFlushes(s: State)
    requires Inv(s)
    ensures Finish(s).messages ==
      s.messages + FlushEvents(s.pending, U32(s.tickPos - s.lastPos), s.index) +
      [Event(if |s.pending| == 0 then U32(s.tickPos - s.lastPos) else 0, TrackEnd)]
    ensures Finish(s).messages[0].kind.TrackNumber?
    ensures Finish(s).pending == [] && Finish(s).tickPos == s.tickPos
  {
    FlushIs(s.(pending := []), s.pending);
  }
}
