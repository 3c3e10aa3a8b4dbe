/** The pump's loop body over the in-memory outbox, proved to follow the state machine. */
module RetryPump {
  import opened ByteStrings
  import opened Backoff
  import opened Retry
  import opened RetryDrain
  import opened RetrySchedule

  ghost predicate IsDueHandle(entries: map<Topic, Entry>, now: nat, h: Handle) {
    && h.topic in entries && entries[h.topic].nextAttemptMs <= now
    && h.payload == entries[h.topic].payload && h.attempts == entries[h.topic].attempts
  }

  /** Every entry due by `now` once, as it is stored, and nothing else. */
  ghost predicate DueExactly(entries: map<Topic, Entry>, now: nat, due: seq<Handle>) {
    && (forall i, j :: 0 <= i < j < |due| ==> due[i].topic != due[j].topic)
    && (forall h: Handle :: h in due <==> IsDueHandle(entries, now, h))
  }

  lemma HandlesAreDue(entries: map<Topic, Entry>, now: nat, order: seq<Topic>)
    requires DueOrder(entries, now, order) && forall i :: 0 <= i < |order| ==> order[i] in entries
    ensures DueExactly(entries, now, Handles(entries, order))
  {
    var due := Handles(entries, order);
    assert forall i :: 0 <= i < |order| ==> order[i] in order;
    forall h: Handle | h.topic in order && h == HandleOf(entries, h.topic) ensures h in due {
      var i :| 0 <= i < |order| && order[i] == h.topic;
      assert due[i] == h;
    }
  }

  class InMemoryOutbox {
    var entries: map<Topic, Entry>

    constructor ()
      ensures entries == map[]
    {
      entries := map[];
    }

    method Enqueue(topic: Topic, payload: Bytes)
      modifies this
      ensures entries == old(entries)[topic := Entry(payload, 0, 0)]
    {
      entries := entries[topic := Entry(payload, 0, 0)];
    }

    /** The due entries in whatever order the table yields them. */
    method DueEntries(now: nat) returns (due: seq<Handle>, ghost order: seq<Topic>)
      ensures DueOrder(entries, now, order)
      ensures forall i :: 0 <= i < |order| ==> order[i] in entries
      ensures due == Handles(entries, order)
      ensures DueExactly(entries, now, due)
    {
      due, order := [], [];
      var rest := entries.Keys;
      while rest != {}
        invariant rest <= entries.Keys
        invariant forall t :: t in order <==> t in entries.Keys - rest && entries[t].nextAttemptMs <= now
        invariant forall i, j :: 0 <= i < j < |order| ==> order[i] != order[j]
        invariant forall i :: 0 <= i < |order| ==> order[i] in entries
        invariant due == Handles(entries, order)
        decreases |rest|
      {
        var t :| t in rest;
        if entries[t].nextAttemptMs <= now {
          assert t !in order;
          due, order := due + [HandleOf(entries, t)], order + [t];
        }
        rest := rest - {t};
      }
      HandlesAreDue(entries, now, order);
    }

    method Ack(topic: Topic)
      modifies this
      ensures entries == old(entries) - {topic}
    {
      entries := entries - {topic};
    }

    method RecordFailure(topic: Topic, next: nat)
      modifies this
      ensures entries == Rescheduled(old(entries), topic, next)
    {
      if topic in entries {
        var e := entries[topic];
        e := e.(attempts := (e.attempts + 1) % 256);
        e := e.(nextAttemptMs := next);
        entries := entries[topic := e];
      }
    }

    method Remove(topic: Topic)
      modifies this
      ensures entries == old(entries) - {topic}
    {
      entries := entries - {topic};
    }
  }

  datatype Arrival = Arrival(topic: Topic, payload: Bytes)

  /** What the pump meets in one turn: the clock at its poll; each publish's outcome, the clock
      readings around it and what other tasks enqueue while it is awaited; the clock when all is
      published; and what is enqueued while the loop then sleeps. */
  datatype Round = Round(
    now: nat, ok: nat -> bool, at: nat -> nat, nanos: nat -> nat, during: nat -> seq<Arrival>,
    end: nat, after: seq<Arrival>)

  ghost predicate ClockMoves(r: Round) {
    && r.now <= r.end && (forall i: nat :: r.now <= r.at(i) <= r.end)
    && (forall i: nat, j: nat :: i <= j ==> r.at(i) <= r.at(j))
  }

  ghost function Arriving(arrivals: seq<Arrival>): seq<Action> {
    seq(|arrivals|, i requires 0 <= i < |arrivals| => Enqueue(arrivals[i].topic, arrivals[i].payload))
  }

  /** A poll, then the first `n` publishes of what it took, in turn, each with what arrives meanwhile. */
  ghost function RoundActions(r: Round, order: seq<Topic>, n: nat): seq<Action> {
    if n == 0 then [Poll(r.now, order)]
    else RoundActions(r, order, n - 1) + Arriving(r.during(n - 1)) + [Publish(r.ok(n - 1), r.at(n - 1), r.nanos(n - 1))]
  }

  /** The loop from one poll to the next. */
  ghost function TurnActions(r: Round, order: seq<Topic>): seq<Action> {
    RoundActions(r, order, |order|) + Arriving(r.after)
  }

  lemma {:induction false} RoundShape(r: Round, order: seq<Topic>, n: nat)
    ensures var actions := RoundActions(r, order, n);
      actions != [] && actions[0] == Poll(r.now, order) && forall i :: 1 <= i < |actions| ==> !actions[i].Poll?
  {
    if n == 0 {
    } else {
      RoundShape(r, order, n - 1);
    }
  }

  lemma ArrivingRuns(s: State, arrivals: seq<Arrival>, i: nat)
    requires i < |arrivals| && Runs(s, Arriving(arrivals[..i]))
    ensures var before, a := Arriving(arrivals[..i]), Enqueue(arrivals[i].topic, arrivals[i].payload);
      Runs(s, Arriving(arrivals[..i + 1])) && After(s, Arriving(arrivals[..i + 1])) == Step(After(s, before), a)
  {
    var before, a := Arriving(arrivals[..i]), Enqueue(arrivals[i].topic, arrivals[i].payload);
    RunsMore(s, before, a);
    assert Arriving(arrivals[..i + 1]) == before + [a];
  }

  /** The entry of the handle counts one more attempt and is due after a wait that doubles with
      the attempts of the handle; nothing else changes. */
  ghost predicate Retries(before: map<Topic, Entry>, after: map<Topic, Entry>, h: Handle, now: nat) {
    && h.topic in before && h.topic in after && after - {h.topic} == before - {h.topic}
    && after[h.topic].payload == before[h.topic].payload && after[h.topic].attempts == before[h.topic].attempts + 1
    && InRange(Failure(now, after[h.topic].nextAttemptMs), h.attempts)
  }

  lemma RescheduledRetries(before: map<Topic, Entry>, h: Handle, now: nat, next: nat)
    requires h.topic in before && before[h.topic].attempts < MAX_ATTEMPTS && InRange(Failure(now, next), h.attempts)
    ensures Retries(before, Rescheduled(before, h.topic, next), h, now)
  {
  }

  lemma PublishFacts(s: State)
    requires Inv(s) && s.due != []
    ensures var h := s.due[0];
      h.topic in s.entries && h.attempts <= 4 && NextAttempts(h) == h.attempts + 1 && s.entries[h.topic].attempts < MAX_ATTEMPTS
  {
    HeadFacts(s);
  }

  class RetryPump {
    const outbox: InMemoryOutbox
    const channel: bool
    var events: seq<RetryExhausted>
    ghost var state: State

    ghost predicate Follows()
      reads this, outbox
    {
      && state.entries == outbox.entries && state.events == events && state.channel == channel
    }

    ghost predicate Valid()
      reads this, outbox
    {
      Follows() && Inv(state) && state.due == []
    }

    constructor (outbox: InMemoryOutbox, channel: bool)
      requires outbox.entries == map[]
      ensures Valid() && this.outbox == outbox && state == Initial(channel)
    {
      this.outbox := outbox;
      this.channel := channel;
      events := [];
      state := Initial(channel);
    }

    /** The handling of one due entry. */
    method PublishOne(h: Handle, ok: bool, now: nat, nanos: nat)
      requires Follows() && Inv(state) && state.due != [] && h == state.due[0] && state.clock <= now
      modifies this, outbox
      ensures Follows() && state == Step(old(state), Publish(ok, now, nanos))
      ensures state.due == old(state.due)[1..] && state.clock == now
      ensures ok || h.attempts == 4 ==> outbox.entries == old(outbox.entries) - {h.topic}
      ensures !ok && h.attempts != 4 ==> Retries(old(outbox.entries), outbox.entries, h, now)
      ensures events == old(events) + if !ok && h.attempts == 4 && channel then [RetryExhausted(h.topic, 5)] else []
    {
      PublishFacts(state);
      Settle(h, ok, now, nanos);
      if !ok && h.attempts != 4 {
        BackoffInRange(h.attempts, now, nanos);
        RescheduledRetries(old(outbox.entries), h, now, now + ComputeBackoffMs(h.attempts + 1, nanos));
      }
    }

    method Settle(h: Handle, ok: bool, now: nat, nanos: nat)
      requires Follows() && state.due != [] && h == state.due[0] && state.clock <= now
      modifies this, outbox
      ensures Follows() && state == Step(old(state), Publish(ok, now, nanos))
      ensures state.due == old(state.due)[1..] && state.clock == now
      ensures var next, before := NextAttempts(h), old(outbox.entries);
        && outbox.entries == (if ok || next >= MAX_ATTEMPTS then before - {h.topic} else Rescheduled(before, h.topic, now + ComputeBackoffMs(next, nanos)))
        && events == old(events) + if !ok && next >= MAX_ATTEMPTS && channel then [RetryExhausted(h.topic, next)] else []
    {
      var next := (h.attempts + 1) % 256;
      ghost var after := PublishNext(state, ok, now, now + WaitOf(state, nanos));
      if ok {
        outbox.Ack(h.topic);
      } else if next >= MAX_ATTEMPTS {
        outbox.Remove(h.topic);
        if channel {
          events := events + [RetryExhausted(h.topic, next)];
        }
      } else {
        var delay := ComputeBackoffMs(next, nanos);
        outbox.RecordFailure(h.topic, now + delay);
      }
      state := after;
    }

    /** Another task's enqueue, between two turns or while a publish is awaited. */
    method Enqueue(topic: Topic, payload: Bytes)
      requires Follows() && Inv(state)
      modifies this, outbox
      ensures Follows() && Inv(state) && state == Step(old(state), Action.Enqueue(topic, payload))
      ensures outbox.entries == old(outbox.entries)[topic := Entry(payload, 0, 0)]
    {
      EnqueueKeeps(state, topic, payload);
      outbox.Enqueue(topic, payload);
      state := Enqueued(state, topic, payload);
    }

    method Arrive(arrivals: seq<Arrival>)
      requires Follows() && Inv(state)
      modifies this, outbox
      ensures Follows() && Inv(state) && state.due == old(state.due) && state.clock == old(state.clock)
      ensures Runs(old(state), Arriving(arrivals)) && state == After(old(state), Arriving(arrivals))
    {
      ghost var start := state;
      var i := 0;
      while i < |arrivals|
        invariant 0 <= i <= |arrivals|
        invariant Follows() && Inv(state) && state.due == start.due && state.clock == start.clock
        invariant Runs(start, Arriving(arrivals[..i])) && state == After(start, Arriving(arrivals[..i]))
      {
        var a := arrivals[i];
        ArrivingRuns(start, arrivals, i);
        Enqueue(a.topic, a.payload);
        i := i + 1;
      }
      assert arrivals[..i] == arrivals;
    }

    /** The publish number `i` of a round. */
    method PublishNth(ghost start: State, r: Round, ghost order: seq<Topic>, h: Handle, i: nat)
      requires Follows() && Inv(start) && Runs(start, RoundActions(r, order, i)) && state == After(start, RoundActions(r, order, i))
      requires state.due != [] && h == state.due[0] && state.clock <= r.at(i)
      modifies this, outbox
      ensures Follows() && Runs(start, RoundActions(r, order, i + 1)) && state == After(start, RoundActions(r, order, i + 1))
      ensures state.due == old(state.due)[1..] && state.clock == r.at(i)
    {
      ghost var before, meanwhile := RoundActions(r, order, i), Arriving(r.during(i));
      RunKeeps(start, before);
      Arrive(r.during(i));
      RunsBoth(start, before, meanwhile);
      RunsMore(start, before + meanwhile, Publish(r.ok(i), r.at(i), r.nanos(i)));
      PublishOne(h, r.ok(i), r.at(i), r.nanos(i));
    }

    method TakeDue(r: Round) returns (due: seq<Handle>, ghost order: seq<Topic>)
      requires Valid() && state.clock <= r.now
      modifies this`state
      ensures Follows() && state.due == due && state.clock == r.now && |due| == |order|
      ensures Runs(old(state), RoundActions(r, order, 0)) && state == After(old(state), RoundActions(r, order, 0))
    {
      due, order := outbox.DueEntries(r.now);
      RunsOne(state, Poll(r.now, order));
      state := Step(state, Poll(r.now, order));
    }

    /** The poll and the publishes of all it took. */
    method PollOnce(r: Round) returns (ghost order: seq<Topic>)
      requires Valid() && state.clock <= r.now && ClockMoves(r)
      modifies this, outbox
      ensures Valid() && r.now <= state.clock <= r.end
      ensures var actions := RoundActions(r, order, |order|); Runs(old(state), actions) && state == After(old(state), actions)
    {
      ghost var start := state;
      var due;
      due, order := TakeDue(r);
      var i := 0;
      while i < |due|
        invariant 0 <= i <= |due| == |order|
        invariant Follows() && Runs(start, RoundActions(r, order, i)) && state == After(start, RoundActions(r, order, i))
        invariant state.due == due[i..]
        invariant r.now <= state.clock <= r.end && state.clock <= r.at(i)
      {
        PublishNth(start, r, order, due[i], i);
        i := i + 1;
      }
      RunKeeps(start, RoundActions(r, order, i));
    }

    /** One turn of the endless loop, with what arrives before the next. */
    method Turn(r: Round) returns (ghost turn: seq<Action>)
      requires Valid() && state.clock <= r.now && ClockMoves(r)
      modifies this, outbox
      ensures Valid() && LoopStep(old(state), state, turn, r)
    {
      ghost var start := state;
      ghost var order := PollOnce(r);
      Arrive(r.after);
      RunsBoth(start, RoundActions(r, order, |order|), Arriving(r.after));
      turn := TurnActions(r, order);
      TurnShape(start, r, order);
    }

    method NextTurn(ghost states: seq<State>, ghost turns: seq<seq<Action>>, ghost rs: seq<Round>, r: Round)
      returns (ghost states': seq<State>, ghost turns': seq<seq<Action>>)
      requires Looped(states, turns, rs) && states[|rs|] == state
      requires Valid() && state.clock <= r.now && ClockMoves(r)
      modifies this, outbox
      ensures Valid() && state.clock <= r.end
      ensures Looped(states', turns', rs + [r]) && states'[0] == states[0] && states'[|rs| + 1] == state
    {
      ghost var turn := Turn(r);
      LoopedMore(states, turns, rs, state, turn, r);
      states', turns' := states + [state], turns + [turn];
    }

    /** The loop, for as many turns as there are rounds. */
    method PumpLoop(rs: seq<Round>) returns (ghost states: seq<State>, ghost turns: seq<seq<Action>>)
      requires Valid() && Sleeps(state.clock, rs)
      modifies this, outbox
      ensures Valid()
      ensures Looped(states, turns, rs) && states[0] == old(state) && states[|rs|] == state
    {
      states, turns := [state], [];
      var i := 0;
      while i < |rs|
        invariant 0 <= i <= |rs| && Valid()
        invariant Looped(states, turns, rs[..i]) && states[0] == old(state) && states[i] == state
        invariant i < |rs| ==> state.clock <= rs[i].now
      {
        states, turns := NextTurn(states, turns, rs[..i], rs[i]);
        assert rs[..i + 1] == rs[..i] + [rs[i]];
        i := i + 1;
      }
      assert rs[..i] == rs;
    }
  }

  lemma TurnShape(s: State, r: Round, order: seq<Topic>)
    requires var turn := TurnActions(r, order); Runs(s, turn) && s.due == [] && After(s, turn).due == []
    ensures IsTurn(s, TurnActions(r, order)) && TurnActions(r, order)[0] == Poll(r.now, order)
  {
    RoundShape(r, order, |order|);
  }

  /** One turn of the loop, as a turn of the state machine. */
  ghost predicate LoopStep(s: State, s': State, turn: seq<Action>, r: Round) {
    && IsTurn(s, turn) && s' == After(s, turn) && PollTime(turn) == r.now
    && turn == TurnActions(r, turn[0].order) && r.now <= s'.clock <= r.end
  }

  ghost predicate Looped(states: seq<State>, turns: seq<seq<Action>>, rs: seq<Round>) {
    && |states| == |turns| + 1 && |turns| == |rs|
    && forall i {:trigger turns[i]} :: 0 <= i < |turns| ==> LoopStep(states[i], states[i + 1], turns[i], rs[i])
  }

  /** The loop sleeps after each turn. */
  ghost predicate Sleeps(clock: nat, rs: seq<Round>) {
    && (rs != [] ==> clock <= rs[0].now)
    && (forall i :: 0 <= i < |rs| ==> ClockMoves(rs[i]))
    && (forall i, j :: 0 <= i && j == i + 1 && j < |rs| ==> rs[i].end + PUMP_POLL_INTERVAL_MS <= rs[j].now)
  }

  lemma LoopedMore(states: seq<State>, turns: seq<seq<Action>>, rs: seq<Round>, s': State, turn: seq<Action>, r: Round)
    requires Looped(states, turns, rs) && LoopStep(states[|turns|], s', turn, r)
    ensures Looped(states + [s'], turns + [turn], rs + [r])
  {
  }

  ghost predicate Has(arrivals: seq<Arrival>, t: Topic) {
    exists i :: 0 <= i < |arrivals| && arrivals[i].topic == t
  }

  ghost predicate Brings(r: Round, t: Topic) {
    Has(r.after, t) || exists n: nat :: Has(r.during(n), t)
  }

  lemma ArrivingSpares(arrivals: seq<Arrival>, t: Topic)
    requires !Has(arrivals, t)
    ensures Spares(Arriving(arrivals), t)
  {
  }

  lemma SparesBoth(front: seq<Action>, back: seq<Action>, t: Topic)
    requires Spares(front, t) && Spares(back, t)
    ensures Spares(front + back, t)
  {
  }

  lemma {:induction false} RoundSpares(r: Round, order: seq<Topic>, n: nat, t: Topic)
    requires !Brings(r, t)
    ensures Spares(RoundActions(r, order, n), t)
  {
    if n == 0 {
    } else {
      RoundSpares(r, order, n - 1, t);
      ArrivingSpares(r.during(n - 1), t);
      SparesBoth(RoundActions(r, order, n - 1), Arriving(r.during(n - 1)), t);
    }
  }

  lemma TurnSpares(r: Round, order: seq<Topic>, t: Topic)
    requires !Brings(r, t)
    ensures Spares(TurnActions(r, order), t)
  {
    RoundSpares(r, order, |order|, t);
    ArrivingSpares(r.after, t);
    SparesBoth(RoundActions(r, order, |order|), Arriving(r.after), t);
  }

  /** The loop's polls come at most `slack` late, and its turns take at most `busy`. */
  ghost predicate Punctual(clock: nat, rs: seq<Round>, slack: nat, busy: nat) {
    && (rs != [] ==> rs[0].now <= clock + PUMP_POLL_INTERVAL_MS + slack)
    && (forall i :: 0 <= i < |rs| ==> rs[i].end <= rs[i].now + busy)
    && (forall i, j :: 0 <= i && j == i + 1 && j < |rs| ==> rs[j].now <= rs[i].now + PUMP_POLL_INTERVAL_MS + slack)
  }

  /** The loop's own turns drain in time. */
  lemma LoopDrains(states: seq<State>, turns: seq<seq<Action>>, rs: seq<Round>, slack: nat, busy: nat, t: Topic)
    requires Looped(states, turns, rs) && Inv(states[0]) && Punctual(states[0].clock, rs, slack, busy)
    requires forall i :: 0 <= i < |rs| ==> !Brings(rs[i], t)
    requires states[|rs|].clock >= states[0].clock + DrainTime(slack, busy)
    ensures t !in states[|rs|].entries
  {
    forall i {:trigger turns[i]} | 0 <= i < |turns|
      ensures OnTimeTurn(states[i], states[i + 1], turns[i], t, slack, busy)
    {
      assert LoopStep(states[i], states[i + 1], turns[i], rs[i]);
      TurnSpares(rs[i], turns[i][0].order, t);
      if i > 0 {
        assert LoopStep(states[i - 1], states[i], turns[i - 1], rs[i - 1]);
      }
    }
    DrainedInTime(states, turns, t, slack, busy, |rs|);
  }
}
