/** Turns of the pump loop, and how long an entry can stay in the outbox whatever the publish outcomes. */
module RetryDrain {
  import opened Backoff
  import opened Retry

  const PUMP_POLL_INTERVAL_MS: nat := 250

  /** A poll and everything up to the next one: the publishes of all it took, and enqueues anywhere. */
  ghost predicate IsTurn(s: State, turn: seq<Action>) {
    && Runs(s, turn) && turn != [] && turn[0].Poll? && s.due == [] && After(s, turn).due == []
    && forall i :: 1 <= i < |turn| ==> !turn[i].Poll?
  }

  ghost predicate Spares(actions: seq<Action>, t: Topic) {
    forall i :: 0 <= i < |actions| && actions[i].Enqueue? ==> actions[i].topic != t
  }

  ghost predicate TurnFrom(s: State, s': State, turn: seq<Action>, t: Topic) {
    IsTurn(s, turn) && s' == After(s, turn) && Spares(turn, t)
  }

  /** Consecutive turns, with the states between them, in which `t` is not enqueued. */
  ghost predicate Turns(states: seq<State>, turns: seq<seq<Action>>, t: Topic) {
    && |states| == |turns| + 1 && Inv(states[0])
    && forall i {:trigger turns[i]} :: 0 <= i < |turns| ==> TurnFrom(states[i], states[i + 1], turns[i], t)
  }

  lemma TurnAt(states: seq<State>, turns: seq<seq<Action>>, t: Topic, i: nat)
    requires Turns(states, turns, t) && i < |turns|
    ensures TurnFrom(states[i], states[i + 1], turns[i], t)
  {
  }

  function PollTime(turn: seq<Action>): nat
    requires turn != [] && turn[0].Poll?
  {
    turn[0].now
  }

  /** Nothing is pending under `t`, or it has been tried `k` times. */
  ghost predicate Tried(entries: map<Topic, Entry>, t: Topic, k: nat) {
    t in entries ==> entries[t].attempts >= k
  }

  /** It has been tried once more than that, or is due by `time`. */
  ghost predicate TriedOrDueBy(entries: map<Topic, Entry>, t: Topic, k: nat, time: nat) {
    t in entries ==> entries[t].attempts >= k + 1 || (entries[t].attempts >= k && entries[t].nextAttemptMs <= time)
  }

  /** Or it is taken. */
  ghost predicate TriedOrTaken(entries: map<Topic, Entry>, due: seq<Handle>, t: Topic, k: nat) {
    t in entries ==> entries[t].attempts >= k + 1 || (entries[t].attempts >= k && exists h :: h in due && h.topic == t)
  }

  /** What a step other than its enqueue does to the entry of `t`. */
  ghost predicate Moves(entries: map<Topic, Entry>, entries': map<Topic, Entry>, t: Topic) {
    t in entries' ==> t in entries && (entries'[t] == entries[t] || entries'[t].attempts == entries[t].attempts + 1)
  }

  lemma PublishMoves(s: State, ok: bool, now: nat, next: nat, t: Topic, s': State)
    requires Tracked(s) && s.due != [] && s' == PublishNext(s, ok, now, next)
    ensures Moves(s.entries, s'.entries, t)
    ensures t != s.due[0].topic && t in s'.entries ==> s'.entries[t] == s.entries[t]
    ensures t == s.due[0].topic && t in s'.entries ==> s'.entries[t].attempts == s.entries[t].attempts + 1
  {
    EntriesAfter(s, ok, now, next);
    var u := s.due[0].topic;
    if t != u && t in s'.entries {
      assert t in s'.entries - {u} && t in s.entries - {u};
    }
  }

  lemma StepMoves(s: State, a: Action, t: Topic)
    requires Tracked(s) && Enabled(s, a) && (a.Enqueue? ==> a.topic != t)
    ensures Moves(s.entries, Step(s, a).entries, t)
  {
    match a
    case Enqueue(_, _) =>
    case Poll(_, _) =>
    case Publish(ok, now, nanos) => PublishMoves(s, ok, now, now + WaitOf(s, nanos), t, Step(s, a));
  }

  /** Whatever is tried or due stays so. */
  lemma MovesKeep(entries: map<Topic, Entry>, entries': map<Topic, Entry>, t: Topic, k: nat, time: nat)
    requires Moves(entries, entries', t)
    ensures Tried(entries, t, k) ==> Tried(entries', t, k)
    ensures TriedOrDueBy(entries, t, k, time) ==> TriedOrDueBy(entries', t, k, time)
  {
  }

  lemma {:induction false} RunKeepsTried(s: State, actions: seq<Action>, t: Topic, k: nat, time: nat)
    requires Inv(s) && Runs(s, actions) && Spares(actions, t)
    ensures Tried(s.entries, t, k) ==> Tried(After(s, actions).entries, t, k)
    ensures TriedOrDueBy(s.entries, t, k, time) ==> TriedOrDueBy(After(s, actions).entries, t, k, time)
  {
    if actions == [] {
    } else {
      var n := |actions| - 1;
      RunKeepsTried(s, actions[..n], t, k, time);
      RunKeeps(s, actions[..n]);
      StepMoves(After(s, actions[..n]), actions[n], t);
      MovesKeep(After(s, actions[..n]).entries, After(s, actions).entries, t, k, time);
    }
  }

  /** A poll takes what is due. */
  lemma PollTakes(s: State, now: nat, order: seq<Topic>, t: Topic, k: nat, time: nat)
    requires Enabled(s, Poll(now, order)) && time <= now && TriedOrDueBy(s.entries, t, k, time)
    ensures var s' := Step(s, Poll(now, order)); TriedOrTaken(s'.entries, s'.due, t, k)
  {
    var s' := Step(s, Poll(now, order));
    if t in order {
      var i :| 0 <= i < |order| && order[i] == t;
      assert order[i] in s.entries && s'.due[i].topic == t && s'.due[i] in s'.due;
    }
  }

  lemma PublishTakes(s: State, ok: bool, now: nat, next: nat, t: Topic, k: nat, s': State)
    requires Tracked(s) && s.due != [] && s' == PublishNext(s, ok, now, next) && TriedOrTaken(s.entries, s.due, t, k)
    ensures TriedOrTaken(s'.entries, s'.due, t, k)
  {
    PublishMoves(s, ok, now, next, t, s');
    if t in s'.entries && s'.entries[t].attempts < k + 1 {
      var h :| h in s.due && h.topic == t;
      assert s.due == [s.due[0]] + s.due[1..] && h in s'.due;
    }
  }

  lemma StepTakes(s: State, a: Action, t: Topic, k: nat)
    requires Tracked(s) && Enabled(s, a) && (a.Enqueue? ==> a.topic != t) && !a.Poll? && TriedOrTaken(s.entries, s.due, t, k)
    ensures TriedOrTaken(Step(s, a).entries, Step(s, a).due, t, k)
  {
    match a
    case Enqueue(_, _) =>
    case Publish(ok, now, nanos) => PublishTakes(s, ok, now, now + WaitOf(s, nanos), t, k, Step(s, a));
  }

  lemma {:induction false} TurnTakes(s: State, turn: seq<Action>, t: Topic, k: nat, time: nat)
    requires Inv(s) && Runs(s, turn) && turn != [] && turn[0].Poll? && Spares(turn, t)
    requires forall i :: 1 <= i < |turn| ==> !turn[i].Poll?
    requires time <= PollTime(turn) && TriedOrDueBy(s.entries, t, k, time)
    ensures TriedOrTaken(After(s, turn).entries, After(s, turn).due, t, k)
  {
    var n := |turn| - 1;
    if n == 0 {
      assert turn[..n] == [];
      PollTakes(s, turn[0].now, turn[0].order, t, k, time);
    } else {
      TurnTakes(s, turn[..n], t, k, time);
      RunKeeps(s, turn[..n]);
      StepTakes(After(s, turn[..n]), turn[n], t, k);
    }
  }

  /** A turn at which the entry is due, if it is still to be tried, tries it. */
  lemma TurnTries(s: State, s': State, turn: seq<Action>, t: Topic, k: nat, time: nat)
    requires Inv(s) && TurnFrom(s, s', turn, t) && TriedOrDueBy(s.entries, t, k, time) && time <= PollTime(turn)
    ensures Tried(s'.entries, t, k + 1)
  {
    TurnTakes(s, turn, t, k, time);
  }

  /** From `s` to `s'`, what is tried or due stays so. */
  ghost predicate Keeps(s: State, s': State, t: Topic, k: nat, time: nat) {
    && (Tried(s.entries, t, k) ==> Tried(s'.entries, t, k))
    && (TriedOrDueBy(s.entries, t, k, time) ==> TriedOrDueBy(s'.entries, t, k, time))
  }

  lemma KeepsOn(s: State, s': State, s'': State, t: Topic, k: nat, time: nat)
    requires Keeps(s, s', t, k, time) && Keeps(s', s'', t, k, time)
    ensures Keeps(s, s'', t, k, time)
  {
  }

  lemma TurnKeeps(s: State, s': State, turn: seq<Action>, t: Topic, k: nat, time: nat)
    requires Inv(s) && TurnFrom(s, s', turn, t)
    ensures Inv(s') && s'.due == [] && Keeps(s, s', t, k, time)
  {
    RunKeeps(s, turn);
    RunKeepsTried(s, turn, t, k, time);
  }

  lemma DueSoon(s: State, t: Topic, k: nat)
    requires Inv(s) && Tried(s.entries, t, k)
    ensures TriedOrDueBy(s.entries, t, k, s.clock + 4000)
  {
    if t in s.entries {
      assert EntryPaced(s.entries[t], LifeOf(s, t), s.clock);
    }
  }

  lemma TriedOut(s: State, t: Topic)
    requires Inv(s) && Tried(s.entries, t, MAX_ATTEMPTS)
    ensures t !in s.entries
  {
  }

  /** What holds at first and passes from each place to the next holds at all. */
  lemma {:induction false} Along(good: nat -> bool, n: nat)
    requires good(0) && forall i: nat :: i < n && good(i) ==> good(i + 1)
    ensures good(n)
  {
    if n == 0 {
    } else {
      Along(good, n - 1);
    }
  }

  /** Whatever every turn keeps passes along the turns. */
  lemma Carried(good: State -> bool, states: seq<State>, turns: seq<seq<Action>>, t: Topic, n: nat)
    requires |states| == |turns| + 1 && n <= |turns| && good(states[0])
    requires forall i {:trigger turns[i]} :: 0 <= i < |turns| ==> TurnFrom(states[i], states[i + 1], turns[i], t)
    requires forall s, s', turn :: good(s) && TurnFrom(s, s', turn, t) ==> good(s')
    ensures good(states[n])
  {
    var at := (i: nat) => i < |states| && good(states[i]);
    forall i: nat | i < n && at(i) ensures at(i + 1) {
      assert TurnFrom(states[i], states[i + 1], turns[i], t);
    }
    Along(at, n);
  }

  lemma TurnsSound(states: seq<State>, turns: seq<seq<Action>>, t: Topic, n: nat)
    requires Turns(states, turns, t) && n <= |turns|
    ensures Inv(states[n])
  {
    var good := (s: State) => Inv(s);
    forall s, s', turn | good(s) && TurnFrom(s, s', turn, t) ensures good(s') {
      RunKeeps(s, turn);
    }
    Carried(good, states, turns, t, n);
  }

  lemma OneTurnKeeps(states: seq<State>, turns: seq<seq<Action>>, t: Topic, i: nat, k: nat, time: nat)
    requires Turns(states, turns, t) && i < |turns|
    ensures Keeps(states[i], states[i + 1], t, k, time)
  {
    TurnsSound(states, turns, t, i);
    TurnAt(states, turns, t, i);
    TurnKeeps(states[i], states[i + 1], turns[i], t, k, time);
  }

  lemma {:induction false} TurnsKeep(states: seq<State>, turns: seq<seq<Action>>, t: Topic, a: nat, b: nat, k: nat, time: nat)
    requires Turns(states, turns, t) && a <= b <= |turns|
    ensures Keeps(states[a], states[b], t, k, time)
    decreases b
  {
    if a == b {
    } else {
      TurnsKeep(states, turns, t, a, b - 1, k, time);
      OneTurnKeeps(states, turns, t, b - 1, k, time);
      KeepsOn(states[a], states[b - 1], states[b], t, k, time);
    }
  }

  /** Marked turns: each polls 4000 ms or more after the clock at the end of the one before. */
  ghost predicate Marked(states: seq<State>, turns: seq<seq<Action>>, t: Topic, marks: seq<nat>) {
    && Turns(states, turns, t)
    && forall j {:trigger Restart(marks, j)} :: 0 <= j < |marks| ==> MarkedAfter(states, turns, t, Restart(marks, j), marks[j])
  }

  /** The state from which the wait for the mark counts. */
  function Restart(marks: seq<nat>, j: nat): nat
    requires j < |marks|
  {
    if j == 0 then 0 else marks[j - 1] + 1
  }

  ghost predicate MarkedAfter(states: seq<State>, turns: seq<seq<Action>>, t: Topic, from: nat, mark: nat)
    requires Turns(states, turns, t)
  {
    from <= mark < |turns| && TurnFrom(states[mark], states[mark + 1], turns[mark], t) && states[from].clock + 4000 <= PollTime(turns[mark])
  }

  lemma MarkTries(states: seq<State>, turns: seq<seq<Action>>, t: Topic, from: nat, mark: nat, k: nat)
    requires Turns(states, turns, t) && MarkedAfter(states, turns, t, from, mark) && Tried(states[from].entries, t, k)
    ensures Tried(states[mark + 1].entries, t, k + 1)
  {
    var time := states[from].clock + 4000;
    TurnsSound(states, turns, t, from);
    DueSoon(states[from], t, k);
    TurnsKeep(states, turns, t, from, mark, k, time);
    TurnsSound(states, turns, t, mark);
    TurnTries(states[mark], states[mark + 1], turns[mark], t, k, time);
  }

  lemma MarkNext(states: seq<State>, turns: seq<seq<Action>>, t: Topic, marks: seq<nat>, j: nat)
    requires Marked(states, turns, t, marks) && j < |marks| && TriedAtMark(states, t, marks, j)
    ensures TriedAtMark(states, t, marks, j + 1)
  {
    var from, mark := Restart(marks, j), marks[j];
    assert MarkedAfter(states, turns, t, from, mark);
    MarkTries(states, turns, t, from, mark, j);
  }

  /** By the `j`-th mark the entry has been tried `j` times. */
  ghost predicate TriedAtMark(states: seq<State>, t: Topic, marks: seq<nat>, j: nat) {
    && j <= |marks|
    && var n := if j == 0 then 0 else marks[j - 1] + 1;
      n < |states| && Tried(states[n].entries, t, j)
  }

  lemma MarksTry(states: seq<State>, turns: seq<seq<Action>>, t: Topic, marks: seq<nat>, j: nat)
    requires Marked(states, turns, t, marks) && j <= |marks|
    ensures TriedAtMark(states, t, marks, j)
  {
    var good := (i: nat) => TriedAtMark(states, t, marks, i);
    forall i: nat | i < j && good(i) ensures good(i + 1) {
      MarkNext(states, turns, t, marks, i);
    }
    Along(good, j);
  }

  /** Among turns of any spacing, five that lie 4000 ms apart suffice: after them, and for as long
      as it is not enqueued again, nothing is pending under the topic. */
  lemma FiveMarksDrain(states: seq<State>, turns: seq<seq<Action>>, t: Topic, marks: seq<nat>, n: nat)
    requires Marked(states, turns, t, marks) && |marks| == 5 && marks[4] < n <= |turns|
    ensures t !in states[n].entries
  {
    MarksTry(states, turns, t, marks, 5);
    TurnsKeep(states, turns, t, marks[4] + 1, n, 5, 0);
    TurnsSound(states, turns, t, n);
    TriedOut(states[n], t);
  }

  /** The loop sleeps between turns: each poll comes at most `slack` late, and the clock moves at
      most `busy` until the turn is over. */
  ghost predicate OnTime(states: seq<State>, turns: seq<seq<Action>>, t: Topic, slack: nat, busy: nat) {
    && Turns(states, turns, t)
    && forall i {:trigger turns[i]} :: 0 <= i < |turns| ==> OnTimeTurn(states[i], states[i + 1], turns[i], t, slack, busy)
  }

  ghost predicate OnTimeTurn(s: State, s': State, turn: seq<Action>, t: Topic, slack: nat, busy: nat) {
    && TurnFrom(s, s', turn, t)
    && PollTime(turn) <= s.clock + PUMP_POLL_INTERVAL_MS + slack
    && s'.clock <= PollTime(turn) + busy
  }

  /** The most that lies between one try and the next. */
  function Cycle(slack: nat, busy: nat): nat {
    4000 + PUMP_POLL_INTERVAL_MS + slack + 2 * busy
  }

  /** The latest a try can be due that follows `k` others. */
  function LatestDue(k: nat, slack: nat, busy: nat): nat {
    if k == 0 then 4000 else LatestDue(k - 1, slack, busy) + Cycle(slack, busy)
  }

  /** How far the entry of `t` has come: tried `k` times, and due by `time`, not long past. */
  ghost predicate Underway(s: State, t: Topic, start: nat, k: nat, time: nat, slack: nat, busy: nat) {
    && k < MAX_ATTEMPTS && TriedOrDueBy(s.entries, t, k, time)
    && s.clock < time + busy && time <= start + LatestDue(k, slack, busy)
  }

  ghost predicate GoneOrUnderway(s: State, t: Topic, start: nat, slack: nat, busy: nat) {
    t in s.entries ==> exists k, time :: Underway(s, t, start, k, time, slack, busy)
  }

  lemma TurnUnderway(s: State, s': State, turn: seq<Action>, t: Topic, start: nat, k: nat, time: nat, slack: nat, busy: nat)
    requires Inv(s) && OnTimeTurn(s, s', turn, t, slack, busy) && Underway(s, t, start, k, time, slack, busy)
    ensures GoneOrUnderway(s', t, start, slack, busy)
  {
    TurnKeeps(s, s', turn, t, k, time);
    if PollTime(turn) < time {
      assert Underway(s', t, start, k, time, slack, busy);
    } else {
      TurnTries(s, s', turn, t, k, time);
      if k + 1 == MAX_ATTEMPTS {
        TriedOut(s', t);
      } else {
        DueSoon(s', t, k + 1);
        assert Underway(s', t, start, k + 1, s'.clock + 4000, slack, busy);
      }
    }
  }

  lemma TurnGoesOn(s: State, s': State, turn: seq<Action>, t: Topic, start: nat, slack: nat, busy: nat)
    requires Inv(s) && OnTimeTurn(s, s', turn, t, slack, busy) && GoneOrUnderway(s, t, start, slack, busy)
    ensures GoneOrUnderway(s', t, start, slack, busy)
  {
    if t in s.entries {
      var k, time :| Underway(s, t, start, k, time, slack, busy);
      TurnUnderway(s, s', turn, t, start, k, time, slack, busy);
    } else {
      StaysGone(s, s', turn, t);
    }
  }

  lemma StaysGone(s: State, s': State, turn: seq<Action>, t: Topic)
    requires Inv(s) && TurnFrom(s, s', turn, t) && t !in s.entries
    ensures t !in s'.entries
  {
    TurnKeeps(s, s', turn, t, MAX_ATTEMPTS, 0);
    TriedOut(s', t);
  }

  lemma TurnsUnderway(states: seq<State>, turns: seq<seq<Action>>, t: Topic, slack: nat, busy: nat, n: nat)
    requires OnTime(states, turns, t, slack, busy) && n <= |turns|
    ensures GoneOrUnderway(states[n], t, states[0].clock, slack, busy)
  {
    var start := states[0].clock;
    var good := (i: nat) => i < |states| && GoneOrUnderway(states[i], t, start, slack, busy);
    DueSoon(states[0], t, 0);
    assert Underway(states[0], t, start, 0, start + 4000, slack, busy);
    forall i: nat | i < n && good(i) ensures good(i + 1) {
      TurnsSound(states, turns, t, i);
      OnTimeAt(states, turns, t, slack, busy, i);
      TurnGoesOn(states[i], states[i + 1], turns[i], t, start, slack, busy);
    }
    Along(good, n);
  }

  lemma OnTimeAt(states: seq<State>, turns: seq<seq<Action>>, t: Topic, slack: nat, busy: nat, i: nat)
    requires OnTime(states, turns, t, slack, busy) && i < |turns|
    ensures OnTimeTurn(states[i], states[i + 1], turns[i], t, slack, busy)
  {
  }

  /** How long an entry can stay, from any state on. */
  function DrainTime(slack: nat, busy: nat): nat {
    LatestDue(4, slack, busy) + busy
  }

  /** In the loop's own rhythm an entry is acknowledged or given up within `DrainTime` of any moment
      after its last enqueue, whatever the publish outcomes. */
  lemma DrainedInTime(states: seq<State>, turns: seq<seq<Action>>, t: Topic, slack: nat, busy: nat, n: nat)
    requires OnTime(states, turns, t, slack, busy) && n <= |turns|
    requires states[n].clock >= states[0].clock + DrainTime(slack, busy)
    ensures t !in states[n].entries
  {
    TurnsUnderway(states, turns, t, slack, busy, n);
    if t in states[n].entries {
      var k, time :| Underway(states[n], t, states[0].clock, k, time, slack, busy);
      LatestDueGrows(k, slack, busy);
    }
  }

  lemma LatestDueGrows(k: nat, slack: nat, busy: nat)
    requires k < MAX_ATTEMPTS
    ensures LatestDue(k, slack, busy) <= LatestDue(4, slack, busy)
  {
    LatestDueValues(slack, busy);
  }

  lemma LatestDueValues(slack: nat, busy: nat)
    ensures forall k: nat :: k <= 4 ==> LatestDue(k, slack, busy) == 4000 + k * (4250 + slack + 2 * busy)
  {
    assert LatestDue(0, slack, busy) == 4000;
    assert LatestDue(1, slack, busy) == 4000 + (4250 + slack + 2 * busy);
    assert LatestDue(2, slack, busy) == 4000 + 2 * (4250 + slack + 2 * busy);
    assert LatestDue(3, slack, busy) == 4000 + 3 * (4250 + slack + 2 * busy);
    assert LatestDue(4, slack, busy) == 4000 + 4 * (4250 + slack + 2 * busy);
  }

  /** Some 21 seconds when turns start on the dot and take no time: five waits of 4000 ms at most
      and four sleeps. */
  lemma DrainTimeValue(slack: nat, busy: nat)
    ensures DrainTime(slack, busy) == 21000 + 4 * slack + 9 * busy
  {
    LatestDueValues(slack, busy);
  }
}
