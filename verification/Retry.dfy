/** The retry pump over its outbox, as a state machine. A poll takes the due entries, in any order;
    they are then published one by one, and entries may be enqueued at any point in between. */
module Retry {
  import opened ByteStrings
  import opened Backoff

  type Topic = Bytes

  datatype Entry = Entry(payload: Bytes, attempts: U8, nextAttemptMs: nat)

  datatype Handle = Handle(topic: Topic, payload: Bytes, attempts: U8)

  datatype RetryExhausted = RetryExhausted(topic: Topic, attempts: U8)

  /** A failed publish after which another attempt was left: when it was, and when that is due. */
  datatype Failure = Failure(at: nat, next: nat)

  /** What has happened to a pending entry since it was enqueued: the publishes for it, those that
      failed, and whether one of them was of a handle with other attempts than its own, taken before
      it was enqueued. */
  datatype Life = Life(publishes: nat, failures: seq<Failure>, overtaken: bool)

  const NEW_LIFE := Life(0, [], false)

  /** How an entry left the outbox: acknowledged, `own` saying whether it was its own payload that
      was published; given up; or enqueued anew under its topic. */
  datatype Ending =
    | Acked(topic: Topic, publishes: nat, own: bool)
    | GaveUp(topic: Topic, publishes: nat, failures: seq<Failure>, overtaken: bool, at: nat)
    | Replaced(topic: Topic, publishes: nat)

  /** `entries`, `due` and `events` are the pump's own; the rest records what has happened. */
  datatype State = State(
    entries: map<Topic, Entry>,
    due: seq<Handle>,
    events: seq<RetryExhausted>,
    channel: bool,
    clock: nat,
    enqueued: nat,
    lives: map<Topic, Life>,
    endings: seq<Ending>)

  datatype Action =
    | Enqueue(topic: Topic, payload: Bytes)
    | Poll(now: nat, order: seq<Topic>)
    | Publish(ok: bool, now: nat, nanos: nat)

  ghost function Initial(channel: bool): State {
    State(map[], [], [], channel, 0, 0, map[], [])
  }

  ghost predicate DueOrder(entries: map<Topic, Entry>, now: nat, order: seq<Topic>) {
    && (forall i, j :: 0 <= i < j < |order| ==> order[i] != order[j])
    && (forall t :: t in order <==> t in entries && entries[t].nextAttemptMs <= now)
  }

  /** Anything may be enqueued at any time, also under a topic that is pending or in flight. */
  ghost predicate Enabled(s: State, a: Action) {
    match a
    case Enqueue(_, _) => true
    case Poll(now, order) => s.due == [] && s.clock <= now && DueOrder(s.entries, now, order)
    case Publish(_, now, _) => s.due != [] && s.clock <= now
  }

  function HandleOf(entries: map<Topic, Entry>, t: Topic): Handle
    requires t in entries
  {
    Handle(t, entries[t].payload, entries[t].attempts)
  }

  ghost function Handles(entries: map<Topic, Entry>, order: seq<Topic>): seq<Handle>
    requires forall i :: 0 <= i < |order| ==> order[i] in entries
  {
    seq(|order|, i requires 0 <= i < |order| => HandleOf(entries, order[i]))
  }

  ghost function LifeOf(s: State, t: Topic): Life {
    if t in s.lives then s.lives[t] else NEW_LIFE
  }

  /** `entry.attempts + 1` in 8 bits. */
  function NextAttempts(h: Handle): U8 {
    (h.attempts + 1) % 256
  }

  function Rescheduled(entries: map<Topic, Entry>, t: Topic, next: nat): map<Topic, Entry> {
    if t in entries then entries[t := entries[t].(attempts := (entries[t].attempts + 1) % 256, nextAttemptMs := next)] else entries
  }

  ghost function Enqueued(s: State, topic: Topic, payload: Bytes): State {
    s.(
      entries := s.entries[topic := Entry(payload, 0, 0)],
      enqueued := s.enqueued + 1,
      lives := s.lives[topic := NEW_LIFE],
      endings := if topic in s.entries then s.endings + [Replaced(topic, LifeOf(s, topic).publishes)] else s.endings)
  }

  ghost function Step(s: State, a: Action): State
    requires Enabled(s, a)
  {
    match a
    case Enqueue(topic, payload) => Enqueued(s, topic, payload)
    case Poll(now, order) =>
      assert forall i :: 0 <= i < |order| ==> order[i] in order;
      s.(due := Handles(s.entries, order), clock := now)
    case Publish(ok, now, nanos) => PublishNext(s, ok, now, now + WaitOf(s, nanos))
  }

  ghost function AckedNext(s: State, now: nat): State
    requires s.due != []
  {
    var t := s.due[0].topic;
    s.(
      due := s.due[1..],
      clock := now,
      entries := s.entries - {t},
      lives := s.lives - {t},
      endings := s.endings + [Acked(t, LifeOf(s, t).publishes + 1, OwnPayload(s.entries, s.due[0]))])
  }

  /** The handle carries the payload of the entry now stored under its topic. */
  ghost predicate OwnPayload(entries: map<Topic, Entry>, h: Handle) {
    h.topic in entries && entries[h.topic].payload == h.payload
  }

  /** Whether, with the publish of the head handle, its entry has been overtaken. */
  ghost predicate Overtakes(s: State)
    requires s.due != []
  {
    var h := s.due[0];
    LifeOf(s, h.topic).overtaken || !(h.topic in s.entries && s.entries[h.topic].attempts == h.attempts)
  }

  ghost function GaveUpNext(s: State, now: nat): State
    requires s.due != []
  {
    var t := s.due[0].topic;
    s.(
      due := s.due[1..],
      clock := now,
      entries := s.entries - {t},
      lives := s.lives - {t},
      endings := s.endings + [GaveUp(t, LifeOf(s, t).publishes + 1, LifeOf(s, t).failures, Overtakes(s), now)],
      events := if s.channel then s.events + [RetryExhausted(t, NextAttempts(s.due[0]))] else s.events)
  }

  ghost function RetriedNext(s: State, now: nat, next: nat): State
    requires s.due != []
  {
    var t := s.due[0].topic;
    s.(
      due := s.due[1..],
      clock := now,
      entries := Rescheduled(s.entries, t, next),
      lives := s.lives[t := Life(LifeOf(s, t).publishes + 1, LifeOf(s, t).failures + [Failure(now, next)], Overtakes(s))])
  }

  ghost function PublishNext(s: State, ok: bool, now: nat, next: nat): State
    requires s.due != []
  {
    if ok then AckedNext(s, now)
    else if NextAttempts(s.due[0]) >= MAX_ATTEMPTS then GaveUpNext(s, now)
    else RetriedNext(s, now, next)
  }

  function WaitOf(s: State, nanos: nat): nat
    requires s.due != []
  {
    ComputeBackoffMs(NextAttempts(s.due[0]), nanos)
  }

  ghost predicate Runs(s: State, actions: seq<Action>)
    decreases |actions|, 0
  {
    actions == [] ||
      var before := actions[..|actions| - 1];
      Runs(s, before) && Enabled(After(s, before), actions[|actions| - 1])
  }

  ghost function After(s: State, actions: seq<Action>): State
    requires Runs(s, actions)
    decreases |actions|, 1
  {
    if actions == [] then s else Step(After(s, actions[..|actions| - 1]), actions[|actions| - 1])
  }

  /** Every enqueued entry is pending or has ended. */
  ghost predicate Conserved(s: State) {
    s.lives.Keys == s.entries.Keys && s.enqueued == |s.entries| + |s.endings|
  }

  /** Publishes are counted by the attempts, which stay below five. */
  ghost predicate Counted(s: State) {
    forall t :: t in s.entries ==> s.entries[t].attempts < MAX_ATTEMPTS && LifeOf(s, t).publishes == s.entries[t].attempts
  }

  /** A handle in flight: its entry is stored and due, with the attempts the handle has, or none
      if it has been replaced since. */
  ghost predicate InFlight(entries: map<Topic, Entry>, clock: nat, h: Handle) {
    && h.topic in entries && h.attempts < MAX_ATTEMPTS && entries[h.topic].nextAttemptMs <= clock
    && (entries[h.topic].attempts == h.attempts || entries[h.topic].attempts == 0)
  }

  ghost predicate DueTaken(s: State) {
    && (forall i, j :: 0 <= i < j < |s.due| ==> s.due[i].topic != s.due[j].topic)
    && (forall i :: 0 <= i < |s.due| ==> InFlight(s.entries, s.clock, s.due[i]))
  }

  ghost predicate Tracked(s: State) {
    Conserved(s) && Counted(s) && DueTaken(s)
  }

  /** The `i`-th failure, counted from 0, is followed by a wait no shorter than the least backoff, and
      shorter than the backoff's ceiling unless a handle with more attempts was published. */
  ghost predicate Waited(f: Failure, i: nat, overtaken: bool) {
    f.at + Ceiling(i + 1) / 2 <= f.next && (overtaken || f.next < f.at + Ceiling(i + 1))
  }

  /** No attempt comes before it is due, up to the time `at`. */
  ghost predicate Spaced(failures: seq<Failure>, overtaken: bool, at: nat) {
    failures == [] ||
      var n := |failures| - 1;
      && Waited(failures[n], n, overtaken) && failures[n].next <= at
      && Spaced(failures[..n], overtaken, failures[n].at)
  }

  ghost predicate EndsWell(e: Ending) {
    match e
    case Acked(_, n, _) => 1 <= n <= MAX_ATTEMPTS
    case GaveUp(_, n, failures, overtaken, at) =>
      && 1 <= n <= MAX_ATTEMPTS && n == |failures| + 1 && (n == MAX_ATTEMPTS || overtaken)
      && Spaced(failures, overtaken, at)
    case Replaced(_, n) => n < MAX_ATTEMPTS
  }

  ghost predicate Ended(s: State) {
    forall i :: 0 <= i < |s.endings| ==> EndsWell(s.endings[i])
  }

  /** One event for every entry given up, in order. */
  ghost function Announcements(endings: seq<Ending>): seq<RetryExhausted> {
    if endings == [] then []
    else
      var e := endings[|endings| - 1];
      Announcements(endings[..|endings| - 1]) + if e.GaveUp? then [RetryExhausted(e.topic, MAX_ATTEMPTS)] else []
  }

  ghost predicate Announced(s: State) {
    s.events == if s.channel then Announcements(s.endings) else []
  }

  /** The entry is due when its last failure says, and within 4000 ms in any case. */
  ghost predicate EntryPaced(e: Entry, l: Life, clock: nat) {
    && e.nextAttemptMs < clock + 4000
    && |l.failures| == e.attempts && Spaced(l.failures, l.overtaken, e.nextAttemptMs)
    && (l.failures != [] ==> l.failures[|l.failures| - 1].next == e.nextAttemptMs)
  }

  ghost predicate Paced(s: State) {
    forall t :: t in s.entries ==> EntryPaced(s.entries[t], LifeOf(s, t), s.clock)
  }

  ghost predicate Inv(s: State) {
    Tracked(s) && Ended(s) && Announced(s) && Paced(s)
  }

  lemma PacedLater(e: Entry, l: Life, clock: nat, now: nat)
    requires EntryPaced(e, l, clock) && clock <= now
    ensures EntryPaced(e, l, now)
  {
  }

  lemma PollKeeps(s: State, now: nat, order: seq<Topic>)
    requires Inv(s) && Enabled(s, Poll(now, order))
    ensures Inv(Step(s, Poll(now, order)))
  {
    var s' := Step(s, Poll(now, order));
    forall i | 0 <= i < |order|
      ensures s'.due[i].topic == order[i] && order[i] in s.entries && s.entries[order[i]].nextAttemptMs <= now
    {
      assert order[i] in order;
    }
    forall t | t in s'.entries ensures EntryPaced(s'.entries[t], LifeOf(s', t), now) {
      PacedLater(s.entries[t], LifeOf(s, t), s.clock, now);
    }
  }

  lemma AnnouncementsMore(endings: seq<Ending>, e: Ending)
    ensures Announcements(endings + [e]) == Announcements(endings) + if e.GaveUp? then [RetryExhausted(e.topic, MAX_ATTEMPTS)] else []
  {
    assert (endings + [e])[..|endings|] == endings;
  }

  lemma EnqueueTracked(s: State, topic: Topic, payload: Bytes)
    requires Tracked(s)
    ensures Tracked(Enqueued(s, topic, payload))
  {
    var s' := Enqueued(s, topic, payload);
    assert s'.entries.Keys == s.entries.Keys + {topic};
    forall i | 0 <= i < |s.due| ensures InFlight(s'.entries, s'.clock, s'.due[i]) {
      assert InFlight(s.entries, s.clock, s.due[i]);
    }
  }

  lemma EnqueueEnded(s: State, topic: Topic, payload: Bytes)
    requires Tracked(s) && Ended(s) && Announced(s)
    ensures Ended(Enqueued(s, topic, payload)) && Announced(Enqueued(s, topic, payload))
  {
    if topic in s.entries {
      var e := Replaced(topic, LifeOf(s, topic).publishes);
      assert s.entries[topic].attempts < MAX_ATTEMPTS && EndsWell(e);
      EndedMore(s, Enqueued(s, topic, payload), e);
      AnnouncementsMore(s.endings, e);
    }
  }

  lemma EnqueuePaced(s: State, topic: Topic, payload: Bytes)
    requires Paced(s)
    ensures Paced(Enqueued(s, topic, payload))
  {
    var s' := Enqueued(s, topic, payload);
    forall t | t in s'.entries ensures EntryPaced(s'.entries[t], LifeOf(s', t), s'.clock) {
      if t != topic {
        assert s'.entries[t] == s.entries[t] && LifeOf(s', t) == LifeOf(s, t);
      }
    }
  }

  lemma EnqueueKeeps(s: State, topic: Topic, payload: Bytes)
    requires Inv(s)
    ensures Inv(Enqueued(s, topic, payload))
  {
    EnqueueTracked(s, topic, payload);
    EnqueueEnded(s, topic, payload);
    EnqueuePaced(s, topic, payload);
  }

  /** What the invariant says of the handle about to be published. */
  lemma HeadFacts(s: State)
    requires Tracked(s) && s.due != []
    ensures var h := s.due[0];
      && h.topic in s.entries && s.entries[h.topic].attempts <= h.attempts < MAX_ATTEMPTS
      && (s.entries[h.topic].attempts == h.attempts || s.entries[h.topic].attempts == 0)
      && NextAttempts(h) == h.attempts + 1 && LifeOf(s, h.topic).publishes == s.entries[h.topic].attempts
      && s.entries[h.topic].nextAttemptMs <= s.clock
      && (forall i :: 1 <= i < |s.due| ==> s.due[i].topic != h.topic)
  {
    assert InFlight(s.entries, s.clock, s.due[0]);
  }

  lemma DueTail(s: State, s': State)
    requires DueTaken(s) && s.due != [] && s'.due == s.due[1..] && s.clock <= s'.clock
    requires forall t :: t in s.entries && t != s.due[0].topic ==> t in s'.entries && s'.entries[t] == s.entries[t]
    ensures DueTaken(s')
  {
    forall i | 0 <= i < |s'.due| ensures s'.due[i] == s.due[i + 1] && InFlight(s'.entries, s'.clock, s'.due[i]) {
      assert InFlight(s.entries, s.clock, s.due[i + 1]);
    }
  }

  /** The entry published leaves, with one ending. */
  ghost predicate Leaves(s: State, s': State, e: Ending)
    requires s.due != []
  {
    var t := s.due[0].topic;
    && s'.due == s.due[1..] && s.clock <= s'.clock && s'.enqueued == s.enqueued
    && s'.entries == s.entries - {t} && s'.lives == s.lives - {t} && s'.endings == s.endings + [e]
  }

  lemma LeavesTracked(s: State, s': State, e: Ending)
    requires Tracked(s) && s.due != [] && Leaves(s, s', e)
    ensures Tracked(s')
  {
    HeadFacts(s);
    DueTail(s, s');
    assert s.entries.Keys == s'.entries.Keys + {s.due[0].topic};
  }

  lemma LeavesPaced(s: State, s': State, e: Ending)
    requires Paced(s) && s.due != [] && Leaves(s, s', e)
    ensures Paced(s')
  {
    forall t | t in s'.entries ensures EntryPaced(s'.entries[t], LifeOf(s', t), s'.clock) {
      PacedLater(s.entries[t], LifeOf(s, t), s.clock, s'.clock);
    }
  }

  lemma EndedMore(s: State, s': State, e: Ending)
    requires Ended(s) && s'.endings == s.endings + [e] && EndsWell(e)
    ensures Ended(s')
  {
  }

  lemma AckedKeeps(s: State, now: nat)
    requires Inv(s) && s.due != [] && s.clock <= now
    ensures Inv(AckedNext(s, now))
  {
    var t, s' := s.due[0].topic, AckedNext(s, now);
    var e := Acked(t, LifeOf(s, t).publishes + 1, OwnPayload(s.entries, s.due[0]));
    HeadFacts(s);
    LeavesTracked(s, s', e);
    LeavesPaced(s, s', e);
    EndedMore(s, s', e);
    AnnouncementsMore(s.endings, e);
  }

  lemma {:induction false} SpacedLater(failures: seq<Failure>, overtaken: bool, at: nat, later: nat)
    requires Spaced(failures, overtaken, at) && at <= later
    ensures Spaced(failures, overtaken, later) && Spaced(failures, true, later)
  {
    if failures == [] {
    } else {
      var n := |failures| - 1;
      SpacedLater(failures[..n], overtaken, failures[n].at, failures[n].at);
    }
  }

  lemma LastIsSpaced(s: State, now: nat)
    requires Inv(s) && s.due != [] && s.clock <= now
    ensures Spaced(LifeOf(s, s.due[0].topic).failures, Overtakes(s), now)
  {
    HeadFacts(s);
    var t := s.due[0].topic;
    var l := LifeOf(s, t);
    assert EntryPaced(s.entries[t], l, s.clock);
    SpacedLater(l.failures, l.overtaken, s.entries[t].nextAttemptMs, now);
  }

  lemma GaveUpEndsWell(s: State, now: nat, e: Ending)
    requires Inv(s) && s.due != [] && s.clock <= now && NextAttempts(s.due[0]) >= MAX_ATTEMPTS
    requires var l := LifeOf(s, s.due[0].topic); e == GaveUp(s.due[0].topic, l.publishes + 1, l.failures, Overtakes(s), now)
    ensures EndsWell(e) && NextAttempts(s.due[0]) == MAX_ATTEMPTS
  {
    HeadFacts(s);
    LastIsSpaced(s, now);
    assert EntryPaced(s.entries[s.due[0].topic], LifeOf(s, s.due[0].topic), s.clock);
  }

  lemma GaveUpKeeps(s: State, now: nat)
    requires Inv(s) && s.due != [] && s.clock <= now && NextAttempts(s.due[0]) >= MAX_ATTEMPTS
    ensures Inv(GaveUpNext(s, now))
  {
    var t, s' := s.due[0].topic, GaveUpNext(s, now);
    var e := GaveUp(t, LifeOf(s, t).publishes + 1, LifeOf(s, t).failures, Overtakes(s), now);
    GaveUpEndsWell(s, now, e);
    LeavesTracked(s, s', e);
    LeavesPaced(s, s', e);
    EndedMore(s, s', e);
    AnnouncementsMore(s.endings, e);
  }

  lemma RetriedTracked(s: State, now: nat, next: nat)
    requires Tracked(s) && s.due != [] && s.clock <= now && NextAttempts(s.due[0]) < MAX_ATTEMPTS
    ensures Tracked(RetriedNext(s, now, next))
  {
    HeadFacts(s);
    DueTail(s, RetriedNext(s, now, next));
    assert RetriedNext(s, now, next).entries.Keys == s.entries.Keys;
  }

  /** Bounds on the time of the next attempt after the failure number `attempts + 1`. */
  ghost predicate GoodWait(attempts: nat, now: nat, next: nat) {
    Waited(Failure(now, next), attempts, false)
  }

  /** A wait meant for more attempts is at least as long. */
  lemma GoodWaitFewer(a: nat, b: nat, now: nat, next: nat)
    requires b <= a < 4 && GoodWait(a, now, next)
    ensures Waited(Failure(now, next), b, b != a) && next < now + 4000
  {
    CeilingValues(a + 1);
    CeilingValues(b + 1);
  }

  lemma SpacedMore(failures: seq<Failure>, overtaken: bool, at: nat, overtaken': bool, f: Failure)
    requires Spaced(failures, overtaken, at) && (overtaken ==> overtaken') && at <= f.at <= f.next
    requires Waited(f, |failures|, overtaken')
    ensures Spaced(failures + [f], overtaken', f.next)
  {
    SpacedLater(failures, overtaken, at, f.at);
    assert (failures + [f])[..|failures|] == failures;
  }

  lemma WaitedMore(f: Failure, i: nat, overtaken: bool, overtaken': bool)
    requires Waited(f, i, overtaken) && (overtaken ==> overtaken')
    ensures Waited(f, i, overtaken') && f.at <= f.next
  {
  }

  lemma RetriedEntryPaced(e: Entry, l: Life, clock: nat, now: nat, next: nat, attempts: nat)
    requires EntryPaced(e, l, clock) && clock <= now && e.nextAttemptMs <= clock
    requires e.attempts <= attempts < 4 && GoodWait(attempts, now, next)
    ensures var overtaken := l.overtaken || e.attempts != attempts;
      EntryPaced(Entry(e.payload, e.attempts + 1, next), Life(l.publishes + 1, l.failures + [Failure(now, next)], overtaken), now)
  {
    var overtaken := l.overtaken || e.attempts != attempts;
    GoodWaitFewer(attempts, e.attempts, now, next);
    WaitedMore(Failure(now, next), e.attempts, e.attempts != attempts, overtaken);
    SpacedMore(l.failures, l.overtaken, e.nextAttemptMs, overtaken, Failure(now, next));
  }

  lemma RetriedHeadPaced(s: State, now: nat, next: nat)
    requires Tracked(s) && Paced(s) && s.due != [] && s.clock <= now && NextAttempts(s.due[0]) < MAX_ATTEMPTS
    requires GoodWait(s.due[0].attempts, now, next)
    ensures var u, s' := s.due[0].topic, RetriedNext(s, now, next); u in s'.entries && EntryPaced(s'.entries[u], LifeOf(s', u), now)
  {
    HeadFacts(s);
    var u, s', h := s.due[0].topic, RetriedNext(s, now, next), s.due[0];
    var e, l := s.entries[u], LifeOf(s, u);
    RetriedHead(s, now, next);
    assert EntryPaced(e, l, s.clock);
    RetriedEntryPaced(e, l, s.clock, now, next, h.attempts);
  }

  /** What a failed publish makes of its entry. */
  lemma RetriedHead(s: State, now: nat, next: nat)
    requires Tracked(s) && s.due != [] && NextAttempts(s.due[0]) < MAX_ATTEMPTS
    ensures var u, s', h := s.due[0].topic, RetriedNext(s, now, next), s.due[0];
      && u in s.entries && u in s'.entries && s'.entries[u] == Entry(s.entries[u].payload, s.entries[u].attempts + 1, next)
      && LifeOf(s', u) == Life(LifeOf(s, u).publishes + 1, LifeOf(s, u).failures + [Failure(now, next)],
           LifeOf(s, u).overtaken || s.entries[u].attempts != h.attempts)
  {
    HeadFacts(s);
  }

  lemma RetriedPaced(s: State, now: nat, next: nat)
    requires Tracked(s) && Paced(s) && s.due != [] && s.clock <= now && NextAttempts(s.due[0]) < MAX_ATTEMPTS
    requires GoodWait(s.due[0].attempts, now, next)
    ensures Paced(RetriedNext(s, now, next))
  {
    HeadFacts(s);
    RetriedHeadPaced(s, now, next);
    var u, s' := s.due[0].topic, RetriedNext(s, now, next);
    forall t | t in s'.entries ensures EntryPaced(s'.entries[t], LifeOf(s', t), now) {
      if t != u {
        PacedLater(s.entries[t], LifeOf(s, t), s.clock, now);
      }
    }
  }

  lemma RetriedKeeps(s: State, now: nat, next: nat)
    requires Inv(s) && s.due != [] && s.clock <= now && NextAttempts(s.due[0]) < MAX_ATTEMPTS
    requires GoodWait(s.due[0].attempts, now, next)
    ensures Inv(RetriedNext(s, now, next))
  {
    RetriedTracked(s, now, next);
    RetriedPaced(s, now, next);
  }

  /** The computed backoff is a good wait whenever another attempt is left. */
  lemma WaitIsGood(s: State, now: nat, nanos: nat)
    requires Tracked(s) && s.due != []
    ensures NextAttempts(s.due[0]) < MAX_ATTEMPTS ==> GoodWait(s.due[0].attempts, now, now + WaitOf(s, nanos))
  {
    HeadFacts(s);
    BackoffRange(NextAttempts(s.due[0]), nanos);
    CeilingValues(NextAttempts(s.due[0]));
  }

  lemma PublishKeeps(s: State, ok: bool, now: nat, next: nat, s': State)
    requires Inv(s) && s.due != [] && s.clock <= now
    requires NextAttempts(s.due[0]) < MAX_ATTEMPTS ==> GoodWait(s.due[0].attempts, now, next)
    requires s' == PublishNext(s, ok, now, next)
    ensures Inv(s')
  {
    if ok {
      AckedKeeps(s, now);
    } else if NextAttempts(s.due[0]) >= MAX_ATTEMPTS {
      GaveUpKeeps(s, now);
    } else {
      RetriedKeeps(s, now, next);
    }
  }

  /** The store after a publish: the entry is gone, or has one more attempt. */
  lemma EntriesAfter(s: State, ok: bool, now: nat, next: nat)
    requires Tracked(s) && s.due != []
    ensures var t, entries' := s.due[0].topic, PublishNext(s, ok, now, next).entries;
      && t in s.entries && s.entries[t].attempts < MAX_ATTEMPTS
      && (t !in entries' || entries'[t].attempts == s.entries[t].attempts + 1)
      && entries' - {t} == s.entries - {t}
    ensures PublishNext(s, ok, now, next).due == s.due[1..]
  {
    HeadFacts(s);
  }

  lemma PublishStepKeeps(s: State, a: Action)
    requires Inv(s) && a.Publish? && Enabled(s, a)
    ensures Inv(Step(s, a))
  {
    WaitIsGood(s, a.now, a.nanos);
    PublishKeeps(s, a.ok, a.now, a.now + WaitOf(s, a.nanos), Step(s, a));
  }

  lemma StepKeeps(s: State, a: Action)
    requires Inv(s) && Enabled(s, a)
    ensures Inv(Step(s, a))
  {
    match a
    case Enqueue(topic, payload) => EnqueueKeeps(s, topic, payload);
    case Poll(now, order) => PollKeeps(s, now, order);
    case Publish(_, _, _) => PublishStepKeeps(s, a);
  }

  lemma {:induction false} RunKeeps(s: State, actions: seq<Action>)
    requires Inv(s) && Runs(s, actions)
    ensures Inv(After(s, actions))
  {
    if actions == [] {
    } else {
      RunKeeps(s, actions[..|actions| - 1]);
      StepKeeps(After(s, actions[..|actions| - 1]), actions[|actions| - 1]);
    }
  }

  datatype Tally = Tally(acked: nat, gaveUp: nat, replaced: nat)

  /** How many entries ended in which way. */
  ghost function TallyOf(endings: seq<Ending>): Tally {
    if endings == [] then Tally(0, 0, 0)
    else
      var t := TallyOf(endings[..|endings| - 1]);
      match endings[|endings| - 1]
      case Acked(_, _, _) => t.(acked := t.acked + 1)
      case GaveUp(_, _, _, _, _) => t.(gaveUp := t.gaveUp + 1)
      case Replaced(_, _) => t.(replaced := t.replaced + 1)
  }

  lemma {:induction false} TallySums(endings: seq<Ending>)
    ensures var t := TallyOf(endings); |endings| == t.acked + t.gaveUp + t.replaced && |Announcements(endings)| == t.gaveUp
  {
    if endings == [] {
    } else {
      TallySums(endings[..|endings| - 1]);
    }
  }

  ghost function Enqueues(actions: seq<Action>): nat {
    if actions == [] then 0 else
      Enqueues(actions[..|actions| - 1]) + if actions[|actions| - 1].Enqueue? then 1 else 0
  }

  lemma {:induction false} EnqueuedCounts(s: State, actions: seq<Action>)
    requires Runs(s, actions)
    ensures After(s, actions).enqueued == s.enqueued + Enqueues(actions)
  {
    if actions == [] {
    } else {
      EnqueuedCounts(s, actions[..|actions| - 1]);
    }
  }

  /** Over every run from the start, whatever is enqueued when: everything enqueued is pending,
      acknowledged, given up or replaced by a newer entry of its topic, exactly once; attempts count
      the publishes for an entry, at most five; one event comes for each entry given up when a
      channel is attached, none otherwise. */
  lemma Conservation(channel: bool, actions: seq<Action>)
    requires Runs(Initial(channel), actions)
    ensures var s := After(Initial(channel), actions);
      var tally := TallyOf(s.endings);
      && Enqueues(actions) == |s.entries| + tally.acked + tally.gaveUp + tally.replaced
      && (forall t :: t in s.entries ==> s.entries[t].attempts < 5 && LifeOf(s, t).publishes == s.entries[t].attempts)
      && (forall e :: e in s.endings ==> e.publishes <= 5 && (e.Acked? || e.GaveUp? ==> e.publishes >= 1))
      && s.events == (if channel then Announcements(s.endings) else [])
      && |s.events| == if channel then tally.gaveUp else 0
  {
    InitialInv(channel);
    RunKeeps(Initial(channel), actions);
    var s := After(Initial(channel), actions);
    ChannelFixed(Initial(channel), actions);
    EnqueuedCounts(Initial(channel), actions);
    TallySums(s.endings);
    forall e | e in s.endings ensures EndsWell(e) {
    }
  }

  lemma InitialInv(channel: bool)
    ensures Inv(Initial(channel))
  {
  }

  lemma {:induction false} ChannelFixed(s: State, actions: seq<Action>)
    requires Runs(s, actions)
    ensures After(s, actions).channel == s.channel
  {
    if actions == [] {
    } else {
      ChannelFixed(s, actions[..|actions| - 1]);
    }
  }

  /** The attempts still open over all pending entries. */
  ghost function Remaining(entries: map<Topic, Entry>): nat {
    if entries == map[] then 0 else
      var t :| t in entries;
      Open(entries[t]) + Remaining(entries - {t})
  }

  function Open(e: Entry): nat {
    if e.attempts < MAX_ATTEMPTS then MAX_ATTEMPTS - e.attempts else 0
  }

  lemma {:induction false} RemainingSplit(entries: map<Topic, Entry>, t: Topic)
    requires t in entries
    ensures Remaining(entries) == Open(entries[t]) + Remaining(entries - {t})
    decreases |entries|
  {
    var u :| u in entries && Remaining(entries) == Open(entries[u]) + Remaining(entries - {u});
    if t == u {
    } else {
      RemainingSplit(entries - {u}, t);
      RemainingSplit(entries - {t}, u);
      assert entries - {u} - {t} == entries - {t} - {u};
    }
  }

  /** The termination measure: each publish uses up at least one open attempt. */
  lemma PublishDecreases(s: State, ok: bool, now: nat, next: nat, s': State)
    requires Tracked(s) && s.due != [] && s' == PublishNext(s, ok, now, next)
    ensures Remaining(s'.entries) < Remaining(s.entries)
  {
    EntriesAfter(s, ok, now, next);
    FewerOpen(s.entries, s'.entries, s.due[0].topic);
  }

  lemma FewerOpen(entries: map<Topic, Entry>, entries': map<Topic, Entry>, t: Topic)
    requires t in entries && entries[t].attempts < MAX_ATTEMPTS && entries' - {t} == entries - {t}
    requires t !in entries' || entries'[t].attempts == entries[t].attempts + 1
    ensures Remaining(entries') < Remaining(entries)
  {
    RemainingSplit(entries, t);
    if t in entries' {
      RemainingSplit(entries', t);
    } else {
      assert entries' - {t} == entries';
    }
  }

  ghost function Publishes(actions: seq<Action>): nat {
    if actions == [] then 0 else
      Publishes(actions[..|actions| - 1]) + if actions[|actions| - 1].Publish? then 1 else 0
  }

  /** A new entry opens five attempts at most. */
  lemma EnqueueOpens(entries: map<Topic, Entry>, t: Topic, payload: Bytes)
    ensures Remaining(entries[t := Entry(payload, 0, 0)]) <= Remaining(entries) + MAX_ATTEMPTS
  {
    var entries' := entries[t := Entry(payload, 0, 0)];
    RemainingSplit(entries', t);
    if t in entries {
      RemainingSplit(entries, t);
      assert entries' - {t} == entries - {t};
    } else {
      assert entries' - {t} == entries;
    }
  }

  /** Only as many publishes can follow as attempts are open, five more for each new entry. */
  lemma {:induction false} PublishesBounded(s: State, actions: seq<Action>)
    requires Inv(s) && Runs(s, actions)
    ensures Publishes(actions) + Remaining(After(s, actions).entries) <= Remaining(s.entries) + MAX_ATTEMPTS * Enqueues(actions)
  {
    if actions == [] {
    } else {
      var before, a := actions[..|actions| - 1], actions[|actions| - 1];
      PublishesBounded(s, before);
      RunKeeps(s, before);
      StepBounded(After(s, before), a);
    }
  }

  lemma StepBounded(s: State, a: Action)
    requires Inv(s) && Enabled(s, a)
    ensures Remaining(Step(s, a).entries) + (if a.Publish? then 1 else 0)
         <= Remaining(s.entries) + if a.Enqueue? then MAX_ATTEMPTS else 0
  {
    match a
    case Enqueue(topic, payload) => EnqueueOpens(s.entries, topic, payload);
    case Poll(_, _) =>
    case Publish(_, _, _) => PublishStepDecreases(s, a);
  }

  lemma PublishStepDecreases(s: State, a: Action)
    requires Inv(s) && a.Publish? && Enabled(s, a)
    ensures Remaining(Step(s, a).entries) < Remaining(s.entries)
  {
    PublishDecreases(s, a.ok, a.now, a.now + WaitOf(s, a.nanos), Step(s, a));
  }

  lemma RunsOne(s: State, a: Action)
    requires Enabled(s, a)
    ensures Runs(s, [a]) && After(s, [a]) == Step(s, a)
  {
    assert [a][..0] == [];
    assert Runs(s, []) && After(s, []) == s;
  }

  lemma RunsMore(s: State, actions: seq<Action>, a: Action)
    requires Runs(s, actions) && Enabled(After(s, actions), a)
    ensures Runs(s, actions + [a]) && After(s, actions + [a]) == Step(After(s, actions), a)
  {
    assert (actions + [a])[..|actions|] == actions;
  }

  lemma {:induction false} RunsBoth(s: State, front: seq<Action>, back: seq<Action>)
    requires Runs(s, front) && Runs(After(s, front), back)
    ensures Runs(s, front + back) && After(s, front + back) == After(After(s, front), back)
  {
    if back == [] {
      assert front + back == front;
    } else {
      var n := |back| - 1;
      RunsBoth(s, front, back[..n]);
      RunsMore(s, front + back[..n], back[n]);
      assert front + back == front + back[..n] + [back[n]];
    }
  }
}
