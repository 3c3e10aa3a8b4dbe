/** What enqueueing a topic that is in flight does to the promises about single entries: giving up
    takes five publishes and four waits, and what is acknowledged has been published. */
module RetryEnqueue {
  import opened ByteStrings
  import opened Wrappers
  import opened Backoff
  import opened Retry

  /** The two promises, named by what an enqueue must respect to keep them. */
  datatype Rule = SpareLastTry | MatchPayload

  /** Among the handles of the topic in flight none is on its last attempt, or all carry the
      payload that is being enqueued. */
  ghost predicate Permits(rule: Rule, s: State, topic: Topic, payload: Bytes) {
    forall h :: h in s.due && h.topic == topic ==>
      match rule
      case SpareLastTry => h.attempts + 1 < MAX_ATTEMPTS
      case MatchPayload => h.payload == payload
  }

  ghost function FirstFailure(e: Ending): nat
    requires e.GaveUp?
  {
    if e.failures == [] then e.at else e.failures[0].at
  }

  ghost predicate EndsBy(rule: Rule, e: Ending) {
    match rule
    case SpareLastTry => e.GaveUp? ==> e.publishes == MAX_ATTEMPTS && e.at >= FirstFailure(e) + 3750
    case MatchPayload => e.Acked? ==> e.own
  }

  ghost predicate Promise(rule: Rule, s: State) {
    forall e :: e in s.endings ==> EndsBy(rule, e)
  }

  /** Every enqueue of the run is permitted where it happens. */
  ghost predicate Respects(rule: Rule, s: State, actions: seq<Action>)
    requires Runs(s, actions)
  {
    actions == [] ||
      var before, a := actions[..|actions| - 1], actions[|actions| - 1];
      Respects(rule, s, before) && (a.Enqueue? ==> Permits(rule, After(s, before), a.topic, a.payload))
  }

  /** The handle has not been overtaken in the way the rule speaks of. */
  ghost predicate Fits(rule: Rule, entries: map<Topic, Entry>, h: Handle) {
    h.topic in entries &&
    match rule
    case SpareLastTry => h.attempts + 1 >= MAX_ATTEMPTS ==> entries[h.topic].attempts == h.attempts
    case MatchPayload => OwnPayload(entries, h)
  }

  ghost predicate AllFit(rule: Rule, s: State) {
    forall i :: 0 <= i < |s.due| ==> Fits(rule, s.entries, s.due[i])
  }

  lemma PollFits(rule: Rule, s: State, now: nat, order: seq<Topic>)
    requires Enabled(s, Poll(now, order))
    ensures AllFit(rule, Step(s, Poll(now, order)))
  {
    forall i | 0 <= i < |order| ensures order[i] in s.entries {
      assert order[i] in order;
    }
  }

  lemma EnqueueFits(rule: Rule, s: State, topic: Topic, payload: Bytes)
    requires AllFit(rule, s) && Permits(rule, s, topic, payload)
    ensures AllFit(rule, Enqueued(s, topic, payload))
  {
    var s' := Enqueued(s, topic, payload);
    forall i | 0 <= i < |s.due| ensures Fits(rule, s'.entries, s.due[i]) {
      assert s.due[i] in s.due && Fits(rule, s.entries, s.due[i]);
    }
  }

  lemma PublishFits(rule: Rule, s: State, ok: bool, now: nat, next: nat, s': State)
    requires Tracked(s) && AllFit(rule, s) && s.due != [] && s' == PublishNext(s, ok, now, next)
    ensures AllFit(rule, s')
  {
    EntriesAfter(s, ok, now, next);
    forall i | 0 <= i < |s'.due| ensures Fits(rule, s'.entries, s'.due[i]) {
      var h := s.due[i + 1];
      assert s'.due[i] == h && h.topic != s.due[0].topic && Fits(rule, s.entries, h);
      assert h.topic in s.entries - {s.due[0].topic};
      assert h.topic in s'.entries - {s.due[0].topic} && s'.entries[h.topic] == s.entries[h.topic];
    }
  }

  /** A fitting handle's publish ends its entry as promised, if it ends it. */
  lemma EndingFits(rule: Rule, s: State, ok: bool, now: nat, next: nat)
    requires Inv(s) && s.due != [] && s.clock <= now && Fits(rule, s.entries, s.due[0])
    ensures var s' := PublishNext(s, ok, now, next);
      s'.endings == s.endings || (|s'.endings| == |s.endings| + 1 && s'.endings[..|s.endings|] == s.endings && EndsBy(rule, s'.endings[|s.endings|]))
  {
    HeadFacts(s);
    if !ok && NextAttempts(s.due[0]) >= MAX_ATTEMPTS && rule.SpareLastTry? {
      FifthFails(s, now);
    }
  }

  /** The fifth publish comes no sooner than four waits after the first failure. */
  lemma FifthFails(s: State, now: nat)
    requires Inv(s) && s.due != [] && s.clock <= now && NextAttempts(s.due[0]) >= MAX_ATTEMPTS && Fits(SpareLastTry, s.entries, s.due[0])
    ensures var l := LifeOf(s, s.due[0].topic); l.publishes == 4 && |l.failures| == 4 && now >= l.failures[0].at + 3750
  {
    HeadFacts(s);
    LastIsSpaced(s, now);
    var t := s.due[0].topic;
    assert EntryPaced(s.entries[t], LifeOf(s, t), s.clock);
    FourLeastWaits(LifeOf(s, t).failures, Overtakes(s), now);
  }

  /** The least backoffs before attempt number `n + 1`, added up. */
  function LeastWait(n: nat): nat {
    if n == 0 then 0 else LeastWait(n - 1) + Ceiling(n) / 2
  }

  lemma {:induction false} LeastWaits(failures: seq<Failure>, overtaken: bool, at: nat)
    requires Spaced(failures, overtaken, at) && failures != []
    ensures at >= failures[0].at + LeastWait(|failures|)
  {
    var n := |failures| - 1;
    if n == 0 {
      assert LeastWait(0) == 0;
    } else {
      LeastWaits(failures[..n], overtaken, failures[n].at);
    }
  }

  lemma FourLeastWaits(failures: seq<Failure>, overtaken: bool, at: nat)
    requires |failures| == 4 && Spaced(failures, overtaken, at)
    ensures at >= failures[0].at + 3750
  {
    LeastWaits(failures, overtaken, at);
    CeilingValues(1);
    CeilingValues(2);
    CeilingValues(3);
    CeilingValues(4);
    assert LeastWait(1) == 250 && LeastWait(2) == 750;
    assert LeastWait(3) == 1750;
  }

  lemma PublishPromises(rule: Rule, s: State, a: Action)
    requires Inv(s) && AllFit(rule, s) && Promise(rule, s) && a.Publish? && Enabled(s, a)
    ensures AllFit(rule, Step(s, a)) && Promise(rule, Step(s, a))
  {
    var next, s' := a.now + WaitOf(s, a.nanos), Step(s, a);
    PublishFits(rule, s, a.ok, a.now, next, s');
    EndingFits(rule, s, a.ok, a.now, next);
    OneMoreEnding(rule, s, s');
  }

  lemma OneMoreEnding(rule: Rule, s: State, s': State)
    requires Promise(rule, s)
    requires s'.endings == s.endings || (|s'.endings| == |s.endings| + 1 && s'.endings[..|s.endings|] == s.endings && EndsBy(rule, s'.endings[|s.endings|]))
    ensures Promise(rule, s')
  {
    forall e | e in s'.endings ensures EndsBy(rule, e) {
      var i :| 0 <= i < |s'.endings| && s'.endings[i] == e;
      if i < |s.endings| {
        assert s'.endings[..|s.endings|][i] == e;
      }
    }
  }

  lemma StepPromises(rule: Rule, s: State, a: Action)
    requires Inv(s) && AllFit(rule, s) && Promise(rule, s) && Enabled(s, a)
    requires a.Enqueue? ==> Permits(rule, s, a.topic, a.payload)
    ensures AllFit(rule, Step(s, a)) && Promise(rule, Step(s, a))
  {
    match a
    case Enqueue(topic, payload) => EnqueueFits(rule, s, topic, payload);
    case Poll(now, order) => PollFits(rule, s, now, order);
    case Publish(_, _, _) => PublishPromises(rule, s, a);
  }

  lemma {:induction false} RunPromises(rule: Rule, s: State, actions: seq<Action>)
    requires Inv(s) && AllFit(rule, s) && Promise(rule, s) && Runs(s, actions) && Respects(rule, s, actions)
    ensures AllFit(rule, After(s, actions)) && Promise(rule, After(s, actions))
  {
    if actions == [] {
    } else {
      var before := actions[..|actions| - 1];
      RunPromises(rule, s, before);
      RunKeeps(s, before);
      StepPromises(rule, After(s, before), actions[|actions| - 1]);
    }
  }

  /** Runs from the start that respect a rule keep its promise. */
  lemma RespectfulRunsPromise(rule: Rule, channel: bool, actions: seq<Action>)
    requires Runs(Initial(channel), actions) && Respects(rule, Initial(channel), actions)
    ensures Promise(rule, After(Initial(channel), actions))
  {
    InitialInv(channel);
    RunPromises(rule, Initial(channel), actions);
  }

  lemma {:induction false} NoEnqueueRespects(rule: Rule, s: State, actions: seq<Action>)
    requires Runs(s, actions) && forall i :: 0 <= i < |actions| ==> !actions[i].Enqueue?
    ensures Respects(rule, s, actions)
  {
    if actions == [] {
    } else {
      NoEnqueueRespects(rule, s, actions[..|actions| - 1]);
    }
  }

  function OkPublishes(n: nat, now: nat): seq<Action> {
    if n == 0 then [] else OkPublishes(n - 1, now) + [Publish(true, now, 0)]
  }

  /** `s'` is `s` with the first `n` handles taken and nothing else touched but their topics. */
  ghost predicate LeftAlone(s: State, s': State, n: nat)
    requires n <= |s.due|
  {
    && s'.due == s.due[n..] && s'.clock == s.clock
    && forall t :: t in s.entries && (forall i :: 0 <= i < n ==> s.due[i].topic != t) ==>
      t in s'.entries && s'.entries[t] == s.entries[t] && LifeOf(s', t) == LifeOf(s, t)
  }

  lemma AnotherPublished(s: State, s': State, n: nat)
    requires n < |s.due| && LeftAlone(s, s', n)
    ensures LeftAlone(s, AckedNext(s', s.clock), n + 1)
  {
    var s'' := AckedNext(s', s.clock);
    assert s.due[n..][1..] == s.due[n + 1..] && s.due[n..][0] == s.due[n];
    forall t | t in s.entries && forall i :: 0 <= i < n + 1 ==> s.due[i].topic != t
      ensures t in s''.entries && s''.entries[t] == s.entries[t] && LifeOf(s'', t) == LifeOf(s, t)
    {
      assert s.due[n].topic != t;
      assert t in s'.entries && LifeOf(s', t) == LifeOf(s, t);
    }
  }

  lemma OkStep(s: State, now: nat)
    requires s.due != [] && s.clock <= now
    ensures Enabled(s, Publish(true, now, 0)) && Step(s, Publish(true, now, 0)) == AckedNext(s, now)
  {
  }

  lemma {:induction false} OnlyPublishes(n: nat, now: nat)
    ensures forall i :: 0 <= i < |OkPublishes(n, now)| ==> OkPublishes(n, now)[i].Publish?
  {
    if n == 0 {
    } else {
      OnlyPublishes(n - 1, now);
    }
  }

  /** The first `n` handles are published with success; the other topics are left alone. */
  lemma {:induction false} FrontPublished(s: State, n: nat)
    requires n <= |s.due|
    ensures Runs(s, OkPublishes(n, s.clock)) && LeftAlone(s, After(s, OkPublishes(n, s.clock)), n)
  {
    if n == 0 {
      assert s.due[0..] == s.due;
    } else {
      FrontPublished(s, n - 1);
      FrontGrows(s, OkPublishes(n - 1, s.clock), n - 1);
    }
  }

  lemma FrontGrows(s: State, before: seq<Action>, n: nat)
    requires n < |s.due| && Runs(s, before) && LeftAlone(s, After(s, before), n)
    ensures var front := before + [Publish(true, s.clock, 0)]; Runs(s, front) && LeftAlone(s, After(s, front), n + 1)
  {
    OkStep(After(s, before), s.clock);
    RunsMore(s, before, Publish(true, s.clock, 0));
    AnotherPublished(s, After(s, before), n);
  }

  /** The head handle has been overtaken by an entry just enqueued, against the rule. */
  ghost predicate Overtaken(rule: Rule, s: State, h: Handle, payload: Bytes) {
    && h.topic in s.entries && s.entries[h.topic] == Entry(payload, 0, 0) && LifeOf(s, h.topic) == NEW_LIFE
    && h.attempts < MAX_ATTEMPTS
    && if rule.SpareLastTry? then h.attempts + 1 >= MAX_ATTEMPTS else h.payload != payload
  }

  /** How the new entry ends, wrongly, when the overtaken handle is published. */
  function WrongEnding(rule: Rule, topic: Topic, at: nat): Ending {
    if rule.SpareLastTry? then GaveUp(topic, 1, [], true, at) else Acked(topic, 1, false)
  }

  lemma OvertakenEnds(rule: Rule, s: State, payload: Bytes)
    requires s.due != [] && Overtaken(rule, s, s.due[0], payload)
    ensures var a := Publish(rule.MatchPayload?, s.clock, 0);
      Enabled(s, a) && Step(s, a).endings == s.endings + [WrongEnding(rule, s.due[0].topic, s.clock)]
  {
  }

  lemma WrongBreaks(rule: Rule, s: State, endings: seq<Ending>, topic: Topic, at: nat)
    requires s.endings == endings + [WrongEnding(rule, topic, at)]
    ensures !Promise(rule, s)
  {
    var e := WrongEnding(rule, topic, at);
    assert e in s.endings && !EndsBy(rule, e);
  }

  lemma OvertakenStays(rule: Rule, s: State, s': State, payload: Bytes, n: nat)
    requires n < |s.due| && Overtaken(rule, s, s.due[n], payload) && LeftAlone(s, s', n)
    requires forall i :: 0 <= i < n ==> s.due[i].topic != s.due[n].topic
    ensures s'.due != [] && s'.due[0] == s.due[n] && Overtaken(rule, s', s'.due[0], payload)
  {
  }

  lemma OvertakenPublished(rule: Rule, s: State, front: seq<Action>, s': State, payload: Bytes) returns (actions: seq<Action>)
    requires Runs(s, front) && s' == After(s, front) && forall i :: 0 <= i < |front| ==> front[i].Publish?
    requires s'.due != [] && Overtaken(rule, s', s'.due[0], payload)
    ensures Runs(s, actions) && Respects(rule, s, actions) && !Promise(rule, After(s, actions))
  {
    var a := Publish(rule.MatchPayload?, s'.clock, 0);
    OvertakenEnds(rule, s', payload);
    RunsMore(s, front, a);
    actions := front + [a];
    NoEnqueueRespects(rule, s, actions);
    WrongBreaks(rule, After(s, actions), s'.endings, s'.due[0].topic, s'.clock);
  }

  /** Publishing the handles before it, and then the overtaken one, breaks the promise. */
  lemma OvertakenBreaks(rule: Rule, s: State, payload: Bytes, n: nat) returns (actions: seq<Action>)
    requires n < |s.due| && Overtaken(rule, s, s.due[n], payload)
    requires forall i :: 0 <= i < n ==> s.due[i].topic != s.due[n].topic
    ensures Runs(s, actions) && Respects(rule, s, actions) && !Promise(rule, After(s, actions))
  {
    var front := OkPublishes(n, s.clock);
    FrontPublished(s, n);
    OvertakenStays(rule, s, After(s, front), payload, n);
    OnlyPublishes(n, s.clock);
    actions := OvertakenPublished(rule, s, front, After(s, front), payload);
  }

  /** The continuations of `s` that respect the rule keep its promise. */
  ghost predicate PromisesOn(rule: Rule, s: State) {
    forall actions :: Runs(s, actions) && Respects(rule, s, actions) ==> Promise(rule, After(s, actions))
  }

  lemma PermittedPromises(rule: Rule, s: State, topic: Topic, payload: Bytes)
    requires Inv(s) && AllFit(rule, s) && Promise(rule, s) && Permits(rule, s, topic, payload)
    ensures PromisesOn(rule, Enqueued(s, topic, payload))
  {
    var s' := Enqueued(s, topic, payload);
    EnqueueKeeps(s, topic, payload);
    StepPromises(rule, s, Enqueue(topic, payload));
    forall actions | Runs(s', actions) && Respects(rule, s', actions) ensures Promise(rule, After(s', actions)) {
      RunPromises(rule, s', actions);
    }
  }

  lemma ForbiddenBreaks(rule: Rule, s: State, topic: Topic, payload: Bytes)
    requires Inv(s) && !Permits(rule, s, topic, payload)
    ensures !PromisesOn(rule, Enqueued(s, topic, payload))
  {
    var h :| h in s.due && h.topic == topic && if rule.SpareLastTry? then h.attempts + 1 >= MAX_ATTEMPTS else h.payload != payload;
    var n :| 0 <= n < |s.due| && s.due[n] == h;
    assert InFlight(s.entries, s.clock, s.due[n]);
    var actions := OvertakenBreaks(rule, Enqueued(s, topic, payload), payload, n);
  }

  /** The exact condition, wherever a respectful run has come: enqueueing keeps the promise in all
      respectful continuations if and only if the rule permits it. */
  lemma EnqueueIff(rule: Rule, channel: bool, before: seq<Action>, topic: Topic, payload: Bytes)
    requires Runs(Initial(channel), before) && Respects(rule, Initial(channel), before)
    ensures var s := After(Initial(channel), before);
      Permits(rule, s, topic, payload) <==> PromisesOn(rule, Enqueued(s, topic, payload))
  {
    var s := After(Initial(channel), before);
    InitialInv(channel);
    RunKeeps(Initial(channel), before);
    RunPromises(rule, Initial(channel), before);
    if Permits(rule, s, topic, payload) {
      PermittedPromises(rule, s, topic, payload);
    } else {
      ForbiddenBreaks(rule, s, topic, payload);
    }
  }

  /** A run that acknowledges what it never published: `q` replaces `p` while `p` is being sent. */
  lemma UnsentAcked(channel: bool, t: Topic, p: Bytes, q: Bytes)
    requires p != q
    ensures var actions := [Enqueue(t, p)] + [Poll(0, [t])] + [Enqueue(t, q)] + [Publish(true, 0, 0)];
      Runs(Initial(channel), actions) && After(Initial(channel), actions).endings == [Replaced(t, 0), Acked(t, 1, false)]
  {
    var s0 := Initial(channel);
    RunsOne(s0, Enqueue(t, p));
    var s1 := After(s0, [Enqueue(t, p)]);
    PollsOne(s1, t, Entry(p, 0, 0), 0);
    RunsMore(s0, [Enqueue(t, p)], Poll(0, [t]));
    RunsMore(s0, [Enqueue(t, p)] + [Poll(0, [t])], Enqueue(t, q));
    RunsMore(s0, [Enqueue(t, p)] + [Poll(0, [t])] + [Enqueue(t, q)], Publish(true, 0, 0));
  }

  /** A poll when one entry is pending and due. */
  lemma PollsOne(s: State, t: Topic, e: Entry, now: nat)
    requires s.due == [] && s.clock <= now && s.entries == map[t := e] && e.nextAttemptMs <= now
    ensures Enabled(s, Poll(now, [t])) && Step(s, Poll(now, [t])) == s.(due := [Handle(t, e.payload, e.attempts)], clock := now)
  {
    assert Handles(s.entries, [t]) == [Handle(t, e.payload, e.attempts)];
  }

  /** One pending entry with `k` failed publishes. */
  ghost predicate FailedTimes(s: State, t: Topic, p: Bytes, k: nat) {
    && s.due == [] && t in s.entries && s.entries == map[t := s.entries[t]]
    && s.entries[t].payload == p && s.entries[t].attempts == k
  }

  lemma {:induction false} FailingRun(channel: bool, t: Topic, p: Bytes, k: nat) returns (actions: seq<Action>)
    requires k < MAX_ATTEMPTS
    ensures Runs(Initial(channel), actions) && FailedTimes(After(Initial(channel), actions), t, p, k)
  {
    var s0 := Initial(channel);
    if k == 0 {
      actions := [Enqueue(t, p)];
      RunsOne(s0, actions[0]);
    } else {
      var before := FailingRun(channel, t, p, k - 1);
      var s := After(s0, before);
      DueLater(channel, before, t);
      var poll := Poll(s.clock + 4000, [t]);
      PollsOne(s, t, s.entries[t], s.clock + 4000);
      RunsMore(s0, before, poll);
      var publish := Publish(false, s.clock + 4000, 0);
      OneFailure(After(s0, before + [poll]), t, p, k - 1);
      RunsMore(s0, before + [poll], publish);
      actions := before + [poll] + [publish];
    }
  }

  lemma DueLater(channel: bool, before: seq<Action>, t: Topic)
    requires Runs(Initial(channel), before) && t in After(Initial(channel), before).entries
    ensures var s := After(Initial(channel), before); s.entries[t].nextAttemptMs < s.clock + 4000
  {
    InitialInv(channel);
    RunKeeps(Initial(channel), before);
    var s := After(Initial(channel), before);
    assert EntryPaced(s.entries[t], LifeOf(s, t), s.clock);
  }

  lemma OneFailure(s: State, t: Topic, p: Bytes, k: nat)
    requires k + 1 < MAX_ATTEMPTS && s.due == [Handle(t, p, k)] && t in s.entries && s.entries == map[t := s.entries[t]]
    requires s.entries[t].payload == p && s.entries[t].attempts == k
    ensures var a := Publish(false, s.clock, 0); Enabled(s, a) && FailedTimes(Step(s, a), t, p, k + 1)
  {
    RetriedOne(s, t, p, k, s.clock + WaitOf(s, 0));
  }

  lemma RetriedOne(s: State, t: Topic, p: Bytes, k: nat, next: nat)
    requires k + 1 < MAX_ATTEMPTS && s.due == [Handle(t, p, k)] && t in s.entries && s.entries == map[t := s.entries[t]]
    requires s.entries[t].payload == p && s.entries[t].attempts == k
    ensures PublishNext(s, false, s.clock, next) == RetriedNext(s, s.clock, next) && FailedTimes(RetriedNext(s, s.clock, next), t, p, k + 1)
  {
  }

  /** A run that gives an entry up after one publish: it replaces one whose last attempt is under way. */
  lemma EarlyGiveUp(channel: bool, t: Topic, p: Bytes, q: Bytes) returns (actions: seq<Action>, at: nat)
    ensures Runs(Initial(channel), actions)
    ensures var endings := After(Initial(channel), actions).endings; endings != [] && endings[|endings| - 1] == GaveUp(t, 1, [], true, at)
  {
    var s0 := Initial(channel);
    var before := FailingRun(channel, t, p, 4);
    var s := After(s0, before);
    DueLater(channel, before, t);
    at := s.clock + 4000;
    var poll, enqueue, publish := Poll(at, [t]), Enqueue(t, q), Publish(false, at, 0);
    PollsOne(s, t, s.entries[t], at);
    RunsMore(s0, before, poll);
    RunsMore(s0, before + [poll], enqueue);
    var taken := After(s0, before + [poll] + [enqueue]);
    assert taken.due == [Handle(t, p, 4)] && taken.clock == at && Overtaken(SpareLastTry, taken, taken.due[0], q);
    OvertakenEnds(SpareLastTry, taken, q);
    RunsMore(s0, before + [poll] + [enqueue], publish);
    actions := before + [poll] + [enqueue] + [publish];
  }
}
