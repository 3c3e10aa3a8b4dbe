/** When the attempts for an entry come: the backoff as the pump schedules it. */
module RetrySchedule {
  import opened ByteStrings
  import opened Retry
  import opened Backoff

  ghost function Wait(f: Failure): int {
    f.next - f.at
  }

  /** The wait scheduled after the failure number `i`, counted from 0. */
  ghost predicate InRange(f: Failure, i: nat) {
    match i
    case 0 => 250 <= Wait(f) < 500
    case 1 => 500 <= Wait(f) < 1000
    case 2 => 1000 <= Wait(f) < 2000
    case 3 => 2000 <= Wait(f) < 4000
    case _ => false
  }

  lemma BackoffInRange(attempts: nat, now: nat, nanos: nat)
    requires attempts < 4
    ensures InRange(Failure(now, now + ComputeBackoffMs(attempts + 1, nanos)), attempts)
  {
    BackoffRange(attempts + 1, nanos);
    CeilingValues(attempts + 1);
  }

  /** The attempts double their waits, and none comes before it is due. */
  ghost predicate OnSchedule(failures: seq<Failure>) {
    && (forall i :: 0 <= i < |failures| ==> InRange(failures[i], i))
    && (forall i, j :: 0 <= i < j < |failures| ==> failures[i].next <= failures[j].at)
  }

  ghost function TotalWait(failures: seq<Failure>): int {
    if failures == [] then 0 else TotalWait(failures[..|failures| - 1]) + Wait(failures[|failures| - 1])
  }

  lemma {:induction false} SpacedIsOnSchedule(failures: seq<Failure>, at: nat)
    requires Spaced(failures, false, at) && |failures| <= 4
    ensures OnSchedule(failures) && forall i :: 0 <= i < |failures| ==> failures[i].next <= at
  {
    if failures == [] {
    } else {
      var n := |failures| - 1;
      CeilingValues(n + 1);
      SpacedIsOnSchedule(failures[..n], failures[n].at);
      assert forall i :: 0 <= i < n ==> failures[..n][i] == failures[i];
    }
  }

  lemma TotalOfFour(failures: seq<Failure>)
    requires |failures| == 4
    ensures TotalWait(failures) == Wait(failures[0]) + Wait(failures[1]) + Wait(failures[2]) + Wait(failures[3])
  {
    assert failures[..3][..2] == failures[..2] && failures[..2][..1] == failures[..1] && failures[..1][..0] == [];
    assert TotalWait(failures[..1]) == Wait(failures[0]);
    assert TotalWait(failures[..2]) == Wait(failures[0]) + Wait(failures[1]);
    assert TotalWait(failures[..3]) == Wait(failures[0]) + Wait(failures[1]) + Wait(failures[2]);
  }

  /** In every run: an entry that is given up, and was not overtaken, failed five times. The four
      waits scheduled between the attempts double, and sum to between 3750 and 7496 ms. */
  lemma GivenUpOnSchedule(channel: bool, actions: seq<Action>, e: Ending)
    requires Runs(Initial(channel), actions) && e in After(Initial(channel), actions).endings
    requires e.GaveUp? && !e.overtaken
    ensures e.publishes == 5 && |e.failures| == 4 && OnSchedule(e.failures)
    ensures 3750 <= TotalWait(e.failures) <= 7496
    ensures e.at >= e.failures[0].at + TotalWait(e.failures)
  {
    EndingOf(channel, actions, e);
    SpacedIsOnSchedule(e.failures, e.at);
    TotalOfFour(e.failures);
    var f := e.failures;
    assert InRange(f[0], 0) && InRange(f[1], 1) && InRange(f[2], 2) && InRange(f[3], 3);
  }

  lemma EndingOf(channel: bool, actions: seq<Action>, e: Ending)
    requires Runs(Initial(channel), actions) && e in After(Initial(channel), actions).endings
    ensures EndsWell(e)
  {
    InitialInv(channel);
    RunKeeps(Initial(channel), actions);
  }

  /** And so for what is pending, whose next attempt is due when its last failure said. */
  lemma PendingOnSchedule(channel: bool, actions: seq<Action>, t: Topic)
    requires Runs(Initial(channel), actions) && t in After(Initial(channel), actions).entries
    requires !LifeOf(After(Initial(channel), actions), t).overtaken
    ensures var s := After(Initial(channel), actions);
      var e, failures := s.entries[t], LifeOf(s, t).failures;
      && |failures| == e.attempts < 5 && OnSchedule(failures)
      && (failures != [] ==> e.nextAttemptMs == failures[|failures| - 1].next)
  {
    InitialInv(channel);
    RunKeeps(Initial(channel), actions);
    var s := After(Initial(channel), actions);
    assert EntryPaced(s.entries[t], LifeOf(s, t), s.clock);
    SpacedIsOnSchedule(LifeOf(s, t).failures, s.entries[t].nextAttemptMs);
  }

  /** Every enqueue finds only first attempts of its topic in flight, or none. */
  ghost predicate SparesRetries(s: State, actions: seq<Action>)
    requires Runs(s, actions)
  {
    actions == [] ||
      var before, a := actions[..|actions| - 1], actions[|actions| - 1];
      SparesRetries(s, before) && (a.Enqueue? ==> forall h :: h in After(s, before).due && h.topic == a.topic ==> h.attempts == 0)
  }

  /** Every handle in flight has the attempts of its entry, and nothing has been overtaken. */
  ghost predicate NoneOvertaken(s: State) {
    && (forall i :: 0 <= i < |s.due| ==> s.due[i].topic in s.entries && s.entries[s.due[i].topic].attempts == s.due[i].attempts)
    && (forall t :: t in s.lives ==> !s.lives[t].overtaken)
    && (forall e :: e in s.endings && e.GaveUp? ==> !e.overtaken)
  }

  lemma EnqueueSpares(s: State, topic: Topic, payload: Bytes)
    requires NoneOvertaken(s) && forall h :: h in s.due && h.topic == topic ==> h.attempts == 0
    ensures NoneOvertaken(Enqueued(s, topic, payload))
  {
    var s' := Enqueued(s, topic, payload);
    forall i | 0 <= i < |s'.due| ensures s'.due[i].topic in s'.entries && s'.entries[s'.due[i].topic].attempts == s'.due[i].attempts {
      assert s.due[i] in s.due;
    }
  }

  lemma PollSpares(s: State, a: Action)
    requires NoneOvertaken(s) && a.Poll? && Enabled(s, a)
    ensures NoneOvertaken(Step(s, a))
  {
    forall i | 0 <= i < |a.order| ensures a.order[i] in s.entries {
      assert a.order[i] in a.order;
    }
  }

  lemma PublishSpares(s: State, ok: bool, now: nat, next: nat, s': State)
    requires Tracked(s) && NoneOvertaken(s) && s.due != [] && s' == PublishNext(s, ok, now, next)
    ensures NoneOvertaken(s')
  {
    EntriesAfter(s, ok, now, next);
    HeadFacts(s);
    var u := s.due[0].topic;
    forall i | 0 <= i < |s'.due| ensures s'.due[i].topic in s'.entries && s'.entries[s'.due[i].topic].attempts == s'.due[i].attempts {
      var h := s.due[i + 1];
      assert s'.due[i] == h && h.topic in s.entries - {u};
      assert h.topic in s'.entries - {u} && s'.entries[h.topic] == s.entries[h.topic];
    }
  }

  lemma {:induction false} RunSpares(s: State, actions: seq<Action>)
    requires Inv(s) && NoneOvertaken(s) && Runs(s, actions) && SparesRetries(s, actions)
    ensures NoneOvertaken(After(s, actions))
  {
    if actions == [] {
    } else {
      var before, a := actions[..|actions| - 1], actions[|actions| - 1];
      RunSpares(s, before);
      RunKeeps(s, before);
      StepSpares(After(s, before), a);
    }
  }

  lemma StepSpares(s: State, a: Action)
    requires Inv(s) && NoneOvertaken(s) && Enabled(s, a)
    requires a.Enqueue? ==> forall h :: h in s.due && h.topic == a.topic ==> h.attempts == 0
    ensures NoneOvertaken(Step(s, a))
  {
    match a
    case Enqueue(topic, payload) => EnqueueSpares(s, topic, payload);
    case Poll(_, _) => PollSpares(s, a);
    case Publish(_, _, _) => PublishStepSpares(s, a);
  }

  lemma PublishStepSpares(s: State, a: Action)
    requires Inv(s) && NoneOvertaken(s) && a.Publish? && Enabled(s, a)
    ensures NoneOvertaken(Step(s, a))
  {
    PublishSpares(s, a.ok, a.now, a.now + WaitOf(s, a.nanos), Step(s, a));
  }

  /** Only an enqueue that finds a retry of its topic in flight gets an entry overtaken. */
  lemma SparedAreOnSchedule(channel: bool, actions: seq<Action>, e: Ending)
    requires Runs(Initial(channel), actions) && SparesRetries(Initial(channel), actions)
    requires e in After(Initial(channel), actions).endings && e.GaveUp?
    ensures e.publishes == 5 && |e.failures| == 4 && OnSchedule(e.failures) && 3750 <= TotalWait(e.failures) <= 7496
  {
    InitialInv(channel);
    RunSpares(Initial(channel), actions);
    GivenUpOnSchedule(channel, actions, e);
  }
}
