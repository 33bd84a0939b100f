// run.py: threads that append events under a per-run lock, and pollers that read without one.
module RunThreads {
  import opened RunLog

  // Where a thread is in append_event: it has looked up the lock, holds it, has counted the lines, or has
  // written its line.
  datatype Place =
    | Outside
    | Waiting(run: nat, lock: nat)
    | Holding(run: nat, lock: nat)
    | Counted(run: nat, lock: nat, index: nat)
    | Done(run: nat, lock: nat)

  datatype Poller = Poller(run: nat, received: seq<Event>)

  datatype State = State(
    threads: map<nat, Place>, locks: map<nat, nat>, nextLock: nat, holders: map<nat, nat>,
    logs: map<nat, seq<Event>>, pollers: map<nat, Poller>)

  function PlaceOf(s: State, t: nat): Place {
    if t in s.threads then s.threads[t] else Outside
  }

  function LogOf(s: State, run: nat): seq<Event> {
    if run in s.logs then s.logs[run] else []
  }

  datatype Step =
    | Fetch(t: nat, run: nat)
    | Acquire(t: nat)
    | Count(t: nat)
    | Write(t: nat, phase: nat, name: Name)
    | Release(t: nat)
    | Subscribe(p: nat, run: nat)
    | Poll(p: nat, upTo: nat)

  /** The number of the last event received. */
  function LastSeen(received: seq<Event>): int {
    if received == [] then -1 else received[|received| - 1].index
  }

  predicate Inside(place: Place) {
    place.Holding? || place.Counted? || place.Done?
  }

  /** One atomic step; a step that is not enabled does nothing. Fetching happens under the guard of the lock
      table. A thread may leave its critical section at any point, as an exception would make it. A poll sees
      some prefix of the log that holds at least what the poller saw before. */
  function Next(s: State, step: Step): State {
    match step
    case Fetch(t, run) =>
      if PlaceOf(s, t) != Outside then s
      else if run in s.locks then s.(threads := s.threads[t := Waiting(run, s.locks[run])])
      else s.(threads := s.threads[t := Waiting(run, s.nextLock)], locks := s.locks[run := s.nextLock],
              nextLock := s.nextLock + 1)
    case Acquire(t) =>
      var at := PlaceOf(s, t);
      if !at.Waiting? || at.lock in s.holders then s
      else s.(threads := s.threads[t := Holding(at.run, at.lock)], holders := s.holders[at.lock := t])
    case Count(t) =>
      var at := PlaceOf(s, t);
      if !at.Holding? then s
      else s.(threads := s.threads[t := Counted(at.run, at.lock, |LogOf(s, at.run)|)])
    case Write(t, phase, name) =>
      var at := PlaceOf(s, t);
      if !at.Counted? then s
      else s.(threads := s.threads[t := Done(at.run, at.lock)],
              logs := s.logs[at.run := LogOf(s, at.run) + [Event(at.index, phase, name)]])
    case Release(t) =>
      var at := PlaceOf(s, t);
      if !Inside(at) then s
      else s.(threads := s.threads[t := Outside], holders := s.holders - {at.lock})
    case Subscribe(p, run) =>
      if p in s.pollers then s else s.(pollers := s.pollers[p := Poller(run, [])])
    case Poll(p, upTo) =>
      if p !in s.pollers then s
      else
        var was := s.pollers[p];
        var log := LogOf(s, was.run);
        if upTo < |was.received| || upTo > |log| then s
        else
          var received := was.received + RunLog.After(log[..upTo], LastSeen(was.received));
          s.(pollers := s.pollers[p := Poller(was.run, received)])
  }

  const START: State := State(map[], map[], 0, map[], map[], map[])

  function Reached(steps: seq<Step>): State {
    if steps == [] then START else Next(Reached(steps[..|steps| - 1]), steps[|steps| - 1])
  }

  // ----- The invariant -----

  /** A run has one lock, and different runs have different ones. */
  ghost predicate LocksOk(s: State) {
    && (forall run :: run in s.locks ==> s.locks[run] < s.nextLock)
    && (forall run, other :: run in s.locks && other in s.locks && s.locks[run] == s.locks[other] ==> run == other)
  }

  /** A thread uses its run's lock, holds it while inside, and the line count it took is still right. */
  ghost predicate ThreadOk(s: State, t: nat) {
    var at := PlaceOf(s, t);
    && (!at.Outside? ==> at.run in s.locks && s.locks[at.run] == at.lock)
    && (Inside(at) ==> at.lock in s.holders && s.holders[at.lock] == t)
    && (at.Counted? ==> at.index == |LogOf(s, at.run)|)
  }

  /** A poller has received a prefix of the log. */
  ghost predicate PollerOk(s: State, p: nat) {
    p in s.pollers ==> s.pollers[p].received <= LogOf(s, s.pollers[p].run)
  }

  ghost predicate Inv(s: State) {
    && LocksOk(s)
    && (forall t :: ThreadOk(s, t))
    && (forall run :: Numbered(LogOf(s, run)))
    && (forall p :: PollerOk(s, p))
  }

  lemma StepKeepsLocks(s: State, step: Step)
    requires Inv(s)
    ensures LocksOk(Next(s, step))
  {
  }

  lemma WriteKeepsThread(s: State, step: Step, u: nat)
    requires step.Write? && LocksOk(s) && ThreadOk(s, step.t) && ThreadOk(s, u)
    ensures ThreadOk(Next(s, step), u)
  {
    var at, other := PlaceOf(s, step.t), PlaceOf(s, u);
    assert at.Counted? && other.Counted? && at.run == other.run ==> u == step.t;
  }

  lemma FetchKeepsThread(s: State, step: Step, u: nat)
    requires step.Fetch? && LocksOk(s) && ThreadOk(s, u)
    ensures ThreadOk(Next(s, step), u)
  {
  }

  lemma LockStepKeepsThread(s: State, step: Step, u: nat)
    requires step.Acquire? || step.Count? || step.Release?
    requires LocksOk(s) && ThreadOk(s, step.t) && ThreadOk(s, u)
    ensures ThreadOk(Next(s, step), u)
  {
    assert u != step.t ==> PlaceOf(Next(s, step), u) == PlaceOf(s, u);
  }

  lemma StepKeepsThread(s: State, step: Step, u: nat)
    requires LocksOk(s) && forall t :: ThreadOk(s, t)
    ensures ThreadOk(Next(s, step), u)
  {
    assert ThreadOk(s, u);
    if step.Write? {
      WriteKeepsThread(s, step, u);
    } else if step.Fetch? {
      FetchKeepsThread(s, step, u);
    } else if !step.Subscribe? && !step.Poll? {
      LockStepKeepsThread(s, step, u);
    }
  }

  lemma StepKeepsLog(s: State, step: Step, run: nat)
    requires Inv(s)
    ensures Numbered(LogOf(Next(s, step), run))
    ensures LogOf(s, run) <= LogOf(Next(s, step), run)
  {
    assert Numbered(LogOf(s, run));
    if step.Write? {
      assert ThreadOk(s, step.t);
    }
  }

  lemma PollGetsTheRest(log: seq<Event>, received: seq<Event>, upTo: nat)
    requires Numbered(log) && received <= log && |received| <= upTo <= |log|
    ensures received + RunLog.After(log[..upTo], LastSeen(received)) == log[..upTo]
  {
    var seen := log[..upTo];
    assert Numbered(seen);
    assert LastSeen(received) == |received| - 1;
    if upTo == |received| {
      NothingAfter(seen, LastSeen(received));
    } else {
      AfterIsSuffix(seen, LastSeen(received));
    }
  }

  lemma PollKeepsPoller(s: State, step: Step, p: nat)
    requires step.Poll? && PollerOk(s, p) && p in s.pollers && Numbered(LogOf(s, s.pollers[p].run))
    ensures PollerOk(Next(s, step), p)
  {
    var was := s.pollers[p];
    if step.p == p && |was.received| <= step.upTo <= |LogOf(s, was.run)| {
      PollGetsTheRest(LogOf(s, was.run), was.received, step.upTo);
    }
  }

  lemma StepKeepsPoller(s: State, step: Step, p: nat)
    requires Inv(s)
    ensures PollerOk(Next(s, step), p)
  {
    assert PollerOk(s, p);
    if p in s.pollers {
      var run := s.pollers[p].run;
      assert Numbered(LogOf(s, run));
      if step.Poll? {
        PollKeepsPoller(s, step, p);
      } else {
        StepKeepsLog(s, step, run);
        assert Next(s, step).pollers[p] == s.pollers[p];
      }
    }
  }

  lemma StepKeepsInv(s: State, step: Step)
    requires Inv(s)
    ensures Inv(Next(s, step))
  {
    var n := Next(s, step);
    StepKeepsLocks(s, step);
    forall t
      ensures ThreadOk(n, t)
    {
      StepKeepsThread(s, step, t);
    }
    forall run
      ensures Numbered(LogOf(n, run))
    {
      StepKeepsLog(s, step, run);
    }
    forall p
      ensures PollerOk(n, p)
    {
      StepKeepsPoller(s, step, p);
    }
  }

  lemma {:induction false} InvAlways(steps: seq<Step>)
    ensures Inv(Reached(steps))
  {
    if steps != [] {
      InvAlways(steps[..|steps| - 1]);
      StepKeepsInv(Reached(steps[..|steps| - 1]), steps[|steps| - 1]);
    }
  }

  // ----- What holds in every interleaving -----

  /** Line `i` of every log carries number `i`. */
  lemma LinesAreNumbered(steps: seq<Step>, run: nat, i: nat)
    requires i < |LogOf(Reached(steps), run)|
    ensures LogOf(Reached(steps), run)[i].index == i
  {
    InvAlways(steps);
    assert Numbered(LogOf(Reached(steps), run));
  }

  /** Two threads are never inside the critical section of one run. */
  lemma OneWriterPerRun(steps: seq<Step>, t: nat, u: nat)
    requires Inside(PlaceOf(Reached(steps), t)) && Inside(PlaceOf(Reached(steps), u))
    requires PlaceOf(Reached(steps), t).run == PlaceOf(Reached(steps), u).run
    ensures t == u
  {
    InvAlways(steps);
    assert ThreadOk(Reached(steps), t) && ThreadOk(Reached(steps), u);
  }

  lemma ReachedThen(steps: seq<Step>, step: Step)
    ensures Reached(steps + [step]) == Next(Reached(steps), step)
  {
    assert (steps + [step])[..|steps|] == steps;
  }

  /** Lines are never changed or removed. */
  lemma {:induction false} LogGrows(steps: seq<Step>, more: seq<Step>, run: nat)
    ensures LogOf(Reached(steps), run) <= LogOf(Reached(steps + more), run)
  {
    if more == [] {
      assert steps + more == steps;
    } else {
      var n := |more| - 1;
      var earlier := steps + more[..n];
      assert steps + more == earlier + [more[n]];
      LogGrows(steps, more[..n], run);
      ReachedThen(earlier, more[n]);
      InvAlways(earlier);
      StepKeepsLog(Reached(earlier), more[n], run);
    }
  }

  /** The number an append reports is the number of the line it wrote, which no later step changes. */
  lemma WrittenLineStays(before: seq<Step>, write: Step, after: seq<Step>)
    requires write.Write? && PlaceOf(Reached(before), write.t).Counted?
    ensures var at := PlaceOf(Reached(before), write.t);
            var log := LogOf(Reached(before + [write] + after), at.run);
            at.index < |log| && log[at.index] == Event(at.index, write.phase, write.name)
  {
    var at := PlaceOf(Reached(before), write.t);
    InvAlways(before);
    assert ThreadOk(Reached(before), write.t);
    ReachedThen(before, write);
    assert at.index < |LogOf(Reached(before + [write]), at.run)|;
    LogGrows(before + [write], after, at.run);
  }

  /** A poller that passes its last number has received the first events of the log, each once and in order. */
  lemma PollerMissesNothing(steps: seq<Step>, p: nat)
    requires p in Reached(steps).pollers
    ensures var s := Reached(steps);
            var got := s.pollers[p].received;
            got <= LogOf(s, s.pollers[p].run) && forall i :: 0 <= i < |got| ==> got[i].index == i
  {
    InvAlways(steps);
    assert PollerOk(Reached(steps), p);
    assert Numbered(LogOf(Reached(steps), Reached(steps).pollers[p].run));
  }

  /** A poll that sees the whole log leaves nothing unread. */
  lemma FullPollCatchesUp(steps: seq<Step>, p: nat)
    requires p in Reached(steps).pollers
    ensures var s := Reached(steps);
            var log := LogOf(s, s.pollers[p].run);
            Next(s, Poll(p, |log|)).pollers[p].received == log
  {
    var s := Reached(steps);
    PollerMissesNothing(steps, p);
    InvAlways(steps);
    assert Numbered(LogOf(s, s.pollers[p].run));
    PollGetsTheRest(LogOf(s, s.pollers[p].run), s.pollers[p].received, |LogOf(s, s.pollers[p].run)|);
  }

  /** A new poller starts with nothing received; subscribing again changes nothing. */
  lemma SubscribesFresh(s: State, p: nat, run: nat)
    ensures var r := Next(s, Subscribe(p, run));
            && r.logs == s.logs && r.threads == s.threads && r.locks == s.locks && r.holders == s.holders
            && (p in s.pollers ==> r.pollers == s.pollers)
            && (p !in s.pollers ==> r.pollers == s.pollers[p := Poller(run, [])])
  {
  }

  /** A poll that sees the first `upTo` lines, no fewer than were received, brings the poller up to exactly those. */
  lemma PollReceives(steps: seq<Step>, p: nat, upTo: nat)
    requires p in Reached(steps).pollers
    ensures var s := Reached(steps);
            var was := s.pollers[p];
            |was.received| <= upTo <= |LogOf(s, was.run)|
            ==> Next(s, Poll(p, upTo)).pollers[p] == Poller(was.run, LogOf(s, was.run)[..upTo])
  {
    var s := Reached(steps);
    InvAlways(steps);
    assert PollerOk(s, p) && Numbered(LogOf(s, s.pollers[p].run));
    if |s.pollers[p].received| <= upTo <= |LogOf(s, s.pollers[p].run)| {
      PollGetsTheRest(LogOf(s, s.pollers[p].run), s.pollers[p].received, upTo);
    }
  }

  // ----- Going through -----

  /** A thread gets its run's lock if nobody holds it. */
  lemma TakesTheLock(s: State, t: nat, run: nat)
    requires PlaceOf(s, t) == Outside
    requires (if run in s.locks then s.locks[run] else s.nextLock) !in s.holders
    ensures var r := Next(Next(s, Fetch(t, run)), Acquire(t));
            && run in r.locks && (run in s.locks ==> r.locks == s.locks) && r.logs == s.logs
            && PlaceOf(r, t) == Holding(run, r.locks[run]) && r.holders == s.holders[r.locks[run] := t]
            && r.locks[run] !in s.holders
  {
    var fetched := Next(s, Fetch(t, run));
    assert PlaceOf(fetched, t) == Waiting(run, fetched.locks[run]);
  }

  /** A thread with the lock adds one line, numbered by the lines before it, and gives the lock back. */
  lemma WritesItsLine(s: State, t: nat, phase: nat, name: Name)
    requires PlaceOf(s, t).Holding?
    ensures var run := PlaceOf(s, t).run;
            var r := Next(Next(Next(s, Count(t)), Write(t, phase, name)), Release(t));
            && r.logs == s.logs[run := LogOf(s, run) + [Event(|LogOf(s, run)|, phase, name)]]
            && PlaceOf(r, t) == Outside && r.holders == s.holders - {PlaceOf(s, t).lock} && r.locks == s.locks
  {
    var counted := Next(s, Count(t));
    assert PlaceOf(counted, t) == Counted(PlaceOf(s, t).run, PlaceOf(s, t).lock, |LogOf(s, PlaceOf(s, t).run)|);
    var written := Next(counted, Write(t, phase, name));
    assert PlaceOf(written, t) == Done(PlaceOf(s, t).run, PlaceOf(s, t).lock);
  }

  /** The steps of one append_event. */
  function Appending(s: State, t: nat, run: nat, phase: nat, name: Name): State {
    var holding := Next(Next(s, Fetch(t, run)), Acquire(t));
    Next(Next(Next(holding, Count(t)), Write(t, phase, name)), Release(t))
  }

  /** While nobody holds the run's lock, a thread's five steps add one line to the run's log and to no other, and free
      the lock again. */
  lemma AppendGoesThrough(s: State, t: nat, run: nat, phase: nat, name: Name)
    requires PlaceOf(s, t) == Outside
    requires (if run in s.locks then s.locks[run] else s.nextLock) !in s.holders
    ensures var r := Appending(s, t, run, phase, name);
            && r.logs == s.logs[run := LogOf(s, run) + [Event(|LogOf(s, run)|, phase, name)]]
            && PlaceOf(r, t) == Outside && r.holders == s.holders
  {
    TakesTheLock(s, t, run);
    WritesItsLine(Next(Next(s, Fetch(t, run)), Acquire(t)), t, phase, name);
  }

  /** While another thread holds the lock, a waiting one stays where it is, and nothing else happens. */
  lemma WaitsForTheLock(s: State, t: nat)
    requires PlaceOf(s, t).Waiting? && PlaceOf(s, t).lock in s.holders
    ensures Next(s, Acquire(t)) == s
  {
  }
}
