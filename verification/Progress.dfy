/** Nobody has to wait for ever: work that has begun can always be ended, and the lock then goes to a waiting task. */
module Progress {
  import opened Protocol
  import opened Slots
  import opened Steps
  import opened Interleaving
  import opened Concurrency

  /** An action that is not possible does nothing. */
  ghost function Do(cfg: Config, jobs: seq<Job>, slots0: imap<string, Slot>, sys: Sys, a: Action): (sys': Sys)
    requires Shaped(jobs, slots0, sys)
    ensures Shaped(jobs, slots0, sys')
  {
    if Enabled(jobs, slots0, sys, a) then Next(cfg, jobs, slots0, sys, a) else sys
  }

  /** What the system comes to from some state on. */
  ghost function From(cfg: Config, jobs: seq<Job>, slots0: imap<string, Slot>, sys: Sys, more: seq<Action>): (sys': Sys)
    requires Shaped(jobs, slots0, sys)
    ensures Shaped(jobs, slots0, sys')
    decreases |more|
  {
    if more == [] then sys else From(cfg, jobs, slots0, Do(cfg, jobs, slots0, sys, more[0]), more[1..])
  }

  lemma FromStep(cfg: Config, jobs: seq<Job>, slots0: imap<string, Slot>, sys: Sys, a: Action, sys': Sys, more: seq<Action>)
    requires Shaped(jobs, slots0, sys) && Enabled(jobs, slots0, sys, a) && sys' == Next(cfg, jobs, slots0, sys, a)
    ensures From(cfg, jobs, slots0, sys, [a] + more) == From(cfg, jobs, slots0, sys', more)
    ensures From(cfg, jobs, slots0, sys, [a]) == sys'
  {
    assert ([a] + more)[1..] == more && [a][1..] == [];
  }

  lemma AfterStep(cfg: Config, jobs: seq<Job>, slots0: imap<string, Slot>, schedule: seq<Action>, a: Action, longer: seq<Action>)
    requires WellPosed(jobs, slots0) && longer == schedule + [a]
    ensures After(cfg, jobs, slots0, longer) == Do(cfg, jobs, slots0, After(cfg, jobs, slots0, schedule), a)
  {
    assert longer[..|longer| - 1] == schedule;
  }

  lemma {:induction false} AfterThenFrom(cfg: Config, jobs: seq<Job>, slots0: imap<string, Slot>,
                                         schedule: seq<Action>, more: seq<Action>, all: seq<Action>)
    requires WellPosed(jobs, slots0) && all == schedule + more
    ensures After(cfg, jobs, slots0, all) == From(cfg, jobs, slots0, After(cfg, jobs, slots0, schedule), more)
    decreases |more|
  {
    if more == [] {
      assert all == schedule;
    } else {
      var longer := schedule + [more[0]];
      AfterStep(cfg, jobs, slots0, schedule, more[0], longer);
      AfterThenFrom(cfg, jobs, slots0, longer, more[1..], all);
      FromRest(cfg, jobs, slots0, After(cfg, jobs, slots0, schedule), After(cfg, jobs, slots0, longer), more);
    }
  }

  lemma FromRest(cfg: Config, jobs: seq<Job>, slots0: imap<string, Slot>, sys: Sys, next: Sys, more: seq<Action>)
    requires Shaped(jobs, slots0, sys) && more != [] && next == Do(cfg, jobs, slots0, sys, more[0])
    ensures From(cfg, jobs, slots0, sys, more) == From(cfg, jobs, slots0, next, more[1..])
  {
  }

  /** Nothing but this task's own state, and its upload and the lock on it, differs. */
  ghost predicate OnlyBy(jobs: seq<Job>, before: Sys, after: Sys, t: nat)
    requires t < |jobs|
  {
    && |after.states| == |before.states| && after.log == before.log
    && (forall t' :: 0 <= t' < |before.states| && t' != t ==> after.states[t'] == before.states[t'])
    && (forall id :: id != jobs[t].Id() ==> (id in after.held <==> id in before.held))
  }

  /** The task ended as it should, and gave back its lock. */
  ghost predicate Ended(jobs: seq<Job>, before: Sys, after: Sys, t: nat)
    requires t < |jobs| && IsRunning(before, t)
  {
    && OnlyBy(jobs, before, after, t)
    && after.states[t] == Done(before.states[t].goal.1, before.states[t].at)
    && jobs[t].Id() in after.slots && after.slots[jobs[t].Id()] == before.states[t].goal.0 && jobs[t].Id() !in after.held
  }

  lemma Advanced(cfg: Config, jobs: seq<Job>, slots0: imap<string, Slot>, sys: Sys, t: nat) returns (sys': Sys)
    requires Shaped(jobs, slots0, sys) && Inv(cfg, jobs, slots0, sys) && Enabled(jobs, slots0, sys, Advance(t))
    ensures sys' == Next(cfg, jobs, slots0, sys, Advance(t)) && Shaped(jobs, slots0, sys') && Inv(cfg, jobs, slots0, sys')
    ensures IsRunning(sys', t) && OnlyBy(jobs, sys, sys', t) && Before(sys'.states[t].pc, sys.states[t].pc)
    ensures sys'.states[t].at == sys.states[t].at && sys'.states[t].goal == sys.states[t].goal
  {
    sys' := Next(cfg, jobs, slots0, sys, Advance(t));
    AdvanceKeeps(cfg, jobs, slots0, sys, t);
  }

  lemma Released(cfg: Config, jobs: seq<Job>, slots0: imap<string, Slot>, sys: Sys, t: nat) returns (sys': Sys)
    requires Shaped(jobs, slots0, sys) && Inv(cfg, jobs, slots0, sys) && Enabled(jobs, slots0, sys, Release(t, true))
    ensures sys' == Next(cfg, jobs, slots0, sys, Release(t, true)) && Ended(jobs, sys, sys', t)
  {
    FinishedAtGoal(cfg, jobs, slots0, sys, t);
    sys' := Next(cfg, jobs, slots0, sys, Release(t, true));
  }

  lemma StillEnded(jobs: seq<Job>, before: Sys, now: Sys, after: Sys, t: nat)
    requires t < |jobs| && IsRunning(before, t) && IsRunning(now, t) && OnlyBy(jobs, before, now, t)
    requires now.states[t].at == before.states[t].at && now.states[t].goal == before.states[t].goal
    requires Ended(jobs, now, after, t)
    ensures Ended(jobs, before, after, t)
  {
  }

  lemma OneMore(a: Action, rest: seq<Action>)
    requires AllFreed(rest) && (a.Release? ==> a.freed)
    ensures AllFreed([a] + rest)
  {
  }

  lemma AllMore(x: seq<Action>, y: seq<Action>)
    requires AllFreed(x) && AllFreed(y)
    ensures AllFreed(x + y)
  {
  }

  /** A task at work can run to its end undisturbed: it leaves and answers what it should, and gives its lock back. */
  lemma {:induction false} CanFinish(cfg: Config, jobs: seq<Job>, slots0: imap<string, Slot>, sys: Sys, t: nat)
    returns (more: seq<Action>, after: Sys)
    requires Shaped(jobs, slots0, sys) && Inv(cfg, jobs, slots0, sys) && t < |jobs| && IsRunning(sys, t)
    ensures AllFreed(more) && after == From(cfg, jobs, slots0, sys, more) && Ended(jobs, sys, after, t)
    decreases Phase(sys.states[t].pc), Left(sys.states[t].pc), Rest(sys.states[t].pc)
  {
    if sys.states[t].pc.Finished? {
      after := Released(cfg, jobs, slots0, sys, t);
      more := [Release(t, true)];
      FromStep(cfg, jobs, slots0, sys, Release(t, true), after, []);
    } else {
      var sys' := Advanced(cfg, jobs, slots0, sys, t);
      var rest, end := CanFinish(cfg, jobs, slots0, sys', t);
      more, after := [Advance(t)] + rest, end;
      OneMore(Advance(t), rest);
      FromStep(cfg, jobs, slots0, sys, Advance(t), sys', rest);
      StillEnded(jobs, sys, sys', after, t);
    }
  }

  /** The same at the end of any schedule. */
  lemma CanFinishAfter(cfg: Config, jobs: seq<Job>, slots0: imap<string, Slot>, schedule: seq<Action>, t: nat)
    returns (more: seq<Action>)
    requires WellPosed(jobs, slots0) && t < |jobs| && IsRunning(After(cfg, jobs, slots0, schedule), t)
    ensures AllFreed(more)
    ensures Ended(jobs, After(cfg, jobs, slots0, schedule), After(cfg, jobs, slots0, schedule + more), t)
  {
    AlwaysInv(cfg, jobs, slots0, schedule);
    var after;
    more, after := CanFinish(cfg, jobs, slots0, After(cfg, jobs, slots0, schedule), t);
    AfterThenFrom(cfg, jobs, slots0, schedule, more, schedule + more);
  }

  /** Whoever works on an upload can end that, and then nobody does. */
  lemma CanBeIdle(cfg: Config, jobs: seq<Job>, slots0: imap<string, Slot>, schedule: seq<Action>, id: string, t: nat)
    returns (more: seq<Action>, all: seq<Action>)
    requires WellPosed(jobs, slots0) && AllFreed(schedule) && t < |jobs|
    requires After(cfg, jobs, slots0, schedule).states[t].Waiting?
    ensures all == schedule + more && AllFreed(all)
    ensures var (sys, sys') := (After(cfg, jobs, slots0, schedule), After(cfg, jobs, slots0, all));
            Idle(jobs, sys', id) && sys'.log == sys.log && sys'.states[t].Waiting?
  {
    var sys := After(cfg, jobs, slots0, schedule);
    if Idle(jobs, sys, id) {
      more, all := [], schedule;
    } else {
      var u :| IsRunning(sys, u) && jobs[u].Id() == id;
      more := CanFinishAfter(cfg, jobs, slots0, schedule, u);
      all := schedule + more;
      AllMore(schedule, more);
      HeldIff(cfg, jobs, slots0, all);
    }
  }

  lemma Acquired(cfg: Config, jobs: seq<Job>, slots0: imap<string, Slot>, sys: Sys, t: nat) returns (sys': Sys)
    requires Shaped(jobs, slots0, sys) && Inv(cfg, jobs, slots0, sys) && Enabled(jobs, slots0, sys, Acquire(t))
    ensures sys' == Next(cfg, jobs, slots0, sys, Acquire(t)) && Shaped(jobs, slots0, sys') && Inv(cfg, jobs, slots0, sys')
    ensures IsRunning(sys', t) && sys'.states[t].at == |sys.log|
    ensures sys'.states[t].goal == BigStep(cfg, jobs[t], sys.slots[jobs[t].Id()])
  {
    sys' := Next(cfg, jobs, slots0, sys, Acquire(t));
    AcquireKeeps(cfg, jobs, slots0, sys, t);
  }

  lemma AcquireAndFinish(cfg: Config, jobs: seq<Job>, slots0: imap<string, Slot>, sys: Sys, t: nat)
    returns (more: seq<Action>, after: Sys)
    requires Shaped(jobs, slots0, sys) && Inv(cfg, jobs, slots0, sys) && Enabled(jobs, slots0, sys, Acquire(t))
    ensures AllFreed(more) && after == From(cfg, jobs, slots0, sys, more)
    ensures Served(cfg, jobs, after, t, sys.slots[jobs[t].Id()], |sys.log|)
  {
    var sys' := Acquired(cfg, jobs, slots0, sys, t);
    var rest, end := CanFinish(cfg, jobs, slots0, sys', t);
    more, after := [Acquire(t)] + rest, end;
    OneMore(Acquire(t), rest);
    FromStep(cfg, jobs, slots0, sys, Acquire(t), sys', rest);
  }

  /** The task is done, as the n-th, and has left and answered what its request comes to on the upload s. */
  ghost predicate Served(cfg: Config, jobs: seq<Job>, sys: Sys, t: nat, s: Slot, n: nat)
    requires t < |jobs| && jobs[t].Admitted()
  {
    var (s', answer) := BigStep(cfg, jobs[t], s);
    && t < |sys.states| && sys.states[t] == Done(answer, n)
    && jobs[t].Id() in sys.slots && sys.slots[jobs[t].Id()] == s'
  }

  /** A waiting task can be served next on its upload: it is answered what the serial run so far makes of its request. */
  lemma CanBeServed(cfg: Config, jobs: seq<Job>, slots0: imap<string, Slot>, schedule: seq<Action>, t: nat)
    returns (more: seq<Action>, all: seq<Action>)
    requires WellPosed(jobs, slots0) && AllFreed(schedule) && t < |jobs|
    requires After(cfg, jobs, slots0, schedule).states[t].Waiting?
    ensures all == schedule + more && AllFreed(all)
    ensures var log := After(cfg, jobs, slots0, schedule).log;
            Served(cfg, jobs, After(cfg, jobs, slots0, all), t, Serial(cfg, jobs, slots0, log)[jobs[t].Id()], |log|)
  {
    var before, free := CanBeIdle(cfg, jobs, slots0, schedule, jobs[t].Id(), t);
    var rest;
    rest, all := IdleIsServed(cfg, jobs, slots0, free, t, After(cfg, jobs, slots0, schedule).log);
    more := before + rest;
    Joined(schedule, before, rest, free, all);
  }

  lemma Joined(x: seq<Action>, y: seq<Action>, z: seq<Action>, xy: seq<Action>, all: seq<Action>)
    requires xy == x + y && all == xy + z
    ensures all == x + (y + z)
  {
  }

  lemma IdleIsServed(cfg: Config, jobs: seq<Job>, slots0: imap<string, Slot>, schedule: seq<Action>, t: nat, log: seq<nat>)
    returns (more: seq<Action>, all: seq<Action>)
    requires WellPosed(jobs, slots0) && AllFreed(schedule) && t < |jobs|
    requires After(cfg, jobs, slots0, schedule).states[t].Waiting?
    requires Idle(jobs, After(cfg, jobs, slots0, schedule), jobs[t].Id()) && log == After(cfg, jobs, slots0, schedule).log
    ensures all == schedule + more && AllFreed(all)
    ensures Served(cfg, jobs, After(cfg, jobs, slots0, all), t, Serial(cfg, jobs, slots0, log)[jobs[t].Id()], |log|)
  {
    Serializable(cfg, jobs, slots0, schedule);
    WaitingCanAcquire(cfg, jobs, slots0, schedule, t);
    AlwaysInv(cfg, jobs, slots0, schedule);
    var after;
    more, after := AcquireAndFinish(cfg, jobs, slots0, After(cfg, jobs, slots0, schedule), t);
    all := schedule + more;
    AllMore(schedule, more);
    AfterThenFrom(cfg, jobs, slots0, schedule, more, all);
  }
}
