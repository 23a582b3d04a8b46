/** What the lock guarantees: exclusion, equivalence to the serial run, and what a reader without the lock can see. */
module Concurrency {
  import opened Core
  import opened Slots
  import opened Protocol
  import opened Refinement
  import opened Lengths
  import opened Steps
  import opened Interleaving

  /** Under every schedule at most one task works on an upload, and it holds the upload's lock. */
  lemma MutualExclusion(cfg: Config, jobs: seq<Job>, slots0: imap<string, Slot>, schedule: seq<Action>, t: nat, t': nat)
    requires WellPosed(jobs, slots0)
    requires var sys := After(cfg, jobs, slots0, schedule); IsRunning(sys, t) && IsRunning(sys, t')
    ensures jobs[t].Id() in After(cfg, jobs, slots0, schedule).held
    ensures jobs[t].Id() == jobs[t'].Id() ==> t == t'
  {
    AlwaysInv(cfg, jobs, slots0, schedule);
  }

  // ----- equivalence to the serial run -----

  predicate LogOf(jobs: seq<Job>, log: seq<nat>) {
    forall i :: 0 <= i < |log| ==> log[i] < |jobs|
  }

  /** The upload of task t as the serial run of the first n logged tasks leaves it. */
  function SerialSlot(cfg: Config, jobs: seq<Job>, slots0: imap<string, Slot>, log: seq<nat>, n: nat, t: nat): Slot
    requires WellPosed(jobs, slots0) && LogOf(jobs, log) && n <= |log| && t < |jobs|
  {
    Serial(cfg, jobs, slots0, log[..n])[jobs[t].Id()]
  }

  ghost predicate HistoryOf(cfg: Config, jobs: seq<Job>, slots0: imap<string, Slot>, sys: Sys, t: nat)
    requires Shaped(jobs, slots0, sys) && t < |jobs|
  {
    match sys.states[t]
    case Running(pc, at, start, goal) =>
      && at < |sys.log| && sys.log[at] == t
      && start == SerialSlot(cfg, jobs, slots0, sys.log, at, t) && goal == BigStep(cfg, jobs[t], start)
      && (forall i :: at < i < |sys.log| ==> jobs[sys.log[i]].Id() != jobs[t].Id())
      && (forall i :: 0 <= i < |sys.log| && sys.log[i] == t ==> i == at)
    case Done(answer, at) =>
      && at < |sys.log| && sys.log[at] == t
      && answer == BigStep(cfg, jobs[t], SerialSlot(cfg, jobs, slots0, sys.log, at, t)).1
      && (forall i :: 0 <= i < |sys.log| && sys.log[i] == t ==> i == at)
    case _ => t !in sys.log
  }

  ghost predicate History(cfg: Config, jobs: seq<Job>, slots0: imap<string, Slot>, sys: Sys)
    requires Shaped(jobs, slots0, sys)
  {
    && sys.serial == Serial(cfg, jobs, slots0, sys.log)
    && (forall t :: 0 <= t < |jobs| ==> HistoryOf(cfg, jobs, slots0, sys, t))
  }

  lemma HistoryGrows(cfg: Config, jobs: seq<Job>, slots0: imap<string, Slot>, sys: Sys, sys': Sys, t: nat, added: nat)
    requires Shaped(jobs, slots0, sys) && Shaped(jobs, slots0, sys') && t < |jobs| && added < |jobs| && added != t
    requires sys'.log == sys.log + [added] && sys'.states[t] == sys.states[t]
    requires IsRunning(sys, t) ==> jobs[added].Id() != jobs[t].Id()
    requires HistoryOf(cfg, jobs, slots0, sys, t)
    ensures HistoryOf(cfg, jobs, slots0, sys', t)
  {
    forall n | 0 <= n <= |sys.log|
      ensures sys'.log[..n] == sys.log[..n]
    {
    }
  }

  lemma SerialNext(cfg: Config, jobs: seq<Job>, slots0: imap<string, Slot>, log: seq<nat>, t: nat)
    requires WellPosed(jobs, slots0) && t < |jobs| && LogOf(jobs, log)
    ensures Serial(cfg, jobs, slots0, log + [t])
         == var before := Serial(cfg, jobs, slots0, log);
            before[jobs[t].Id() := BigStep(cfg, jobs[t], before[jobs[t].Id()]).0]
  {
    assert (log + [t])[..|log|] == log;
  }

  /** The history of the task that acquires the lock begins with what the serial run has come to. */
  lemma HistoryBegins(cfg: Config, jobs: seq<Job>, slots0: imap<string, Slot>, sys: Sys, t: nat)
    requires Shaped(jobs, slots0, sys) && Enabled(jobs, slots0, sys, Acquire(t)) && t !in sys.log
    requires sys.serial == Serial(cfg, jobs, slots0, sys.log) && sys.slots[jobs[t].Id()] == sys.serial[jobs[t].Id()]
    ensures HistoryOf(cfg, jobs, slots0, Next(cfg, jobs, slots0, sys, Acquire(t)), t)
  {
    var sys' := Next(cfg, jobs, slots0, sys, Acquire(t));
    assert sys'.log[..|sys.log|] == sys.log;
    assert forall i :: 0 <= i < |sys.log| ==> sys.log[i] in sys.log;
  }

  lemma OthersHistory(cfg: Config, jobs: seq<Job>, slots0: imap<string, Slot>, sys: Sys, t: nat, t': nat)
    requires Shaped(jobs, slots0, sys) && Exclusive(jobs, sys) && Enabled(jobs, slots0, sys, Acquire(t))
    requires t' < |jobs| && t' != t && HistoryOf(cfg, jobs, slots0, sys, t')
    ensures HistoryOf(cfg, jobs, slots0, Next(cfg, jobs, slots0, sys, Acquire(t)), t')
  {
    HistoryGrows(cfg, jobs, slots0, sys, Next(cfg, jobs, slots0, sys, Acquire(t)), t', t);
  }

  /** An upload whose lock is free is what the serial run has made of it. */
  lemma FreeIsSerial(cfg: Config, jobs: seq<Job>, slots0: imap<string, Slot>, sys: Sys, t: nat)
    requires Shaped(jobs, slots0, sys) && Inv(cfg, jobs, slots0, sys) && Enabled(jobs, slots0, sys, Acquire(t))
    ensures Exclusive(jobs, sys) && sys.slots[jobs[t].Id()] == sys.serial[jobs[t].Id()]
  {
    assert Idle(jobs, sys, jobs[t].Id());
  }

  lemma AcquireHistory(cfg: Config, jobs: seq<Job>, slots0: imap<string, Slot>, sys: Sys, t: nat)
    requires Shaped(jobs, slots0, sys) && History(cfg, jobs, slots0, sys) && Enabled(jobs, slots0, sys, Acquire(t))
    requires Exclusive(jobs, sys) && sys.slots[jobs[t].Id()] == sys.serial[jobs[t].Id()]
    ensures History(cfg, jobs, slots0, Next(cfg, jobs, slots0, sys, Acquire(t)))
  {
    var sys' := Next(cfg, jobs, slots0, sys, Acquire(t));
    SerialNext(cfg, jobs, slots0, sys.log, t);
    assert HistoryOf(cfg, jobs, slots0, sys, t);
    HistoryBegins(cfg, jobs, slots0, sys, t);
    forall t' | 0 <= t' < |jobs|
      ensures HistoryOf(cfg, jobs, slots0, sys', t')
    {
      if t' != t {
        OthersHistory(cfg, jobs, slots0, sys, t, t');
      }
    }
  }

  /** Only an acquisition writes to the log; until then a task's history is about the same runs. */
  lemma SameLogHistory(cfg: Config, jobs: seq<Job>, slots0: imap<string, Slot>, sys: Sys, sys': Sys, t: nat)
    requires Shaped(jobs, slots0, sys) && Shaped(jobs, slots0, sys') && History(cfg, jobs, slots0, sys)
    requires sys'.log == sys.log && sys'.serial == sys.serial && t < |jobs|
    requires forall t' :: 0 <= t' < |jobs| && t' != t ==> sys'.states[t'] == sys.states[t']
    requires HistoryOf(cfg, jobs, slots0, sys', t)
    ensures History(cfg, jobs, slots0, sys')
  {
    forall t' | 0 <= t' < |jobs|
      ensures HistoryOf(cfg, jobs, slots0, sys', t')
    {
      assert HistoryOf(cfg, jobs, slots0, sys, t');
    }
  }

  lemma OwnHistory(cfg: Config, jobs: seq<Job>, slots0: imap<string, Slot>, sys: Sys, a: Action)
    requires Shaped(jobs, slots0, sys) && Enabled(jobs, slots0, sys, a) && !a.Acquire?
    requires HistoryOf(cfg, jobs, slots0, sys, a.t)
    requires a.Release? ==> sys.states[a.t].pc.answer == sys.states[a.t].goal.1
    ensures HistoryOf(cfg, jobs, slots0, Next(cfg, jobs, slots0, sys, a), a.t)
  {
  }

  lemma NextKeepsLog(cfg: Config, jobs: seq<Job>, slots0: imap<string, Slot>, sys: Sys, a: Action)
    requires Shaped(jobs, slots0, sys) && Enabled(jobs, slots0, sys, a) && !a.Acquire?
    ensures var sys' := Next(cfg, jobs, slots0, sys, a);
            && sys'.log == sys.log && sys'.serial == sys.serial
            && (forall t :: 0 <= t < |jobs| && t != a.t ==> sys'.states[t] == sys.states[t])
  {
  }

  lemma OtherHistory(cfg: Config, jobs: seq<Job>, slots0: imap<string, Slot>, sys: Sys, a: Action)
    requires Shaped(jobs, slots0, sys) && Inv(cfg, jobs, slots0, sys) && History(cfg, jobs, slots0, sys)
    requires Enabled(jobs, slots0, sys, a) && !a.Acquire?
    ensures History(cfg, jobs, slots0, Next(cfg, jobs, slots0, sys, a))
  {
    assert HistoryOf(cfg, jobs, slots0, sys, a.t);
    if a.Release? {
      FinishedAtGoal(cfg, jobs, slots0, sys, a.t);
    }
    OwnHistory(cfg, jobs, slots0, sys, a);
    NextKeepsLog(cfg, jobs, slots0, sys, a);
    SameLogHistory(cfg, jobs, slots0, sys, Next(cfg, jobs, slots0, sys, a), a.t);
  }

  lemma FinishedAtGoal(cfg: Config, jobs: seq<Job>, slots0: imap<string, Slot>, sys: Sys, t: nat)
    requires Shaped(jobs, slots0, sys) && Inv(cfg, jobs, slots0, sys) && IsRunning(sys, t) && sys.states[t].pc.Finished?
    ensures (sys.slots[jobs[t].Id()], sys.states[t].pc.answer) == sys.states[t].goal
  {
    assert OnCourse(cfg, jobs, slots0, sys, t);
  }

  lemma {:induction false} AlwaysHistory(cfg: Config, jobs: seq<Job>, slots0: imap<string, Slot>, schedule: seq<Action>)
    requires WellPosed(jobs, slots0)
    ensures History(cfg, jobs, slots0, After(cfg, jobs, slots0, schedule))
  {
    if schedule != [] {
      var before := schedule[..|schedule| - 1];
      AlwaysHistory(cfg, jobs, slots0, before);
      AlwaysInv(cfg, jobs, slots0, before);
      var sys, a := After(cfg, jobs, slots0, before), schedule[|schedule| - 1];
      if Enabled(jobs, slots0, sys, a) {
        if a.Acquire? {
          FreeIsSerial(cfg, jobs, slots0, sys, a.t);
          AcquireHistory(cfg, jobs, slots0, sys, a.t);
        } else {
          OtherHistory(cfg, jobs, slots0, sys, a);
        }
      }
    }
  }

  /**
   * However the tasks were interleaved, an upload nobody is working on is what the serial run in the order of the
   * lock acquisitions makes of it, and every answer given is the answer of that run.
   */
  lemma Serializable(cfg: Config, jobs: seq<Job>, slots0: imap<string, Slot>, schedule: seq<Action>)
    requires WellPosed(jobs, slots0)
    ensures var sys := After(cfg, jobs, slots0, schedule);
            && (forall id :: id in slots0 && Idle(jobs, sys, id) ==>
                  sys.slots[id] == Serial(cfg, jobs, slots0, sys.log)[id])
            && (forall t :: 0 <= t < |jobs| && sys.states[t].Done? ==>
                  && sys.states[t].at < |sys.log| && sys.log[sys.states[t].at] == t
                  && sys.states[t].answer
                  == BigStep(cfg, jobs[t], SerialSlot(cfg, jobs, slots0, sys.log, sys.states[t].at, t)).1)
  {
    AlwaysInv(cfg, jobs, slots0, schedule);
    AlwaysHistory(cfg, jobs, slots0, schedule);
    var sys := After(cfg, jobs, slots0, schedule);
    forall t | 0 <= t < |jobs| && sys.states[t].Done?
      ensures HistoryOf(cfg, jobs, slots0, sys, t)
    {
    }
  }

  // ----- HEAD, which takes no lock -----

  lemma {:induction false} SerialUnchanged(cfg: Config, jobs: seq<Job>, slots0: imap<string, Slot>, log: seq<nat>,
                                          i: nat, n: nat, id: string)
    requires WellPosed(jobs, slots0) && LogOf(jobs, log) && i <= n <= |log| && id in slots0
    requires forall k :: i <= k < n ==> jobs[log[k]].Id() != id
    ensures Serial(cfg, jobs, slots0, log[..n])[id] == Serial(cfg, jobs, slots0, log[..i])[id]
    decreases n - i
  {
    if i < n {
      SerialUnchanged(cfg, jobs, slots0, log, i, n - 1, id);
      assert log[..n][..n - 1] == log[..n - 1];
    }
  }

  /** Later than every request to this upload that has been answered. */
  ghost predicate Recent(jobs: seq<Job>, sys: Sys, id: string, n: int)
    requires |sys.states| == |jobs|
  {
    forall t :: 0 <= t < |jobs| && sys.states[t].Done? && jobs[t].Id() == id ==> sys.states[t].at < n
  }

  ghost function SerialAt(cfg: Config, jobs: seq<Job>, slots0: imap<string, Slot>, sys: Sys, id: string, n: nat): Slot
    requires Shaped(jobs, slots0, sys) && id in slots0 && n <= |sys.log|
  {
    Serial(cfg, jobs, slots0, sys.log[..n])[id]
  }

  /** Offset and length are those after a prefix of the serial run that has every answered request in it. */
  ghost predicate SeesPrefix(cfg: Config, jobs: seq<Job>, slots0: imap<string, Slot>, sys: Sys, id: string, n: int)
    requires Shaped(jobs, slots0, sys) && id in slots0
  {
    0 <= n <= |sys.log| && Recent(jobs, sys, id, n) && Seen(sys.slots[id]) == Seen(SerialAt(cfg, jobs, slots0, sys, id, n))
  }

  function SeenOffset(s: Slot): Option<U64> {
    match Seen(s) case Some(pair) => Some(pair.0) case None => None
  }

  ghost predicate SeesOffset(cfg: Config, jobs: seq<Job>, slots0: imap<string, Slot>, sys: Sys, id: string, n: int)
    requires Shaped(jobs, slots0, sys) && id in slots0
  {
    && 0 <= n <= |sys.log| && Recent(jobs, sys, id, n)
    && SeenOffset(sys.slots[id]) == SeenOffset(SerialAt(cfg, jobs, slots0, sys, id, n))
  }

  lemma RecentInFlight(cfg: Config, jobs: seq<Job>, slots0: imap<string, Slot>, sys: Sys, t: nat)
    requires Shaped(jobs, slots0, sys) && History(cfg, jobs, slots0, sys) && IsRunning(sys, t)
    ensures Recent(jobs, sys, jobs[t].Id(), sys.states[t].at) && Recent(jobs, sys, jobs[t].Id(), |sys.log|)
  {
    assert HistoryOf(cfg, jobs, slots0, sys, t);
    forall t' | 0 <= t' < |jobs| && sys.states[t'].Done? && jobs[t'].Id() == jobs[t].Id()
      ensures sys.states[t'].at < sys.states[t].at
    {
      assert HistoryOf(cfg, jobs, slots0, sys, t');
    }
  }

  /** What the serial run has made of the upload of a running task: what the task found, then what it will leave. */
  lemma PrefixesInFlight(cfg: Config, jobs: seq<Job>, slots0: imap<string, Slot>, sys: Sys, t: nat, n: nat)
    requires Shaped(jobs, slots0, sys) && History(cfg, jobs, slots0, sys) && IsRunning(sys, t)
    requires OnCourse(cfg, jobs, slots0, sys, t) && sys.states[t].at <= n <= |sys.log|
    ensures SerialAt(cfg, jobs, slots0, sys, jobs[t].Id(), n)
         == if n == sys.states[t].at then sys.states[t].start else sys.states[t].goal.0
  {
    assert HistoryOf(cfg, jobs, slots0, sys, t);
    if n > sys.states[t].at {
      SerialUnchanged(cfg, jobs, slots0, sys.log, n, |sys.log|, jobs[t].Id());
      assert sys.log[..|sys.log|] == sys.log;
    }
  }

  /** Before a running task there are only answered ones: a recent prefix ends no earlier than what the task found. */
  lemma RecentIsStart(cfg: Config, jobs: seq<Job>, slots0: imap<string, Slot>, sys: Sys, t: nat, n: nat)
    requires Shaped(jobs, slots0, sys) && Exclusive(jobs, sys) && History(cfg, jobs, slots0, sys) && IsRunning(sys, t)
    requires n <= sys.states[t].at && Recent(jobs, sys, jobs[t].Id(), n)
    ensures n <= |sys.log| && SerialAt(cfg, jobs, slots0, sys, jobs[t].Id(), n) == sys.states[t].start
  {
    var id, at := jobs[t].Id(), sys.states[t].at;
    assert HistoryOf(cfg, jobs, slots0, sys, t);
    forall i | n <= i < at
      ensures jobs[sys.log[i]].Id() != id
    {
      var t' := sys.log[i];
      assert HistoryOf(cfg, jobs, slots0, sys, t') && t' in sys.log;
      if jobs[t'].Id() == id && sys.states[t'].Running? {
        assert IsRunning(sys, t');
      }
    }
    SerialUnchanged(cfg, jobs, slots0, sys.log, n, at, id);
  }

  /** The task has declared the length and is going to record a new offset, but has not done so yet. */
  predicate HalfDeclared(cfg: Config, job: Job, start: Slot, s: Slot, pc: Pc) {
    && Prepared(pc) && job.PatchJob? && job.patch.offset.Some? && start.info.Some? && s.info.Some?
    && start.info.value.size.None? && s.info.value.size.Some?
    && RefAccepts(cfg, start.info.value, job.patch) && job.patch.body.bytes != []
  }

  /** A task is at work on the upload and its record is unreadable or halfway between two states. */
  ghost predicate Unsettled(cfg: Config, jobs: seq<Job>, sys: Sys, id: string, t: nat)
    requires |sys.states| == |jobs|
  {
    && IsRunning(sys, t) && jobs[t].Id() == id && id in sys.slots
    && UnsettledAt(cfg, jobs[t], sys.states[t].start, sys.slots[id], sys.states[t].pc)
  }

  /** While a task is under way its upload shows what the task found or what it will leave, or is unsettled. */
  lemma SeenInFlight(cfg: Config, job: Job, start: Slot, s: Slot, pc: Pc)
    requires job.Admitted() && EarlyInv(cfg, job, start, s, pc) && !Torn(pc) && !HalfDeclared(cfg, job, start, s, pc)
    requires Early(pc) || s.info == BigStep(cfg, job, start).0.info
    ensures Seen(s) == Seen(start) || Seen(s) == Seen(BigStep(cfg, job, start).0)
  {
    if Prepared(pc) && job.PatchJob? {
      PatchRecord(cfg, Disk(start), job.patch);
    }
  }

  lemma OffsetInFlight(cfg: Config, job: Job, start: Slot, s: Slot, pc: Pc)
    requires job.Admitted() && EarlyInv(cfg, job, start, s, pc)
    requires Early(pc) || s.info == BigStep(cfg, job, start).0.info
    ensures Torn(pc) ==> SeenOffset(s).None? && SeenOffset(start).Some?
    ensures !Torn(pc) ==> SeenOffset(s) == SeenOffset(start) || SeenOffset(s) == SeenOffset(BigStep(cfg, job, start).0)
  {
  }

  lemma OutcomeInFlight(cfg: Config, jobs: seq<Job>, slots0: imap<string, Slot>, sys: Sys, t: nat)
    requires Shaped(jobs, slots0, sys) && IsRunning(sys, t) && OnCourse(cfg, jobs, slots0, sys, t)
    ensures Early(sys.states[t].pc) || sys.slots[jobs[t].Id()].info == sys.states[t].goal.0.info
  {
    if !Early(sys.states[t].pc) {
      LateKeepsRecord(cfg, jobs[t], sys.slots[jobs[t].Id()], sys.states[t].pc);
    }
  }

  predicate UnsettledAt(cfg: Config, job: Job, start: Slot, s: Slot, pc: Pc) {
    Torn(pc) || HalfDeclared(cfg, job, start, s, pc)
  }

  lemma UnlikeEarlier(cfg: Config, job: Job, a: Slot, start: Slot, s: Slot, pc: Pc)
    requires EarlyInv(cfg, job, start, s, pc) && UnsettledAt(cfg, job, start, s, pc) && LaterSlot(cfg, a, start)
    ensures Seen(s) != Seen(a) && (Torn(pc) ==> SeenOffset(s) != SeenOffset(a))
  {
  }

  lemma UnlikeOutcome(cfg: Config, job: Job, start: Slot, s: Slot, pc: Pc)
    requires EarlyInv(cfg, job, start, s, pc) && UnsettledAt(cfg, job, start, s, pc)
    requires job.Admitted() && job.PatchJob?
    ensures var outcome := BigStep(cfg, job, start).0;
            Seen(s) != Seen(outcome) && (Torn(pc) ==> SeenOffset(s) != SeenOffset(outcome))
  {
    PatchMovesOffset(cfg, job.patch, start);
  }

  /** An unsettled record is like no record of the serial run. */
  lemma UnsettledIsNew(cfg: Config, jobs: seq<Job>, slots0: imap<string, Slot>, sys: Sys, t: nat, n: nat)
    requires Shaped(jobs, slots0, sys) && History(cfg, jobs, slots0, sys) && n <= |sys.log|
    requires IsRunning(sys, t) && OnCourse(cfg, jobs, slots0, sys, t) && Unsettled(cfg, jobs, sys, jobs[t].Id(), t)
    ensures var (s, past) := (sys.slots[jobs[t].Id()], SerialAt(cfg, jobs, slots0, sys, jobs[t].Id(), n));
            Seen(s) != Seen(past) && (Torn(sys.states[t].pc) ==> SeenOffset(s) != SeenOffset(past))
  {
    assert HistoryOf(cfg, jobs, slots0, sys, t);
    var (start, at, pc, s) := (sys.states[t].start, sys.states[t].at, sys.states[t].pc, sys.slots[jobs[t].Id()]);
    if n <= at {
      RecordsLater(cfg, jobs, slots0, sys.log, n, at, t);
      UnlikeEarlier(cfg, jobs[t], SerialAt(cfg, jobs, slots0, sys, jobs[t].Id(), n), start, s, pc);
    } else {
      PrefixesInFlight(cfg, jobs, slots0, sys, t, n);
      UnlikeOutcome(cfg, jobs[t], start, s, pc);
    }
  }

  lemma RunningSeesPrefix(cfg: Config, jobs: seq<Job>, slots0: imap<string, Slot>, sys: Sys, t: nat) returns (n: nat)
    requires Shaped(jobs, slots0, sys) && History(cfg, jobs, slots0, sys) && IsRunning(sys, t)
    requires OnCourse(cfg, jobs, slots0, sys, t) && !Unsettled(cfg, jobs, sys, jobs[t].Id(), t)
    ensures SeesPrefix(cfg, jobs, slots0, sys, jobs[t].Id(), n)
  {
    assert HistoryOf(cfg, jobs, slots0, sys, t);
    var (start, s) := (sys.states[t].start, sys.slots[jobs[t].Id()]);
    RecentInFlight(cfg, jobs, slots0, sys, t);
    OutcomeInFlight(cfg, jobs, slots0, sys, t);
    SeenInFlight(cfg, jobs[t], start, s, sys.states[t].pc);
    n := if Seen(s) == Seen(start) then sys.states[t].at else |sys.log|;
    PrefixesInFlight(cfg, jobs, slots0, sys, t, n);
  }

  lemma SettledSeesPrefix(cfg: Config, jobs: seq<Job>, slots0: imap<string, Slot>, sys: Sys, id: string) returns (n: nat)
    requires Shaped(jobs, slots0, sys) && id in slots0
    requires Inv(cfg, jobs, slots0, sys) && History(cfg, jobs, slots0, sys)
    requires !exists t: nat :: Unsettled(cfg, jobs, sys, id, t)
    ensures SeesPrefix(cfg, jobs, slots0, sys, id, n)
  {
    if !Idle(jobs, sys, id) {
      var t: nat :| IsRunning(sys, t) && jobs[t].Id() == id;
      n := RunningSeesPrefix(cfg, jobs, slots0, sys, t);
    } else {
      n := |sys.log|;
      assert sys.log[..|sys.log|] == sys.log;
      RecentWhenIdle(cfg, jobs, slots0, sys, id);
    }
  }

  lemma RecentWhenIdle(cfg: Config, jobs: seq<Job>, slots0: imap<string, Slot>, sys: Sys, id: string)
    requires Shaped(jobs, slots0, sys) && History(cfg, jobs, slots0, sys)
    ensures Recent(jobs, sys, id, |sys.log|)
  {
    forall t | 0 <= t < |jobs| && sys.states[t].Done?
      ensures sys.states[t].at < |sys.log|
    {
      assert HistoryOf(cfg, jobs, slots0, sys, t);
    }
  }

  /**
   * A HEAD at any moment, without the lock, reports offset and length as they are after some prefix of the serial run
   * that includes every answered request, except exactly while a task is writing the record, or has declared a length
   * and not yet recorded the offset that comes with it.
   */
  lemma HeadSeesPrefixIff(cfg: Config, jobs: seq<Job>, slots0: imap<string, Slot>, schedule: seq<Action>, sys: Sys, id: string)
    requires WellPosed(jobs, slots0) && id in slots0 && sys == After(cfg, jobs, slots0, schedule)
    ensures (exists n :: SeesPrefix(cfg, jobs, slots0, sys, id, n)) <==> !exists t: nat :: Unsettled(cfg, jobs, sys, id, t)
  {
    AlwaysInv(cfg, jobs, slots0, schedule);
    AlwaysHistory(cfg, jobs, slots0, schedule);
    PrefixIff(cfg, jobs, slots0, sys, id);
  }

  lemma PrefixIff(cfg: Config, jobs: seq<Job>, slots0: imap<string, Slot>, sys: Sys, id: string)
    requires Shaped(jobs, slots0, sys) && id in slots0
    requires Inv(cfg, jobs, slots0, sys) && History(cfg, jobs, slots0, sys)
    ensures (exists n :: SeesPrefix(cfg, jobs, slots0, sys, id, n)) <==> !exists t: nat :: Unsettled(cfg, jobs, sys, id, t)
  {
    if t: nat :| Unsettled(cfg, jobs, sys, id, t) {
      UnsettledHidesPrefix(cfg, jobs, slots0, sys, id, t);
    } else {
      var n := SettledSeesPrefix(cfg, jobs, slots0, sys, id);
    }
  }

  lemma UnsettledHidesPrefix(cfg: Config, jobs: seq<Job>, slots0: imap<string, Slot>, sys: Sys, id: string, t: nat)
    requires Shaped(jobs, slots0, sys) && id in slots0 && Unsettled(cfg, jobs, sys, id, t)
    requires Inv(cfg, jobs, slots0, sys) && History(cfg, jobs, slots0, sys)
    ensures forall n :: !SeesPrefix(cfg, jobs, slots0, sys, id, n)
  {
    forall n
      ensures !SeesPrefix(cfg, jobs, slots0, sys, id, n)
    {
      if 0 <= n <= |sys.log| {
        UnsettledIsNew(cfg, jobs, slots0, sys, t, n);
      }
    }
  }

  ghost predicate BeingWritten(jobs: seq<Job>, sys: Sys, id: string, t: nat)
    requires |sys.states| == |jobs|
  {
    IsRunning(sys, t) && jobs[t].Id() == id && Torn(sys.states[t].pc)
  }

  lemma RunningSeesOffset(cfg: Config, jobs: seq<Job>, slots0: imap<string, Slot>, sys: Sys, t: nat) returns (n: nat)
    requires Shaped(jobs, slots0, sys) && History(cfg, jobs, slots0, sys) && IsRunning(sys, t)
    requires OnCourse(cfg, jobs, slots0, sys, t) && !Torn(sys.states[t].pc)
    ensures SeesOffset(cfg, jobs, slots0, sys, jobs[t].Id(), n)
  {
    assert HistoryOf(cfg, jobs, slots0, sys, t);
    var (start, s) := (sys.states[t].start, sys.slots[jobs[t].Id()]);
    RecentInFlight(cfg, jobs, slots0, sys, t);
    OutcomeInFlight(cfg, jobs, slots0, sys, t);
    OffsetInFlight(cfg, jobs[t], start, s, sys.states[t].pc);
    n := if SeenOffset(s) == SeenOffset(start) then sys.states[t].at else |sys.log|;
    PrefixesInFlight(cfg, jobs, slots0, sys, t, n);
  }

  lemma ReadableSeesOffset(cfg: Config, jobs: seq<Job>, slots0: imap<string, Slot>, sys: Sys, id: string) returns (n: nat)
    requires Shaped(jobs, slots0, sys) && id in slots0
    requires Inv(cfg, jobs, slots0, sys) && History(cfg, jobs, slots0, sys)
    requires !exists t: nat :: BeingWritten(jobs, sys, id, t)
    ensures SeesOffset(cfg, jobs, slots0, sys, id, n)
  {
    if !Idle(jobs, sys, id) {
      var t: nat :| IsRunning(sys, t) && jobs[t].Id() == id;
      assert !BeingWritten(jobs, sys, id, t);
      n := RunningSeesOffset(cfg, jobs, slots0, sys, t);
    } else {
      n := |sys.log|;
      assert sys.log[..|sys.log|] == sys.log;
      RecentWhenIdle(cfg, jobs, slots0, sys, id);
    }
  }

  lemma WrittenHidesOffset(cfg: Config, jobs: seq<Job>, slots0: imap<string, Slot>, sys: Sys, id: string, t: nat)
    requires Shaped(jobs, slots0, sys) && id in slots0 && BeingWritten(jobs, sys, id, t)
    requires Inv(cfg, jobs, slots0, sys) && History(cfg, jobs, slots0, sys)
    ensures forall n :: !SeesOffset(cfg, jobs, slots0, sys, id, n)
  {
    forall n
      ensures !SeesOffset(cfg, jobs, slots0, sys, id, n)
    {
      if 0 <= n <= |sys.log| {
        UnsettledIsNew(cfg, jobs, slots0, sys, t, n);
      }
    }
  }

  lemma OffsetIff(cfg: Config, jobs: seq<Job>, slots0: imap<string, Slot>, sys: Sys, id: string)
    requires Shaped(jobs, slots0, sys) && id in slots0
    requires Inv(cfg, jobs, slots0, sys) && History(cfg, jobs, slots0, sys)
    ensures (exists n :: SeesOffset(cfg, jobs, slots0, sys, id, n)) <==> !exists t: nat :: BeingWritten(jobs, sys, id, t)
  {
    if t: nat :| BeingWritten(jobs, sys, id, t) {
      WrittenHidesOffset(cfg, jobs, slots0, sys, id, t);
    } else {
      var n := ReadableSeesOffset(cfg, jobs, slots0, sys, id);
    }
  }

  /** The offset alone is that of such a prefix unless the record is being written at that moment. */
  lemma HeadOffsetIff(cfg: Config, jobs: seq<Job>, slots0: imap<string, Slot>, schedule: seq<Action>, sys: Sys, id: string)
    requires WellPosed(jobs, slots0) && id in slots0 && sys == After(cfg, jobs, slots0, schedule)
    ensures (exists n :: SeesOffset(cfg, jobs, slots0, sys, id, n)) <==> !exists t: nat :: BeingWritten(jobs, sys, id, t)
  {
    AlwaysInv(cfg, jobs, slots0, schedule);
    AlwaysHistory(cfg, jobs, slots0, schedule);
    OffsetIff(cfg, jobs, slots0, sys, id);
  }

  // ----- one offset, one chunk -----

  /** In the serial run, the PATCH logged as number i is accepted. */
  predicate AcceptedAt(cfg: Config, jobs: seq<Job>, slots0: imap<string, Slot>, log: seq<nat>, i: nat)
    requires WellPosed(jobs, slots0) && LogOf(jobs, log) && i < |log|
  {
    var (job, s) := (jobs[log[i]], SerialSlot(cfg, jobs, slots0, log, i, log[i]));
    job.PatchJob? && s.info.Some? && RefAccepts(cfg, s.info.value, job.patch)
  }

  /** A PATCH moves the offset by the length of its body if it is accepted, and not at all otherwise. */
  lemma PatchMovesOffset(cfg: Config, req: PatchRequest, s: Slot)
    requires req.offset.Some? && s.info.Some?
    ensures var s' := BigStep(cfg, PatchJob(req), s).0;
            && s'.info.Some?
            && s'.info.value.offset
            == s.info.value.offset + (if RefAccepts(cfg, s.info.value, req) then |req.body.bytes| else 0)
  {
    PatchRecord(cfg, Disk(s), req);
  }

  /** From one slot of an upload to a later one: if it is still there, its record has only moved on. */
  predicate LaterSlot(cfg: Config, a: Slot, b: Slot) {
    b.info.Some? ==> a.info.Some? && Later(cfg, a.info.value, b.info.value)
  }

  lemma BigStepLater(cfg: Config, job: Job, s: Slot)
    requires job.Admitted()
    ensures LaterSlot(cfg, s, BigStep(cfg, job, s).0)
  {
    if job.PatchJob? && s.info.Some? {
      PatchIsLater(cfg, Disk(s), job.patch);
    }
  }

  /** In the serial run offset and length of an upload are never taken back while the upload is there. */
  lemma {:induction false} RecordsLater(cfg: Config, jobs: seq<Job>, slots0: imap<string, Slot>, log: seq<nat>, i: nat, n: nat, t: nat)
    requires WellPosed(jobs, slots0) && LogOf(jobs, log) && i <= n <= |log| && t < |jobs|
    ensures LaterSlot(cfg, SerialSlot(cfg, jobs, slots0, log, i, t), SerialSlot(cfg, jobs, slots0, log, n, t))
    decreases n - i
  {
    if i < n {
      RecordsLater(cfg, jobs, slots0, log, i, n - 1, t);
      assert log[..n][..n - 1] == log[..n - 1];
      BigStepLater(cfg, jobs[log[n - 1]], SerialSlot(cfg, jobs, slots0, log, n - 1, log[n - 1]));
    }
  }

  /** After an accepted PATCH the upload stands at the end of its chunk. */
  lemma AcceptedEnds(cfg: Config, jobs: seq<Job>, slots0: imap<string, Slot>, log: seq<nat>, i: nat, t: nat)
    requires WellPosed(jobs, slots0) && LogOf(jobs, log) && i < |log| && t < |jobs|
    requires AcceptedAt(cfg, jobs, slots0, log, i) && jobs[t].Id() == jobs[log[i]].Id()
    ensures var s := SerialSlot(cfg, jobs, slots0, log, i + 1, t);
            var req := jobs[log[i]].patch;
            s.info.Some? && s.info.value.offset == req.offset.value + |req.body.bytes|
  {
    PatchMovesOffset(cfg, jobs[log[i]].patch, SerialSlot(cfg, jobs, slots0, log, i, log[i]));
    assert log[..i + 1][..i] == log[..i];
  }

  /** Two nonempty PATCHes that claim the same offset of the same upload are never both accepted. */
  lemma OffsetAcceptedOnce(cfg: Config, jobs: seq<Job>, slots0: imap<string, Slot>, schedule: seq<Action>, i: nat, j: nat)
    requires WellPosed(jobs, slots0)
    requires i < j < |After(cfg, jobs, slots0, schedule).log|
    requires var log := After(cfg, jobs, slots0, schedule).log;
             && jobs[log[i]].PatchJob? && jobs[log[j]].PatchJob? && jobs[log[i]].Id() == jobs[log[j]].Id()
             && jobs[log[i]].patch.offset == jobs[log[j]].patch.offset
             && AcceptedAt(cfg, jobs, slots0, log, i) && AcceptedAt(cfg, jobs, slots0, log, j)
    ensures jobs[After(cfg, jobs, slots0, schedule).log[i]].patch.body.bytes == []
  {
    var log := After(cfg, jobs, slots0, schedule).log;
    AcceptedEnds(cfg, jobs, slots0, log, i, log[j]);
    RecordsLater(cfg, jobs, slots0, log, i + 1, j, log[j]);
    assert SerialSlot(cfg, jobs, slots0, log, j, log[j]).info.value.offset == jobs[log[j]].patch.offset.value;
  }
}
