/**
 * Any number of requests on any number of uploads, interleaved file access by file access under the in-memory lock.
 * The lock is a shared set of held IDs; a dropped lock may fail to leave the set, which only keeps others out longer.
 */
module Interleaving {
  import opened Core
  import opened Slots
  import opened Protocol
  import opened Refinement
  import opened Steps
  import opened Locks

  /**
   * What a task has come to. The fields after the program counter are a record of the moment the lock was acquired:
   * as which number, what the upload was then, and what the request should make of it.
   */
  datatype TaskState =
    | Waiting
    | Running(pc: Pc, at: nat, start: Slot, goal: (Slot, Response))
    | Done(answer: Response, at: nat)
    | GaveUp

  /**
   * `log` lists the tasks in the order in which they acquired their locks; `serial` is what the uploads would be if
   * each of them had run as a whole at that moment. Neither influences what a task does.
   */
  datatype Sys = Sys(
    slots: imap<string, Slot>,
    held: set<string>,
    states: seq<TaskState>,
    log: seq<nat>,
    serial: imap<string, Slot>)

  datatype Action = Acquire(t: nat) | TimeOut(t: nat) | Advance(t: nat) | Release(t: nat, freed: bool)

  predicate WellPosed(jobs: seq<Job>, slots: imap<string, Slot>) {
    forall t :: 0 <= t < |jobs| ==> jobs[t].Admitted() && jobs[t].Id() in slots
  }

  ghost predicate Shaped(jobs: seq<Job>, slots0: imap<string, Slot>, sys: Sys) {
    && WellPosed(jobs, slots0) && |sys.states| == |jobs|
    && (forall id :: id in slots0 <==> id in sys.slots)
    && (forall id :: id in slots0 <==> id in sys.serial)
    && (forall i :: 0 <= i < |sys.log| ==> sys.log[i] < |jobs|)
  }

  ghost predicate Enabled(jobs: seq<Job>, slots0: imap<string, Slot>, sys: Sys, a: Action)
    requires Shaped(jobs, slots0, sys)
  {
    && a.t < |jobs|
    && match a
       case Acquire(t) => sys.states[t].Waiting? && Free(sys.held, jobs[t].Id())
       case TimeOut(t) => sys.states[t].Waiting?
       case Advance(t) => sys.states[t].Running? && !sys.states[t].pc.Finished?
       case Release(t, _) => sys.states[t].Running? && sys.states[t].pc.Finished?
  }

  ghost function Next(cfg: Config, jobs: seq<Job>, slots0: imap<string, Slot>, sys: Sys, a: Action): (sys': Sys)
    requires Shaped(jobs, slots0, sys) && Enabled(jobs, slots0, sys, a)
    ensures Shaped(jobs, slots0, sys')
  {
    var id := jobs[a.t].Id();
    match a
    case Acquire(t) =>
      var goal := BigStep(cfg, jobs[t], sys.slots[id]);
      Sys(sys.slots, Taken(sys.held, id), sys.states[t := Running(Begin, |sys.log|, sys.slots[id], goal)],
          sys.log + [t], sys.serial[id := goal.0])
    case TimeOut(t) => sys.(states := sys.states[t := GaveUp])
    case Advance(t) =>
      var (s', pc') := LocalStep(cfg, jobs[t], sys.slots[id], sys.states[t].pc);
      sys.(slots := sys.slots[id := s'], states := sys.states[t := sys.states[t].(pc := pc')])
    case Release(t, freed) =>
      sys.(held := GivenBack(sys.held, id, freed),
           states := sys.states[t := Done(sys.states[t].pc.answer, sys.states[t].at)])
  }

  ghost function Initial(jobs: seq<Job>, slots0: imap<string, Slot>): Sys {
    Sys(slots0, {}, seq(|jobs|, _ => Waiting), [], slots0)
  }

  /** The system after a schedule; an action that is not possible when its turn comes does nothing. */
  ghost function After(cfg: Config, jobs: seq<Job>, slots0: imap<string, Slot>, schedule: seq<Action>): (sys: Sys)
    requires WellPosed(jobs, slots0)
    ensures Shaped(jobs, slots0, sys)
  {
    if schedule == [] then Initial(jobs, slots0)
    else
      var sys := After(cfg, jobs, slots0, schedule[..|schedule| - 1]);
      var a := schedule[|schedule| - 1];
      if Enabled(jobs, slots0, sys, a) then Next(cfg, jobs, slots0, sys, a) else sys
  }

  /** The same jobs run one after another, each as a whole, in the order of the log. */
  function Serial(cfg: Config, jobs: seq<Job>, slots0: imap<string, Slot>, log: seq<nat>): (r: imap<string, Slot>)
    requires WellPosed(jobs, slots0) && forall i :: 0 <= i < |log| ==> log[i] < |jobs|
    ensures forall id :: id in r <==> id in slots0
  {
    if log == [] then slots0
    else
      var before := Serial(cfg, jobs, slots0, log[..|log| - 1]);
      var job := jobs[log[|log| - 1]];
      before[job.Id() := BigStep(cfg, job, before[job.Id()]).0]
  }

  // ----- what an unlocked reader can see of an upload -----

  /** What HEAD reports: the offset, and the length if it is known. */
  function Seen(s: Slot): Option<(U64, Option<U64>)> {
    match s.info case Some(info) => Some((info.offset, info.size)) case None => None
  }

  /** The record is being written and cannot be read. */
  predicate Torn(pc: Pc) {
    pc.Redeclaring? || pc.Rewriting?
  }

  /** The record is still what it was when the task got the lock. */
  predicate Untouched(pc: Pc) {
    pc.Begin? || pc.Opened? || pc.Gated? || pc.Declaring? || pc.DataGone?
  }

  /** A length may have been declared; the offset is still the old one. */
  predicate Prepared(pc: Pc) {
    pc.LengthKnown? || pc.Verified? || pc.Planned? || pc.Counted? || pc.Filling? || pc.Stored?
  }

  predicate Early(pc: Pc) {
    Torn(pc) || Untouched(pc) || Prepared(pc)
  }

  function DeclaredInfo(cfg: Config, job: Job, start: Slot): Option<UploadInfo> {
    if job.PatchJob? && start.info.Some? then Some(RefDeclare(cfg, start.info.value, job.patch.length)) else start.info
  }

  /** What a task that has not recorded its outcome yet has made of the record it found. */
  predicate EarlyInv(cfg: Config, job: Job, start: Slot, s: Slot, pc: Pc) {
    && (Untouched(pc) ==> s.info == start.info)
    && (Prepared(pc) ==> s.info == DeclaredInfo(cfg, job, start))
    && (Torn(pc) ==> s.info.None? && start.info.Some? && job.PatchJob?)
    && (pc.Gated? ==> job.PatchJob? && start.info == Some(pc.info) && LengthToDeclare(cfg, pc.info, job.patch.length).Ok?
                      && LengthToDeclare(cfg, pc.info, job.patch.length).value.Some?)
    && (pc.Declaring? ==> start.info.Some? && Some(pc.record) == DeclaredInfo(cfg, job, start))
    && (pc.Redeclaring? ==> Some(pc.record) == DeclaredInfo(cfg, job, start))
    && (Prepared(pc) ==> start.info.Some?)
    && (pc.Gated? || pc.Declaring? || pc.Redeclaring? || Prepared(pc) ==> NotRefused(job, start))
  }

  predicate NotRefused(job: Job, start: Slot) {
    job.PatchJob? && job.patch.offset.Some? && start.info.Some? ==>
      Refusal(start.info.value, job.patch.offset.value, job.patch.now).None?
  }

  lemma {:induction false} LateKeepsRecord(cfg: Config, job: Job, s: Slot, pc: Pc)
    requires job.Admitted() && !Early(pc)
    ensures RunToEnd(cfg, job, s, pc).0.info == s.info
    decreases Phase(pc), Left(pc), Rest(pc)
  {
    if !pc.Finished? {
      var (s', pc') := LocalStep(cfg, job, s, pc);
      LateKeepsRecord(cfg, job, s', pc');
    }
  }

  lemma EarlyPatchStep(cfg: Config, req: PatchRequest, start: Slot, s: Slot, pc: Pc)
    requires req.offset.Some? && !pc.Finished? && EarlyInv(cfg, PatchJob(req), start, s, pc)
    ensures var (s', pc') := PatchStep(cfg, req, s, pc); EarlyInv(cfg, PatchJob(req), start, s', pc')
  {
    if Untouched(pc) {
      UntouchedStep(cfg, req, start, s, pc);
    } else if Prepared(pc) {
      PreparedStep(cfg, req, start, s, pc);
    } else if pc.Completing() {
      SealingStep(s, pc);
    }
  }

  lemma UntouchedStep(cfg: Config, req: PatchRequest, start: Slot, s: Slot, pc: Pc)
    requires req.offset.Some? && Untouched(pc) && EarlyInv(cfg, PatchJob(req), start, s, pc)
    ensures var (s', pc') := PatchStep(cfg, req, s, pc); EarlyInv(cfg, PatchJob(req), start, s', pc')
  {
  }

  lemma PreparedStep(cfg: Config, req: PatchRequest, start: Slot, s: Slot, pc: Pc)
    requires req.offset.Some? && Prepared(pc) && EarlyInv(cfg, PatchJob(req), start, s, pc)
    ensures var (s', pc') := PatchStep(cfg, req, s, pc); EarlyInv(cfg, PatchJob(req), start, s', pc')
  {
  }

  lemma SealingStep(s: Slot, pc: Pc)
    requires pc.Completing()
    ensures !Early(SealStep(s, pc).1)
  {
  }

  lemma EarlyStep(cfg: Config, job: Job, start: Slot, s: Slot, pc: Pc)
    requires job.Admitted() && !pc.Finished? && EarlyInv(cfg, job, start, s, pc)
    ensures EarlyInv(cfg, job, start, LocalStep(cfg, job, s, pc).0, LocalStep(cfg, job, s, pc).1)
  {
    if job.PatchJob? {
      EarlyPatchStep(cfg, job.patch, start, s, pc);
    }
  }

  // ----- the invariant -----

  ghost predicate IsRunning(sys: Sys, t: int) {
    0 <= t < |sys.states| && sys.states[t].Running?
  }

  ghost predicate Exclusive(jobs: seq<Job>, sys: Sys)
    requires |sys.states| == |jobs|
  {
    && (forall t :: IsRunning(sys, t) ==> jobs[t].Id() in sys.held)
    && (forall t, t' :: IsRunning(sys, t) && IsRunning(sys, t') && t != t' ==> jobs[t].Id() != jobs[t'].Id())
  }

  /** A running task, if it runs on undisturbed, makes of its upload what the serial run makes of it. */
  ghost predicate OnCourse(cfg: Config, jobs: seq<Job>, slots0: imap<string, Slot>, sys: Sys, t: int)
    requires Shaped(jobs, slots0, sys) && IsRunning(sys, t)
  {
    var (id, state) := (jobs[t].Id(), sys.states[t]);
    && RunToEnd(cfg, jobs[t], sys.slots[id], state.pc) == state.goal
    && sys.serial[id] == state.goal.0
    && EarlyInv(cfg, jobs[t], state.start, sys.slots[id], state.pc)
  }

  ghost predicate Idle(jobs: seq<Job>, sys: Sys, id: string)
    requires |sys.states| == |jobs|
  {
    forall t :: IsRunning(sys, t) ==> jobs[t].Id() != id
  }

  ghost predicate Inv(cfg: Config, jobs: seq<Job>, slots0: imap<string, Slot>, sys: Sys)
    requires Shaped(jobs, slots0, sys)
  {
    && Exclusive(jobs, sys)
    && (forall id :: id in sys.slots && Idle(jobs, sys, id) ==> sys.slots[id] == sys.serial[id])
    && (forall t :: IsRunning(sys, t) ==> OnCourse(cfg, jobs, slots0, sys, t))
  }

  /** Between the two states only task t and its upload may differ. */
  ghost predicate OnlyTask(jobs: seq<Job>, sys: Sys, sys': Sys, t: nat)
    requires |sys.states| == |jobs| && t < |jobs|
  {
    && |sys'.states| == |sys.states|
    && (forall t' :: 0 <= t' < |jobs| && t' != t ==> sys'.states[t'] == sys.states[t'])
    && (forall id :: id != jobs[t].Id() && id in sys.slots ==> id in sys'.slots && sys'.slots[id] == sys.slots[id])
    && (forall id :: id != jobs[t].Id() && id in sys.serial ==> id in sys'.serial && sys'.serial[id] == sys.serial[id])
    && (forall id :: id != jobs[t].Id() ==> (id in sys'.held <==> id in sys.held))
  }

  /** No other running task works on the upload of t. */
  ghost predicate Alone(jobs: seq<Job>, sys: Sys, t: nat)
    requires |sys.states| == |jobs| && t < |jobs|
  {
    forall t' :: IsRunning(sys, t') && t' != t ==> jobs[t'].Id() != jobs[t].Id()
  }

  lemma OtherOnCourse(cfg: Config, jobs: seq<Job>, slots0: imap<string, Slot>, sys: Sys, sys': Sys, t: nat, t': int)
    requires Shaped(jobs, slots0, sys) && Shaped(jobs, slots0, sys') && t < |jobs| && OnlyTask(jobs, sys, sys', t)
    requires IsRunning(sys, t') && t' != t && jobs[t'].Id() != jobs[t].Id() && OnCourse(cfg, jobs, slots0, sys, t')
    ensures IsRunning(sys', t') && OnCourse(cfg, jobs, slots0, sys', t')
  {
    assert sys'.slots[jobs[t'].Id()] == sys.slots[jobs[t'].Id()];
  }

  /** To keep the invariant across a change to one task, it is enough to look at that task and its upload. */
  lemma KeepsInv(cfg: Config, jobs: seq<Job>, slots0: imap<string, Slot>, sys: Sys, sys': Sys, t: nat)
    requires Shaped(jobs, slots0, sys) && Shaped(jobs, slots0, sys') && t < |jobs|
    requires Inv(cfg, jobs, slots0, sys) && Alone(jobs, sys, t) && OnlyTask(jobs, sys, sys', t)
    requires IsRunning(sys', t) ==> jobs[t].Id() in sys'.held && OnCourse(cfg, jobs, slots0, sys', t)
    requires Idle(jobs, sys', jobs[t].Id()) ==> sys'.slots[jobs[t].Id()] == sys'.serial[jobs[t].Id()]
    ensures Inv(cfg, jobs, slots0, sys')
  {
    forall t' | IsRunning(sys', t')
      ensures t' == t || (IsRunning(sys, t') && jobs[t'].Id() != jobs[t].Id())
      ensures OnCourse(cfg, jobs, slots0, sys', t')
    {
      if t' != t {
        assert IsRunning(sys, t');
        OtherOnCourse(cfg, jobs, slots0, sys, sys', t, t');
      }
    }
    forall id | id in sys'.slots && Idle(jobs, sys', id)
      ensures sys'.slots[id] == sys'.serial[id]
    {
      if id != jobs[t].Id() {
        OtherIdle(jobs, sys, sys', t, id);
      }
    }
  }

  lemma OtherIdle(jobs: seq<Job>, sys: Sys, sys': Sys, t: nat, id: string)
    requires |sys.states| == |jobs| && t < |jobs| && OnlyTask(jobs, sys, sys', t)
    requires id != jobs[t].Id() && Idle(jobs, sys', id)
    ensures Idle(jobs, sys, id)
  {
    forall t' | IsRunning(sys, t')
      ensures jobs[t'].Id() != id
    {
      if t' != t {
        assert IsRunning(sys', t');
      }
    }
  }

  lemma NextOnlyTask(cfg: Config, jobs: seq<Job>, slots0: imap<string, Slot>, sys: Sys, a: Action)
    requires Shaped(jobs, slots0, sys) && Exclusive(jobs, sys) && Enabled(jobs, slots0, sys, a) && !a.TimeOut?
    ensures OnlyTask(jobs, sys, Next(cfg, jobs, slots0, sys, a), a.t) && Alone(jobs, sys, a.t)
  {
    if !a.Acquire? {
      assert IsRunning(sys, a.t);
    }
  }

  lemma BeginsOnCourse(cfg: Config, job: Job, s: Slot)
    requires job.Admitted()
    ensures RunToEnd(cfg, job, s, Begin) == BigStep(cfg, job, s) && EarlyInv(cfg, job, s, s, Begin)
  {
    StepsAmountToHandler(cfg, job, s);
  }

  lemma AcquireOnCourse(cfg: Config, jobs: seq<Job>, slots0: imap<string, Slot>, sys: Sys, t: nat)
    requires Shaped(jobs, slots0, sys) && Enabled(jobs, slots0, sys, Acquire(t))
    ensures var sys' := Next(cfg, jobs, slots0, sys, Acquire(t));
            IsRunning(sys', t) && jobs[t].Id() in sys'.held && OnCourse(cfg, jobs, slots0, sys', t)
  {
    var s := sys.slots[jobs[t].Id()];
    var goal := BigStep(cfg, jobs[t], s);
    BeginsOnCourse(cfg, jobs[t], s);
    var sys' := Next(cfg, jobs, slots0, sys, Acquire(t));
    assert sys'.states[t] == Running(Begin, |sys.log|, s, goal) && sys'.slots == sys.slots;
    assert sys'.serial[jobs[t].Id()] == goal.0;
  }

  lemma AcquireKeeps(cfg: Config, jobs: seq<Job>, slots0: imap<string, Slot>, sys: Sys, t: nat)
    requires Shaped(jobs, slots0, sys) && Inv(cfg, jobs, slots0, sys) && Enabled(jobs, slots0, sys, Acquire(t))
    ensures Inv(cfg, jobs, slots0, Next(cfg, jobs, slots0, sys, Acquire(t)))
  {
    var sys' := Next(cfg, jobs, slots0, sys, Acquire(t));
    AcquireOnCourse(cfg, jobs, slots0, sys, t);
    NextOnlyTask(cfg, jobs, slots0, sys, Acquire(t));
    KeepsInv(cfg, jobs, slots0, sys, sys', t);
  }

  lemma AdvanceKeeps(cfg: Config, jobs: seq<Job>, slots0: imap<string, Slot>, sys: Sys, t: nat)
    requires Shaped(jobs, slots0, sys) && Inv(cfg, jobs, slots0, sys) && Enabled(jobs, slots0, sys, Advance(t))
    ensures Inv(cfg, jobs, slots0, Next(cfg, jobs, slots0, sys, Advance(t)))
  {
    var sys' := Next(cfg, jobs, slots0, sys, Advance(t));
    assert IsRunning(sys, t) && IsRunning(sys', t);
    OnCourseStep(cfg, jobs, slots0, sys, t);
    NextOnlyTask(cfg, jobs, slots0, sys, Advance(t));
    KeepsInv(cfg, jobs, slots0, sys, sys', t);
  }

  lemma OnCourseStep(cfg: Config, jobs: seq<Job>, slots0: imap<string, Slot>, sys: Sys, t: nat)
    requires Shaped(jobs, slots0, sys) && Enabled(jobs, slots0, sys, Advance(t)) && OnCourse(cfg, jobs, slots0, sys, t)
    ensures OnCourse(cfg, jobs, slots0, Next(cfg, jobs, slots0, sys, Advance(t)), t)
  {
    var sys' := Next(cfg, jobs, slots0, sys, Advance(t));
    var (s, pc) := (sys.slots[jobs[t].Id()], sys.states[t].pc);
    EarlyStep(cfg, jobs[t], sys.states[t].start, s, pc);
    StepTo(cfg, jobs[t], s, pc, sys'.slots[jobs[t].Id()], sys'.states[t].pc);
  }

  lemma ReleaseKeeps(cfg: Config, jobs: seq<Job>, slots0: imap<string, Slot>, sys: Sys, t: nat, freed: bool)
    requires Shaped(jobs, slots0, sys) && Inv(cfg, jobs, slots0, sys) && Enabled(jobs, slots0, sys, Release(t, freed))
    ensures Inv(cfg, jobs, slots0, Next(cfg, jobs, slots0, sys, Release(t, freed)))
    ensures sys.states[t].pc.answer == sys.states[t].goal.1
  {
    var sys' := Next(cfg, jobs, slots0, sys, Release(t, freed));
    assert IsRunning(sys, t) && OnCourse(cfg, jobs, slots0, sys, t);
    assert !IsRunning(sys', t);
    NextOnlyTask(cfg, jobs, slots0, sys, Release(t, freed));
    KeepsInv(cfg, jobs, slots0, sys, sys', t);
  }

  lemma TimeOutKeeps(cfg: Config, jobs: seq<Job>, slots0: imap<string, Slot>, sys: Sys, t: nat)
    requires Shaped(jobs, slots0, sys) && Inv(cfg, jobs, slots0, sys) && Enabled(jobs, slots0, sys, TimeOut(t))
    ensures Inv(cfg, jobs, slots0, Next(cfg, jobs, slots0, sys, TimeOut(t)))
  {
    var sys' := Next(cfg, jobs, slots0, sys, TimeOut(t));
    assert forall t' :: IsRunning(sys', t') <==> IsRunning(sys, t');
    forall t' | IsRunning(sys', t')
      ensures OnCourse(cfg, jobs, slots0, sys', t')
    {
      assert IsRunning(sys, t') && OnCourse(cfg, jobs, slots0, sys, t');
    }
    forall j | j in sys'.slots && Idle(jobs, sys', j)
      ensures sys'.slots[j] == sys'.serial[j]
    {
      assert Idle(jobs, sys, j);
    }
  }

  lemma {:induction false} AlwaysInv(cfg: Config, jobs: seq<Job>, slots0: imap<string, Slot>, schedule: seq<Action>)
    requires WellPosed(jobs, slots0)
    ensures Inv(cfg, jobs, slots0, After(cfg, jobs, slots0, schedule))
  {
    if schedule == [] {
      assert forall t :: !IsRunning(Initial(jobs, slots0), t);
    } else {
      var before := schedule[..|schedule| - 1];
      AlwaysInv(cfg, jobs, slots0, before);
      var sys, a := After(cfg, jobs, slots0, before), schedule[|schedule| - 1];
      if Enabled(jobs, slots0, sys, a) {
        match a
        case Acquire(t) => AcquireKeeps(cfg, jobs, slots0, sys, t);
        case TimeOut(t) => TimeOutKeeps(cfg, jobs, slots0, sys, t);
        case Advance(t) => AdvanceKeeps(cfg, jobs, slots0, sys, t);
        case Release(t, freed) => ReleaseKeeps(cfg, jobs, slots0, sys, t, freed);
      }
    }
  }

  // ----- the lock comes free again -----

  /** Every release so far could reach the set. */
  predicate AllFreed(schedule: seq<Action>) {
    forall i :: 0 <= i < |schedule| && schedule[i].Release? ==> schedule[i].freed
  }

  /** The held IDs are those that some task is working on. */
  ghost predicate HeldByRunning(jobs: seq<Job>, sys: Sys)
    requires |sys.states| == |jobs|
  {
    forall id :: id in sys.held <==> !Idle(jobs, sys, id)
  }

  lemma HeldAfter(cfg: Config, jobs: seq<Job>, slots0: imap<string, Slot>, sys: Sys, a: Action)
    requires Shaped(jobs, slots0, sys) && Exclusive(jobs, sys) && HeldByRunning(jobs, sys)
    requires Enabled(jobs, slots0, sys, a) && (a.Release? ==> a.freed)
    ensures HeldByRunning(jobs, Next(cfg, jobs, slots0, sys, a))
  {
    var sys' := Next(cfg, jobs, slots0, sys, a);
    assert !a.Acquire? && !a.TimeOut? ==> IsRunning(sys, a.t);
    forall t | 0 <= t < |jobs| && t != a.t
      ensures IsRunning(sys', t) <==> IsRunning(sys, t)
    {
    }
    forall id
      ensures id in sys'.held <==> !Idle(jobs, sys', id)
    {
      HeldOne(cfg, jobs, slots0, sys, a, id);
    }
  }

  lemma HeldOne(cfg: Config, jobs: seq<Job>, slots0: imap<string, Slot>, sys: Sys, a: Action, id: string)
    requires Shaped(jobs, slots0, sys) && Exclusive(jobs, sys) && (id in sys.held <==> !Idle(jobs, sys, id))
    requires Enabled(jobs, slots0, sys, a) && (a.Release? ==> a.freed)
    ensures var sys' := Next(cfg, jobs, slots0, sys, a); id in sys'.held <==> !Idle(jobs, sys', id)
  {
    var sys' := Next(cfg, jobs, slots0, sys, a);
    if jobs[a.t].Id() == id && !a.TimeOut? {
      assert a.Acquire? || a.Advance? ==> IsRunning(sys', a.t);
      assert a.Release? ==> IsRunning(sys, a.t) && !IsRunning(sys', a.t);
      assert forall t :: IsRunning(sys', t) && t != a.t ==> IsRunning(sys, t);
      assert a.Advance? ==> IsRunning(sys, a.t);
    } else {
      assert forall t :: jobs[a.t].Id() != id && t == a.t && IsRunning(sys, t) ==> jobs[t].Id() != id;
      assert forall t :: t != a.t ==> (IsRunning(sys', t) <==> IsRunning(sys, t));
      assert a.TimeOut? ==> !IsRunning(sys, a.t) && !IsRunning(sys', a.t);
      if !Idle(jobs, sys, id) {
        var t :| IsRunning(sys, t) && jobs[t].Id() == id;
        assert IsRunning(sys', t);
      }
    }
  }

  /** As long as releases reach the set, an ID is held exactly while some task works on its upload. */
  lemma {:induction false} HeldIff(cfg: Config, jobs: seq<Job>, slots0: imap<string, Slot>, schedule: seq<Action>)
    requires WellPosed(jobs, slots0) && AllFreed(schedule)
    ensures HeldByRunning(jobs, After(cfg, jobs, slots0, schedule))
  {
    if schedule == [] {
      assert forall t :: !IsRunning(Initial(jobs, slots0), t);
    } else {
      var before, a := schedule[..|schedule| - 1], schedule[|schedule| - 1];
      HeldIff(cfg, jobs, slots0, before);
      AlwaysInv(cfg, jobs, slots0, before);
      if Enabled(jobs, slots0, After(cfg, jobs, slots0, before), a) {
        HeldAfter(cfg, jobs, slots0, After(cfg, jobs, slots0, before), a);
      }
    }
  }

  /** So a waiting task can always get the lock of an upload that nobody works on. */
  lemma WaitingCanAcquire(cfg: Config, jobs: seq<Job>, slots0: imap<string, Slot>, schedule: seq<Action>, t: nat)
    requires WellPosed(jobs, slots0) && AllFreed(schedule) && t < |jobs|
    ensures var sys := After(cfg, jobs, slots0, schedule);
            Enabled(jobs, slots0, sys, Acquire(t)) <==> sys.states[t].Waiting? && Idle(jobs, sys, jobs[t].Id())
  {
    HeldIff(cfg, jobs, slots0, schedule);
  }
}
