/**
 * What a final POST finds when it reads partial uploads, whose locks it does not take: record and data are read at
 * different moments, and other tasks may be at work.
 */
module UnlockedReads {
  import opened Core
  import opened Seqs
  import opened Slots
  import opened Protocol
  import opened Refinement
  import opened Steps
  import opened Interleaving
  import opened Concurrency
  import opened Recovery

  ghost function At(cfg: Config, jobs: seq<Job>, slots0: imap<string, Slot>, schedule: seq<Action>, k: nat): (sys: Sys)
    requires WellPosed(jobs, slots0) && k <= |schedule|
    ensures Shaped(jobs, slots0, sys)
  {
    After(cfg, jobs, slots0, schedule[..k])
  }

  /** Nobody acquires the upload's lock between the two moments. */
  ghost predicate Undisturbed(cfg: Config, jobs: seq<Job>, slots0: imap<string, Slot>, schedule: seq<Action>,
                              m: nat, n: nat, id: string)
    requires WellPosed(jobs, slots0) && m <= n <= |schedule|
  {
    forall k :: m <= k < n ==> NotAcquired(cfg, jobs, slots0, schedule, k, id)
  }

  lemma OneMoment(cfg: Config, jobs: seq<Job>, slots0: imap<string, Slot>, sys: Sys, a: Action, id: string)
    requires Shaped(jobs, slots0, sys) && Enabled(jobs, slots0, sys, a) && id in slots0 && Idle(jobs, sys, id)
    requires a.Acquire? ==> jobs[a.t].Id() != id
    ensures var sys' := Next(cfg, jobs, slots0, sys, a); Idle(jobs, sys', id) && sys'.slots[id] == sys.slots[id]
  {
    var sys' := Next(cfg, jobs, slots0, sys, a);
    if a.Advance? || a.Release? {
      assert IsRunning(sys, a.t);
    }
    forall t | IsRunning(sys', t)
      ensures jobs[t].Id() != id
    {
      if t != a.t {
        assert IsRunning(sys, t);
      }
    }
  }

  /** An upload that nobody works on and whose lock nobody acquires stays as it is. */
  lemma {:induction false} StaysPut(cfg: Config, jobs: seq<Job>, slots0: imap<string, Slot>, schedule: seq<Action>,
                                   m: nat, n: nat, id: string)
    requires WellPosed(jobs, slots0) && m <= n <= |schedule| && id in slots0
    requires Idle(jobs, At(cfg, jobs, slots0, schedule, m), id) && Undisturbed(cfg, jobs, slots0, schedule, m, n, id)
    ensures Idle(jobs, At(cfg, jobs, slots0, schedule, n), id)
    ensures At(cfg, jobs, slots0, schedule, n).slots[id] == At(cfg, jobs, slots0, schedule, m).slots[id]
    decreases n - m
  {
    if m < n {
      UndisturbedLast(cfg, jobs, slots0, schedule, m, n, id);
      StaysPut(cfg, jobs, slots0, schedule, m, n - 1, id);
      NextMoment(cfg, jobs, slots0, schedule, n - 1, id);
    }
  }

  lemma UndisturbedLast(cfg: Config, jobs: seq<Job>, slots0: imap<string, Slot>, schedule: seq<Action>,
                        m: nat, n: nat, id: string)
    requires WellPosed(jobs, slots0) && m < n <= |schedule| && Undisturbed(cfg, jobs, slots0, schedule, m, n, id)
    ensures Undisturbed(cfg, jobs, slots0, schedule, m, n - 1, id)
    ensures NotAcquired(cfg, jobs, slots0, schedule, n - 1, id)
  {
  }

  /** The action at this moment does not acquire the upload's lock. */
  ghost predicate NotAcquired(cfg: Config, jobs: seq<Job>, slots0: imap<string, Slot>, schedule: seq<Action>, k: nat, id: string)
    requires WellPosed(jobs, slots0) && k < |schedule|
  {
    var a := schedule[k];
    !(a.Acquire? && Enabled(jobs, slots0, At(cfg, jobs, slots0, schedule, k), a) && jobs[a.t].Id() == id)
  }

  lemma NextMoment(cfg: Config, jobs: seq<Job>, slots0: imap<string, Slot>, schedule: seq<Action>, k: nat, id: string)
    requires WellPosed(jobs, slots0) && k < |schedule| && id in slots0
    requires Idle(jobs, At(cfg, jobs, slots0, schedule, k), id) && NotAcquired(cfg, jobs, slots0, schedule, k, id)
    ensures Idle(jobs, At(cfg, jobs, slots0, schedule, k + 1), id)
    ensures At(cfg, jobs, slots0, schedule, k + 1).slots[id] == At(cfg, jobs, slots0, schedule, k).slots[id]
  {
    assert schedule[..k + 1][..k] == schedule[..k];
    var sys := At(cfg, jobs, slots0, schedule, k);
    if Enabled(jobs, slots0, sys, schedule[k]) {
      OneMoment(cfg, jobs, slots0, sys, schedule[k], id);
    }
  }

  /** A sealed upload whose lock is free at moment m and stays so until its data is read at the given moment. */
  ghost predicate LeftAlone(cfg: Config, jobs: seq<Job>, slots0: imap<string, Slot>, schedule: seq<Action>,
                            m: nat, read: nat, id: string)
    requires WellPosed(jobs, slots0) && m <= |schedule|
  {
    && m <= read <= |schedule| && id in slots0
    && Idle(jobs, At(cfg, jobs, slots0, schedule, m), id) && Sealed(At(cfg, jobs, slots0, schedule, m).slots[id])
    && Undisturbed(cfg, jobs, slots0, schedule, m, read, id)
  }

  /** What is read, at its own moment for every partial. */
  ghost function ReadOut(cfg: Config, jobs: seq<Job>, slots0: imap<string, Slot>, schedule: seq<Action>,
                         ids: seq<string>, moments: seq<nat>): seq<Option<Bytes>>
    requires WellPosed(jobs, slots0) && |moments| == |ids|
    requires forall i :: 0 <= i < |ids| ==> ids[i] in slots0 && moments[i] <= |schedule|
  {
    seq(|ids|, i requires 0 <= i < |ids| => At(cfg, jobs, slots0, schedule, moments[i]).slots[ids[i]].data)
  }

  /**
   * If every partial is sealed and left alone from one moment until it is read, what is read is what the serial run has
   * made of all of them at that one moment.
   */
  lemma ReadsOneMoment(cfg: Config, jobs: seq<Job>, slots0: imap<string, Slot>, schedule: seq<Action>, m: nat,
                       ids: seq<string>, moments: seq<nat>)
    requires WellPosed(jobs, slots0) && m <= |schedule| && |moments| == |ids|
    requires forall i :: 0 <= i < |ids| ==> LeftAlone(cfg, jobs, slots0, schedule, m, moments[i], ids[i])
    ensures forall i :: 0 <= i < |ids| ==> ids[i] in slots0 && moments[i] <= |schedule|
    ensures var (out, sys) := (ReadOut(cfg, jobs, slots0, schedule, ids, moments), At(cfg, jobs, slots0, schedule, m));
            forall i :: 0 <= i < |ids| ==> out[i] == Some(Content(Serial(cfg, jobs, slots0, sys.log)[ids[i]]))
  {
    AlwaysInv(cfg, jobs, slots0, schedule[..m]);
    AlwaysHistory(cfg, jobs, slots0, schedule[..m]);
    var sys := At(cfg, jobs, slots0, schedule, m);
    forall i | 0 <= i < |ids|
      ensures ids[i] in slots0 && moments[i] <= |schedule|
      ensures At(cfg, jobs, slots0, schedule, moments[i]).slots[ids[i]].data
           == Some(Content(Serial(cfg, jobs, slots0, sys.log)[ids[i]]))
    {
      assert LeftAlone(cfg, jobs, slots0, schedule, m, moments[i], ids[i]);
      StaysPut(cfg, jobs, slots0, schedule, m, moments[i], ids[i]);
    }
  }

  /**
   * That it is left alone is needed: while a PATCH that completes the upload is filling the final object, the record
   * already counts all bytes and the object has fewer.
   */
  lemma HalfSealedIsShort(cfg: Config, req: PatchRequest, start: Slot, s: Slot, q: seq<U32>, k: nat, rest: Bytes)
    requires Clean(cfg, start, req) && Copied(cfg, req, start, s, q, k, rest) && rest != []
    ensures s.info.Some? && s.data.Some? && |s.data.value| < s.info.value.offset
  {
    CopiedRecovered(cfg, req, start, s, q, k, rest);
    PartAppended(cfg, req, start, req.body.bytes);
    StartRecovered(start);
    SameParts(s, WithPart(start, req.body.bytes));
    FlatIsPrefix(Pick(s.parts, q), k);
  }
}
