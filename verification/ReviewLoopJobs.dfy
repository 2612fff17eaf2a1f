/** What every interleaving keeps about the background jobs: at most one is pending, each leaves the
    slot exactly once, none is pending after the loop returns, and the wait-group counter is the
    number of live job goroutines. */
module ReviewLoopJobs {
  import opened Options
  import opened Conversation
  import opened ReviewLoop

  predicate IsLive(job: Job) {
    job.phase.Spawned? || job.phase.Published?
  }

  function Live(jobs: seq<Job>): nat {
    if jobs == [] then 0 else Live(jobs[..|jobs| - 1]) + if IsLive(jobs[|jobs| - 1]) then 1 else 0
  }

  lemma {:induction false} LiveUpdate(jobs: seq<Job>, j: nat, job: Job)
    requires j < |jobs|
    ensures Live(jobs[j := job]) == Live(jobs) - (if IsLive(jobs[j]) then 1 else 0) + (if IsLive(job) then 1 else 0)
  {
    var m := |jobs| - 1;
    if j == m {
      assert jobs[j := job][..m] == jobs[..m];
    } else {
      assert jobs[j := job][..m] == jobs[..m][j := job];
      LiveUpdate(jobs[..m], j, job);
    }
  }

  lemma LiveAppend(jobs: seq<Job>, job: Job)
    ensures Live(jobs + [job]) == Live(jobs) + if IsLive(job) then 1 else 0
  {
    assert (jobs + [job])[..|jobs|] == jobs;
  }

  // ---------------------------------------------------------------- phases and the slot

  /** A job of the table: an unspawned one is the one the foreground is about to spawn, and a rebuilt
      conversation is only ever there when the job has finished. */
  predicate JobOk(s: State, j: nat)
    requires j < |s.jobs|
  {
    && (s.jobs[j].phase.Created? <==> s.pc == Spawn(j))
    && (s.jobs[j].rebuilt.Some? ==> s.jobs[j].done)
    && (s.jobs[j].done ==> s.jobs[j].phase.Published? || s.jobs[j].phase.Exited?)
  }

  /** The pending job has not failed: it is still running, or it is done and has its result. */
  predicate SlotOk(s: State) {
    s.pending.Some? ==>
      && s.pending.value < |s.jobs|
      && var job := s.jobs[s.pending.value];
      && (job.done <==> job.rebuilt.Some?)
      && (job.done <==> job.phase.Published? || job.phase.Exited?)
  }

  ghost predicate JobsOk(s: State) {
    && (forall j :: 0 <= j < |s.jobs| ==> JobOk(s, j))
    && SlotOk(s)
    && s.background == Live(s.jobs)
    && (s.pc.Spawn? ==> s.pc.job < |s.jobs| && s.pending == Some(s.pc.job))
    && (s.pc.PreCompress? || s.pc.PostCompress? || s.pc.Returned? ==> s.pending.None?)
    && (s.pc.SwapJob? ==> s.pc.job < |s.jobs| && s.jobs[s.pc.job].done)
  }

  lemma UpdatedJobsOk(s: State, t: State, j: nat)
    requires JobsOk(s) && j < |s.jobs| && |t.jobs| == |s.jobs| && t.pc == s.pc
    requires forall i :: 0 <= i < |s.jobs| && i != j ==> t.jobs[i] == s.jobs[i]
    requires JobOk(t, j)
    ensures forall i :: 0 <= i < |t.jobs| ==> JobOk(t, i)
  {
    forall i | 0 <= i < |t.jobs| ensures JobOk(t, i) {
      assert JobOk(s, i);
    }
  }

  lemma PublishKeepsJobs(cfg: Config, s: State, j: nat, reply: Reply)
    requires JobsOk(s)
    ensures JobsOk(Publish(cfg, s, j, reply))
  {
    var t := Publish(cfg, s, j, reply);
    if j < |s.jobs| && s.jobs[j].phase.Spawned? {
      assert JobOk(s, j);
      LiveUpdate(s.jobs, j, t.jobs[j]);
      UpdatedJobsOk(s, t, j);
    }
  }

  lemma SignOffKeepsJobs(s: State, j: nat)
    requires JobsOk(s)
    ensures JobsOk(SignOff(s, j))
  {
    var t := SignOff(s, j);
    if j < |s.jobs| && s.jobs[j].phase.Published? {
      assert JobOk(s, j);
      LiveUpdate(s.jobs, j, t.jobs[j]);
      UpdatedJobsOk(s, t, j);
    }
  }

  lemma CriticalKeepsJobs(cfg: Config, s: State)
    requires JobsOk(s) && CriticalPC(s.pc)
    ensures JobsOk(AtCritical(cfg, s))
  {
    hide Total, Live;
    var t := AtCritical(cfg, s);
    if s.pc.Spawn? {
      assert JobOk(s, s.pc.job);
      LiveUpdate(s.jobs, s.pc.job, t.jobs[s.pc.job]);
    } else if |t.jobs| > |s.jobs| {
      LiveAppend(s.jobs, t.jobs[|s.jobs|]);
    }
    forall j | 0 <= j < |t.jobs| ensures JobOk(t, j) {
      if j < |s.jobs| {
        assert JobOk(s, j);
      }
    }
  }

  lemma StepKeepsJobs(cfg: Config, s: State, e: Event)
    requires JobsOk(s)
    ensures JobsOk(Step(cfg, s, e))
  {
    hide Publish, SignOff, AtCritical, AtAddNext, AtCompress, AtLoopHead, AtReply, AtGrace, AfterTools;
    var t := Step(cfg, s, e);
    match e
    case JobPublish(j, reply) => PublishKeepsJobs(cfg, s, j, reply);
    case JobExit(j) => SignOffKeepsJobs(s, j);
    case _ =>
      if CriticalPC(s.pc) {
        CriticalKeepsJobs(cfg, s);
      } else if t != s {
        assert PrivateStep(s, t);
        forall j | 0 <= j < |t.jobs| ensures JobOk(t, j) {
          assert JobOk(s, j);
        }
      }
  }

  lemma {:induction false} RunKeepsJobs(cfg: Config, prompt: seq<Message>, events: seq<Event>)
    ensures JobsOk(RunFrom(cfg, prompt, events))
  {
    hide Step;
    if events != [] {
      var m := |events| - 1;
      RunKeepsJobs(cfg, prompt, events[..m]);
      StepKeepsJobs(cfg, RunFrom(cfg, prompt, events[..m]), events[m]);
    }
  }

  /** WaitBackground: the counter is never negative, and it is zero exactly when no goroutine is live.
      Once RunMainTask has returned nothing is pending. */
  lemma WaitGroupCountsGoroutines(cfg: Config, prompt: seq<Message>, events: seq<Event>)
    ensures var s := RunFrom(cfg, prompt, events);
            && s.background == Live(s.jobs) >= 0
            && (s.background == 0 <==> forall j :: 0 <= j < |s.jobs| ==> !IsLive(s.jobs[j]))
            && (s.pc.Returned? ==> s.pending.None?)
  {
    hide RunFrom;
    RunKeepsJobs(cfg, prompt, events);
    NoneLive(RunFrom(cfg, prompt, events).jobs);
  }

  lemma {:induction false} NoneLive(jobs: seq<Job>)
    ensures Live(jobs) == 0 <==> forall j :: 0 <= j < |jobs| ==> !IsLive(jobs[j])
  {
    if jobs != [] {
      NoneLive(jobs[..|jobs| - 1]);
    }
  }

  // ---------------------------------------------------------------- fates

  /** Every job ever started is the pending one or has met exactly one fate, and an applied job is one
      that succeeded. */
  ghost predicate FatesOk(s: State) {
    && (forall k :: 0 <= k < |s.fates| ==> s.fates[k].0 < |s.jobs| && s.pending != Some(s.fates[k].0))
    && (forall k, l :: 0 <= k < l < |s.fates| ==> s.fates[k].0 != s.fates[l].0)
    && (forall k :: 0 <= k < |s.fates| && s.fates[k].1.Applied? ==> s.jobs[s.fates[k].0].rebuilt.Some?)
    && |s.jobs| == |s.fates| + if s.pending.Some? then 1 else 0
  }

  /** A step leaves the slot and the list of fates alone, fills an empty slot with a new job, or moves
      the pending job into the list. */
  predicate SlotStep(s: State, t: State) {
    || (t.pending == s.pending && t.fates == s.fates && |t.jobs| == |s.jobs|)
    || (s.pending.None? && t.pending == Some(|s.jobs|) && |t.jobs| == |s.jobs| + 1 && t.fates == s.fates)
    || (s.pending.Some? && s.pending.value < |s.jobs| && t.pending.None? && |t.jobs| == |s.jobs| && |t.fates| == |s.fates| + 1
        && t.fates[..|s.fates|] == s.fates
        && t.fates[|s.fates|].0 == s.pending.value
        && (t.fates[|s.fates|].1.Applied? ==> s.jobs[s.pending.value].rebuilt.Some?))
  }

  /** A job keeps its snapshot for ever and, once out of the slot, its result too. */
  predicate JobStep(s: State, t: State, j: nat)
    requires j < |s.jobs| <= |t.jobs|
  {
    && t.jobs[j].snapshot == s.jobs[j].snapshot
    && (s.jobs[j].rebuilt.Some? || s.pending != Some(j) ==> t.jobs[j].rebuilt == s.jobs[j].rebuilt)
  }

  lemma StepsTheSlot(cfg: Config, s: State, e: Event)
    requires JobsOk(s)
    ensures SlotStep(s, Step(cfg, s, e))
  {
    if e.JobPublish? || e.JobExit? {
    } else if CriticalPC(s.pc) {
      assert SlotStep(s, AtCritical(cfg, s));
    } else {
      assert Step(cfg, s, e) == s || PrivateStep(s, Step(cfg, s, e));
    }
  }

  lemma StepsTheJobs(cfg: Config, s: State, e: Event, j: nat)
    requires JobsOk(s) && j < |s.jobs|
    ensures |s.jobs| <= |Step(cfg, s, e).jobs| && JobStep(s, Step(cfg, s, e), j)
  {
    hide AtLoopHead, AtReply, AfterTools, AtAddNext, AtCompress, AtGrace, Compressed;
    assert JobOk(s, j);
    if e.JobPublish? || e.JobExit? {
    } else if CriticalPC(s.pc) {
      assert JobStep(s, AtCritical(cfg, s), j);
    } else {
      assert Step(cfg, s, e) == s || PrivateStep(s, Step(cfg, s, e));
    }
  }

  lemma StepKeepsFates(cfg: Config, s: State, e: Event)
    requires JobsOk(s) && FatesOk(s)
    ensures FatesOk(Step(cfg, s, e))
  {
    hide Step;
    var t := Step(cfg, s, e);
    StepsTheSlot(cfg, s, e);
    forall k | 0 <= k < |t.fates| && t.fates[k].1.Applied? ensures t.jobs[t.fates[k].0].rebuilt.Some? {
      if k < |s.fates| {
        assert t.fates[k] == s.fates[k];
      }
      StepsTheJobs(cfg, s, e, t.fates[k].0);
    }
    FatesGrow(s, t);
  }

  lemma FatesGrow(s: State, t: State)
    requires FatesOk(s) && SlotOk(s) && SlotStep(s, t)
    ensures forall k :: 0 <= k < |t.fates| ==> t.fates[k].0 < |t.jobs| && t.pending != Some(t.fates[k].0)
    ensures forall k, l :: 0 <= k < l < |t.fates| ==> t.fates[k].0 != t.fates[l].0
    ensures |t.jobs| == |t.fates| + if t.pending.Some? then 1 else 0
  {
    assert forall k :: 0 <= k < |s.fates| ==> t.fates[k] == s.fates[k];
  }

  lemma {:induction false} RunKeepsFates(cfg: Config, prompt: seq<Message>, events: seq<Event>)
    ensures FatesOk(RunFrom(cfg, prompt, events))
  {
    hide Step;
    if events != [] {
      var m := |events| - 1;
      RunKeepsFates(cfg, prompt, events[..m]);
      RunKeepsJobs(cfg, prompt, events[..m]);
      StepKeepsFates(cfg, RunFrom(cfg, prompt, events[..m]), events[m]);
    }
  }

  /** A job's result reaches the conversation at most once, never when the job was cancelled or failed,
      and every job not pending has met its one fate. */
  lemma EachJobHasOneFate(cfg: Config, prompt: seq<Message>, events: seq<Event>, k: nat, l: nat)
    requires k < |RunFrom(cfg, prompt, events).fates| && l < |RunFrom(cfg, prompt, events).fates|
    ensures var s := RunFrom(cfg, prompt, events);
            && (s.fates[k].0 == s.fates[l].0 ==> k == l)
            && s.fates[k].0 < |s.jobs|
            && (s.fates[k].1.Applied? ==> s.jobs[s.fates[k].0].rebuilt.Some?)
            && s.pending != Some(s.fates[k].0)
            && |s.jobs| == |s.fates| + if s.pending.Some? then 1 else 0
  {
    hide RunFrom;
    RunKeepsFates(cfg, prompt, events);
  }

  /** After the return a late goroutine can only finish and sign off. */
  lemma LateJobsAreInert(cfg: Config, prompt: seq<Message>, events: seq<Event>, e: Event)
    requires RunFrom(cfg, prompt, events).pc.Returned?
    ensures var s := RunFrom(cfg, prompt, events);
            var t := Step(cfg, s, e);
            t == s.(jobs := t.jobs, background := t.background)
            && |t.jobs| == |s.jobs|
            && forall j :: 0 <= j < |s.jobs| ==> t.jobs[j] == s.jobs[j].(phase := t.jobs[j].phase)
  {
    hide RunFrom, AtLoopHead, AtReply, AfterTools, AtAddNext, AtCompress, AtCritical, AtGrace, Compressed;
    RunKeepsJobs(cfg, prompt, events);
  }
}
