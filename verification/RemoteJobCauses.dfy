/**
  How each step ends a remote job, field by field, and which step gave a terminal job its outcome
  (server/jobs/remoteJobs.js:296-395).
 */
module RemoteJobCauses {
  import opened Options
  import opened FiniteSets
  import opened PollOutput
  import opened RemoteJobState

  // --- What a step makes of a job -----------------------------------------------------------------

  /** At most this job changed. */
  ghost predicate OthersStay(s: State, s': State, id: string) {
    forall i :: i != id ==> (i in s'.jobs <==> i in s.jobs) && (i in s.jobs ==> s'.jobs[i] == s.jobs[i])
  }

  /** A started job runs from now on, without an exit code or an end. */
  lemma StartRuns(s: State, id: string, sparkId: string, hello: bool, now: int, s': State)
    requires Next(s, Start(id, sparkId, hello, now), s')
    ensures id in s'.jobs && s'.jobs[id] == Job(sparkId, Running, hello, now, now, None, None) && OthersStay(s, s', id)
  {
    hide Persisted;
  }

  /** The agent's connection completes exactly the running jobs of its own node that wait for it. */
  lemma HelloCompletes(s: State, id: string, sparkId: string, now: int, s': State)
    requires Next(s, Hello(id, sparkId, now), s')
    ensures OthersStay(s, s', id) && (id in s'.jobs <==> id in s.jobs)
    ensures id in s.jobs ==>
              var job := s.jobs[id];
              s'.jobs[id] ==
                if job.status == Running && job.expectAgentConnect && job.sparkId == sparkId
                then job.(status := Completed, exitCode := Some(0), endedAt := Some(now), expectAgentConnect := false)
                else job
  {
    hide Persisted;
  }

  /** A missing hello fails exactly the running jobs that wait for it and started more than sixty seconds ago. */
  lemma TimeoutFails(s: State, id: string, now: int, s': State)
    requires Next(s, Timeout(id, now), s')
    ensures OthersStay(s, s', id) && (id in s'.jobs <==> id in s.jobs)
    ensures id in s.jobs ==>
              var job := s.jobs[id];
              s'.jobs[id] ==
                if job.status == Running && job.expectAgentConnect && now - job.startedAt > 60_000
                then job.(status := Failed, endedAt := Some(now), expectAgentConnect := false)
                else job
  {
    hide Persisted;
  }

  /** A cancel ends exactly a job that still runs when its kill command has returned. */
  lemma CancelEnds(s: State, id: string, now: int, s': State)
    requires Next(s, CancelResume(id, now), s')
    ensures OthersStay(s, s', id) && id in s.jobs && id in s'.jobs
    ensures var job := s.jobs[id];
            s'.jobs[id] == if job.status == Running then job.(status := Cancelled, endedAt := Some(now)) else job
  {
    hide Persisted;
  }

  /** A poll ends a running job with what the node reports, unless that is a success and a hello is awaited. */
  lemma PollEnds(s: State, id: string, out: string, now: int, s': State)
    requires Next(s, PollReply(id, out, now), s')
    ensures OthersStay(s, s', id) && id in s.jobs && id in s'.jobs
    ensures var job, p := s.jobs[id], ParsePollOutput(out);
            s'.jobs[id] ==
              if job.status == Running && p.status != Running && !(job.expectAgentConnect && p.status == Completed)
              then job.(status := p.status, exitCode := p.exitCode, endedAt := Some(now), expectAgentConnect := false)
              else job
  {
    hide Persisted, ParsePollOutput;
  }

  /**
    Only a job that runs is polled, and only a known one is cancelled; both wait for their node without touching it.
   */
  lemma WaitsBegin(s: State, id: string, s': State)
    ensures Next(s, PollBegin(id), s') ==>
              && s'.jobs == s.jobs && s'.file == s.file && s'.cancels == s.cancels
              && forall i :: i in s'.polls <==>
                   i in s.polls || (i == id && id in s.jobs && s.jobs[id].status == Running)
    ensures Next(s, CancelBegin(id), s') ==>
              && s'.jobs == s.jobs && s'.file == s.file && s'.polls == s.polls
              && s'.cancels == if id in s.jobs then s.cancels + multiset{id} else s.cancels
  {
  }

  /** Setting the flag changes nothing else, in memory only. */
  lemma FlagIsSet(s: State, id: string, awaited: bool, s': State)
    requires Next(s, SetExpect(id, awaited), s')
    ensures OthersStay(s, s', id) && (id in s'.jobs <==> id in s.jobs) && s'.file == s.file
    ensures id in s.jobs ==> s'.jobs[id] == s.jobs[id].(expectAgentConnect := awaited)
  {
  }

  /** A save keeps every running job, and a terminal job only goes when thirty that are no older stay. */
  lemma SaveKeepsNewest(jobs: Jobs, file: Jobs, id: string)
    requires Persisted(jobs, file) && id in jobs
    ensures id in file ==> file[id] == jobs[id]
    ensures id !in file ==>
              && IsTerminal(jobs[id]) && |TerminalIds(file)| == 30
              && forall other :: other in TerminalIds(file) ==> jobs[other].createdAt >= jobs[id].createdAt
  {
    if id !in file {
      assert TerminalIds(file) <= TerminalIds(jobs) - {id};
      SubsetSize(TerminalIds(file), TerminalIds(jobs) - {id});
    }
  }

  /** A poll that finds success while the hello is awaited saves the job, its flag included, for the next process. */
  lemma WaitingPollSavesFlag(s: State, id: string, out: string, now: int, s': State)
    requires Next(s, PollReply(id, out, now), s') && WaitsForHello(s.jobs[id])
    requires ParsePollOutput(out).status == Completed
    ensures id in s'.file && s'.file[id] == s.jobs[id]
    ensures forall restarted :: Next(s', Restart, restarted) ==>
              id in restarted.jobs && restarted.jobs[id] == s.jobs[id]
  {
    hide ParsePollOutput, TerminalNewest, TerminalIds;
  }

  // --- Whole runs -----------------------------------------------------------------------------------

  /** The step gave the running job this outcome. */
  predicate Causes(e: Event, id: string, job: Job, o: Outcome) {
    match if e.Killed? then e.step else e
    case Hello(i, sparkId, now) =>
      i == id && sparkId == job.sparkId && job.expectAgentConnect && o == Outcome(Completed, Some(0), Some(now))
    case Timeout(i, now) =>
      && i == id && job.expectAgentConnect && now - job.startedAt > 60_000
      && o == Outcome(Failed, None, Some(now))
    case CancelResume(i, now) => i == id && o == Outcome(Cancelled, None, Some(now))
    case PollReply(i, out, now) =>
      var p := ParsePollOutput(out);
      && i == id && (p.status in {Failed, Interrupted} || (p.status == Completed && !job.expectAgentConnect))
      && o == Outcome(p.status, p.exitCode, Some(now))
    case _ => false
  }

  predicate Blank(job: Job) {
    job.exitCode.None? && job.endedAt.None?
  }

  lemma OrdinaryCause(s: State, e: Event, s': State, id: string)
    requires Next(s, e, s') && IsOrdinary(e) && id in s.jobs && s.jobs[id].status == Running && Blank(s.jobs[id])
    ensures id in s'.jobs
    ensures s'.jobs[id] == s.jobs[id] || (IsTerminal(s'.jobs[id]) && Causes(e, id, s.jobs[id], OutcomeOf(s'.jobs[id])))
  {
    hide Next, ParsePollOutput;
    match e
    case PollReply(i, out, now) => PollEnds(s, i, out, now, s'); PollVerdicts(out);
    case CancelResume(i, now) => CancelEnds(s, i, now, s');
    case Hello(i, sparkId, now) => HelloCompletes(s, i, sparkId, now, s');
    case Timeout(i, now) => TimeoutFails(s, i, now, s');
    case _ => NothingEnds(s, e, s');
  }

  lemma NothingEnds(s: State, e: Event, s': State)
    requires Next(s, e, s') && (e.PollBegin? || e.PollError? || e.CancelBegin?)
    ensures s'.jobs == s.jobs
  {
    hide Persisted;
  }

  lemma PollVerdicts(out: string)
    ensures ParsePollOutput(out).status in {Running, Completed, Failed, Interrupted}
  {
  }

  /** A step leaves a running job without an end, or gives it one. */
  lemma StepCause(s: State, e: Event, s': State, id: string)
    requires Inv(s) && Next(s, e, s') && id in s'.jobs && id in s.jobs
    requires s.jobs[id].status == Running && Blank(s.jobs[id])
    ensures if IsTerminal(s'.jobs[id]) then Causes(e, id, s.jobs[id], OutcomeOf(s'.jobs[id])) else Blank(s'.jobs[id])
  {
    hide Inv, Persisted, Causes;
    if e.Killed? {
      hide Next;
      var done := KilledStep(s, e, s');
      OrdinaryCause(s, e.step, done, id);
      FileKeepsOutcome(done, id);
      KilledCauses(e, id, s.jobs[id], OutcomeOf(done.jobs[id]));
    } else if e.Restart? {
      FileKeepsOutcome(s, id);
    } else if IsOrdinary(e) {
      hide Next;
      OrdinaryCause(s, e, s', id);
    }
  }

  lemma KilledCauses(e: Event, id: string, job: Job, o: Outcome)
    requires e.Killed? && IsOrdinary(e.step)
    ensures Causes(e, id, job, o) <==> Causes(e.step, id, job, o)
  {
  }

  lemma NewJobRuns(s: State, e: Event, s': State, id: string)
    requires Inv(s) && Next(s, e, s') && id in s'.jobs && id !in s.jobs
    ensures s'.jobs[id].status == Running && Blank(s'.jobs[id])
  {
    hide Inv, Persisted;
    if e.Killed? {
      hide Next;
      var done := KilledStep(s, e, s');
      var ended, job := StepShape(s, e.step, done);
      FileKeepsOutcome(done, id);
    } else if e.Restart? {
      FileKeepsOutcome(s, id);
    } else if IsOrdinary(e) {
      hide Next;
      var ended, job := StepShape(s, e, s');
    }
  }

  /**
    In any run, whatever interleaves: a job that is not terminal has no exit code and no end, and a terminal one got its
    status, exit code and end from one step that found it running. It is cancelled only by a cancel, completed only by
    its agent's connection or by a poll that found success while no hello was awaited, interrupted only by a poll that
    found neither the process nor an exit code, and failed only by a poll that found failure or when its hello was
    overdue by more than sixty seconds.
   */
  lemma {:induction false} EndHasCause(states: seq<State>, events: seq<Event>, k: nat, id: string)
    requires IsRun(states, events) && k <= |events| && id in states[k].jobs
    ensures if IsTerminal(states[k].jobs[id])
            then exists i :: 0 <= i < k && id in states[i].jobs && !IsTerminal(states[i].jobs[id])
                             && Causes(events[i], id, states[i].jobs[id], OutcomeOf(states[k].jobs[id]))
            else Blank(states[k].jobs[id])
  {
    hide Next, Inv, Causes;
    if k > 0 {
      var s, e, s' := states[k - 1], events[k - 1], states[k];
      EveryRunKeepsInv(states, events, k - 1);
      assert Next(s, e, s');
      if id !in s.jobs {
        NewJobRuns(s, e, s', id);
      } else {
        EndHasCause(states, events, k - 1, id);
        if IsTerminal(s.jobs[id]) {
          StepKeepsTerminal(s, e, s', id);
        } else {
          StepCause(s, e, s', id);
        }
      }
    }
  }
}
