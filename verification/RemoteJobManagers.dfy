/**
  The class of server/jobs/remoteJobs.js: job records updated in place, each asynchronous method cut at its
  wait into the part before and the part after. Every method takes steps of RemoteJobState, whose theorems hold
  for every interleaving of such steps.
 */
module RemoteJobManagers {
  import opened FiniteSets
  import opened PollOutput
  import opened RemoteJobState

  /** The second state is reached from the first by these steps. */
  ghost predicate Reaches(s: State, steps: seq<Event>, s': State)
    decreases |steps|, 0
  {
    if steps == [] then s == s' else ReachesBy(s, steps[..|steps| - 1], steps[|steps| - 1], s')
  }

  ghost predicate ReachesBy(s: State, before: seq<Event>, e: Event, s': State)
    decreases |before|, 1
  {
    exists mid :: Reaches(s, before, mid) && Next(mid, e, s')
  }

  lemma ReachesMore(s: State, steps: seq<Event>, mid: State, e: Event, s': State)
    requires Reaches(s, steps, mid) && Next(mid, e, s')
    ensures Reaches(s, steps + [e], s')
  {
    assert (steps + [e])[..|steps|] == steps;
  }

  lemma {:induction false} ReachesKeepsInv(s: State, steps: seq<Event>, s': State)
    requires Inv(s) && Reaches(s, steps, s')
    ensures Inv(s')
  {
    hide Inv, Next;
    if steps != [] {
      var mid :| Reaches(s, steps[..|steps| - 1], mid) && Next(mid, steps[|steps| - 1], s');
      ReachesKeepsInv(s, steps[..|steps| - 1], mid);
      NextKeepsInv(mid, steps[|steps| - 1], s');
    }
  }

  /**
    Starting a job and setting its flag right after is one step. Behind the `await` in between, continuations of
    other jobs may run; `CompletedOnlyByHello` speaks of any time from the setting of the flag, so they do no harm.
   */
  lemma StartThenExpect(s: State, id: string, sparkId: string, now: int, mid: State, s': State)
    requires Next(s, Start(id, sparkId, false, now), mid) && Next(mid, SetExpect(id, true), s')
    ensures Next(s, Start(id, sparkId, true, now), s')
  {
    hide Persisted;
    var job := NewJob(sparkId, now);
    assert s.jobs[id := job][id := job.(expectAgentConnect := false)][id := job.(expectAgentConnect := true)]
        == s.jobs[id := job][id := job.(expectAgentConnect := true)];
  }

  /** What is left of a cancel after its wait. */
  lemma CancelIsStep(s: State, id: string, now: int, resumed: State, s': State)
    requires id in s.cancels && id in s.jobs && resumed == s.(cancels := s.cancels - multiset{id})
    requires s'.polls == s.polls && s'.cancels == resumed.cancels
    requires if s.jobs[id].status == Running then Terminates(resumed, id, CancelledAt(s.jobs[id], now), s')
             else s' == resumed
    ensures Next(s, CancelResume(id, now), s')
  {
    hide Persisted;
  }

  method OldestTerminal(jobs: Jobs) returns (oldest: string)
    requires TerminalIds(jobs) != {}
    ensures oldest in TerminalIds(jobs) && forall id :: id in TerminalIds(jobs) ==>
              jobs[oldest].createdAt <= jobs[id].createdAt
  {
    oldest := TakeAny(TerminalIds(jobs));
    var rest := TerminalIds(jobs) - {oldest};
    while rest != {}
      invariant rest <= TerminalIds(jobs) && oldest in TerminalIds(jobs)
      invariant forall id :: id in TerminalIds(jobs) && id !in rest ==> jobs[oldest].createdAt <= jobs[id].createdAt
    {
      var id := TakeAny(rest);
      if jobs[id].createdAt < jobs[oldest].createdAt {
        oldest := id;
      }
      rest := rest - {id};
    }
  }

  /** Every running job, and of the terminal ones the newest thirty. */
  method SelectPersisted(jobs: Jobs) returns (file: Jobs)
    ensures Persisted(jobs, file)
  {
    file := jobs;
    var terminal := TerminalIds(jobs);
    ghost var count := |terminal|;
    while |terminal| > MAX_PERSISTED_JOBS
      invariant terminal == TerminalIds(file)
      invariant forall id :: id in file ==> id in jobs && file[id] == jobs[id]
      invariant forall id :: id in jobs && !IsTerminal(jobs[id]) ==> id in file
      invariant TerminalNewest(jobs, file)
      invariant count == |TerminalIds(jobs)| && |terminal| <= count
      invariant (count > MAX_PERSISTED_JOBS ==> |terminal| >= MAX_PERSISTED_JOBS)
      invariant count <= MAX_PERSISTED_JOBS ==> |terminal| == count
      decreases |terminal|
    {
      var oldest := OldestTerminal(file);
      file := file - {oldest};
      terminal := terminal - {oldest};
      assert terminal == TerminalIds(file);
    }
  }

  class RemoteJobManager {
    var jobs: Jobs
    var pollsInFlight: set<string>
    /** Contents of the state file. */
    var stateFile: Jobs
    ghost var cancels: multiset<string>
    ghost var fired: multiset<string>
    ghost const missed: multiset<string>

    ghost function Abs(): State
      reads this
    {
      State(jobs, stateFile, pollsInFlight, cancels, fired, missed)
    }

    /** A manager on the file of an earlier process, whose hook calls, made or prevented, are remembered. */
    constructor (file: Jobs, ghost earlier: multiset<string>, ghost lost: multiset<string>)
      ensures Abs() == State(file, file, {}, multiset{}, earlier, lost)
    {
      jobs, pollsInFlight, stateFile, cancels, fired, missed := file, {}, file, multiset{}, earlier, lost;
    }

    method Persist()
      modifies this`stateFile
      ensures Persisted(jobs, stateFile)
    {
      stateFile := SelectPersisted(jobs);
    }

    method NotifyTerminal(id: string)
      modifies this`fired
      ensures fired == old(fired) + multiset{id}
    {
      fired := fired + multiset{id};
    }

    /** The common end of every terminal transition. */
    method Terminate(id: string, job: Job)
      requires id in jobs
      modifies this`jobs, this`stateFile, this`fired
      ensures Terminates(old(Abs()), id, job, Abs())
    {
      jobs := jobs[id := job];
      Persist();
      NotifyTerminal(id);
    }

    /** `startRemoteJob`, after the node accepted the launch command. */
    method StartRemoteJob(id: string, sparkId: string, now: int)
      requires id !in jobs && !HasEnded(Abs(), id)
      modifies this`jobs, this`stateFile
      ensures Next(old(Abs()), Start(id, sparkId, false, now), Abs())
    {
      jobs := jobs[id := NewJob(sparkId, now)];
      Persist();
      assert jobs == old(jobs)[id := NewJob(sparkId, now)][id := NewJob(sparkId, now).(expectAgentConnect := false)];
    }

    method SetExpectAgentConnect(id: string, awaited: bool)
      modifies this`jobs
      ensures Next(old(Abs()), SetExpect(id, awaited), Abs())
    {
      if id in jobs {
        jobs := jobs[id := jobs[id].(expectAgentConnect := awaited)];
      }
    }

    /** `pollRemoteJob` up to its wait: at most one poll of a job asks its node at a time. */
    method BeginPoll(id: string, now: int) returns (asks: bool, ghost timeouts: seq<Event>, ghost mid: State)
      modifies this
      ensures Reaches(old(Abs()), timeouts, mid) && Next(mid, PollBegin(id), Abs())
      ensures asks ==> id !in old(pollsInFlight) && id in jobs && jobs[id].status == Running
      ensures pollsInFlight == if asks then old(pollsInFlight) + {id} else old(pollsInFlight)
    {
      hide Persisted, Terminates;
      timeouts, mid, asks := [], Abs(), false;
      if id in pollsInFlight || id !in jobs || jobs[id].status != Running {
        return;
      }
      if jobs[id].expectAgentConnect {
        timeouts := FailStaleHelloJobs(now);
        mid := Abs();
      }
      if jobs[id].status != Running {
        return;
      }
      pollsInFlight := pollsInFlight + {id};
      asks := true;
    }

    /** `_pollOnce` after its node answered. */
    method FinishPoll(id: string, out: string, now: int)
      requires id in pollsInFlight && id in jobs
      modifies this
      ensures Next(old(Abs()), PollReply(id, out, now), Abs())
    {
      hide Persisted, ParsePollOutput;
      pollsInFlight := pollsInFlight - {id};
      var parsed := ParsePollOutput(out);
      var job := jobs[id];
      if parsed.status != Running && job.status == Running {
        if job.expectAgentConnect && parsed.status == Completed {
          Persist();
          return;
        }
        Terminate(id, EndedBy(job, parsed, now));
      }
    }

    /** `_pollOnce` after its node could not be reached. */
    method FailPoll(id: string)
      requires id in pollsInFlight
      modifies this`pollsInFlight, this`stateFile
      ensures Next(old(Abs()), PollError(id), Abs())
    {
      pollsInFlight := pollsInFlight - {id};
      Persist();
    }

    method BeginCancel(id: string)
      requires id in jobs
      modifies this`cancels
      ensures Next(old(Abs()), CancelBegin(id), Abs())
    {
      cancels := cancels + multiset{id};
    }

    /** `cancelRemoteJob` after its wait, whether the node could be reached or not. */
    method FinishCancel(id: string, now: int)
      requires id in jobs && id in cancels
      modifies this
      ensures Next(old(Abs()), CancelResume(id, now), Abs())
    {
      hide Persisted, Next, Terminates;
      ghost var before := Abs();
      cancels := cancels - multiset{id};
      ghost var resumed := Abs();
      if jobs[id].status == Running {
        Terminate(id, CancelledAt(jobs[id], now));
      }
      CancelIsStep(before, id, now, resumed, Abs());
    }

    /** One job's turn in `agentConnected`. */
    method VerifyOne(id: string, sparkId: string, now: int)
      requires id in jobs
      modifies this`jobs, this`stateFile, this`fired
      ensures Next(old(Abs()), Hello(id, sparkId, now), Abs())
      ensures jobs == old(jobs)[id := if old(jobs)[id].sparkId == sparkId && WaitsForHello(old(jobs)[id])
                                then Verified(old(jobs)[id], now) else old(jobs)[id]]
    {
      hide Persisted;
      var job := jobs[id];
      assert jobs == jobs[id := job];
      if job.sparkId == sparkId && job.expectAgentConnect && job.status == Running {
        Terminate(id, Verified(job, now));
      }
    }

    /** The agent of a node connected: every job of that node that waits for it is completed, no other job changes. */
    method AgentConnected(sparkId: string, now: int) returns (ghost steps: seq<Event>)
      modifies this`jobs, this`stateFile, this`fired
      ensures Reaches(old(Abs()), steps, Abs())
      ensures jobs == map id | id in old(jobs) :: if old(jobs)[id].sparkId == sparkId && WaitsForHello(old(jobs)[id])
              then Verified(old(jobs)[id], now) else old(jobs)[id]
    {
      hide Next, Verified, WaitsForHello;
      steps := [];
      ghost var start := Abs();
      var rest := jobs.Keys;
      while rest != {}
        invariant rest <= start.jobs.Keys && jobs.Keys == start.jobs.Keys
        invariant Reaches(start, steps, Abs())
        invariant forall id :: id in jobs ==>
                    (jobs[id] == if id !in rest && start.jobs[id].sparkId == sparkId && WaitsForHello(start.jobs[id])
                     then Verified(start.jobs[id], now) else start.jobs[id])
      {
        var id := TakeAny(rest);
        ghost var mid := Abs();
        VerifyOne(id, sparkId, now);
        ReachesMore(start, steps, mid, Hello(id, sparkId, now), Abs());
        steps := steps + [Hello(id, sparkId, now)];
        rest := rest - {id};
      }
    }

    /** One job's turn in `failStaleHelloJobs`. */
    method TimeOutOne(id: string, now: int)
      requires id in jobs
      modifies this`jobs, this`stateFile, this`fired
      ensures Next(old(Abs()), Timeout(id, now), Abs())
      ensures jobs == old(jobs)[id := if IsStale(old(jobs)[id], now) then TimedOut(old(jobs)[id], now)
                                else old(jobs)[id]]
    {
      hide Persisted;
      var job := jobs[id];
      assert jobs == jobs[id := job];
      if job.expectAgentConnect && job.status == Running && now - job.startedAt > HELLO_TIMEOUT_MS {
        Terminate(id, TimedOut(job, now));
      }
    }

    /** Fails every job whose agent did not connect within sixty seconds, and no other. */
    method FailStaleHelloJobs(now: int) returns (ghost steps: seq<Event>)
      modifies this`jobs, this`stateFile, this`fired
      ensures Reaches(old(Abs()), steps, Abs())
      ensures jobs == map id | id in old(jobs) :: if IsStale(old(jobs)[id], now) then TimedOut(old(jobs)[id], now)
              else old(jobs)[id]
    {
      hide Next, TimedOut, IsStale;
      steps := [];
      ghost var start := Abs();
      var rest := jobs.Keys;
      while rest != {}
        invariant rest <= start.jobs.Keys && jobs.Keys == start.jobs.Keys
        invariant Reaches(start, steps, Abs())
        invariant forall id :: id in jobs ==>
                    jobs[id] == if id !in rest && IsStale(start.jobs[id], now) then TimedOut(start.jobs[id], now)
                      else start.jobs[id]
      {
        var id := TakeAny(rest);
        ghost var mid := Abs();
        TimeOutOne(id, now);
        ReachesMore(start, steps, mid, Timeout(id, now), Abs());
        steps := steps + [Timeout(id, now)];
        rest := rest - {id};
      }
    }
  }
}
