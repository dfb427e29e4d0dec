/**
  The life of remote jobs in server/jobs/remoteJobs.js as a state machine. Every asynchronous method
  is cut where it waits, so polls, cancels, sweeps and agent connections interleave freely.
 */
module RemoteJobState {
  import opened Options
  import opened PollOutput

  const MAX_PERSISTED_JOBS := 30
  const HELLO_TIMEOUT_MS := 60_000

  datatype Job = Job(
    sparkId: string,
    status: Status,
    expectAgentConnect: bool,
    createdAt: int,
    startedAt: int,
    endedAt: Option<int>,
    exitCode: Option<nat>)

  type Jobs = map<string, Job>

  /**
    Memory, the state file, the polls and cancels that wait for their node, every call of the terminal hook so
    far, and every call of it that a kill of the process prevented.
   */
  datatype State = State(
    jobs: Jobs,
    file: Jobs,
    polls: set<string>,
    cancels: multiset<string>,
    fired: multiset<string>,
    missed: multiset<string>)

  const EMPTY := State(map[], map[], {}, multiset{}, multiset{}, multiset{})

  predicate IsTerminal(job: Job) {
    job.status != Running
  }

  function NewJob(sparkId: string, now: int): Job {
    Job(sparkId, Running, false, now, now, None, None)
  }

  // --- Terminal transitions -------------------------------------------------------------------------

  /** The agent's hello landed. */
  function Verified(job: Job, now: int): Job {
    job.(expectAgentConnect := false, status := Completed, exitCode := Some(0), endedAt := Some(now))
  }

  /** The agent's hello did not land in time. */
  function TimedOut(job: Job, now: int): Job {
    job.(expectAgentConnect := false, status := Failed, endedAt := Some(now))
  }

  function CancelledAt(job: Job, now: int): Job {
    job.(status := Cancelled, endedAt := Some(now))
  }

  function EndedBy(job: Job, p: Poll, now: int): Job {
    job.(expectAgentConnect := false, status := p.status, exitCode := p.exitCode, endedAt := Some(now))
  }

  predicate WaitsForHello(job: Job) {
    job.expectAgentConnect && job.status == Running
  }

  predicate IsStale(job: Job, now: int) {
    WaitsForHello(job) && now - job.startedAt > HELLO_TIMEOUT_MS
  }

  /** A poll's answer ends a running job, unless its script succeeded and the agent's hello is still awaited. */
  predicate Ends(job: Job, p: Poll) {
    p.status != Running && job.status == Running && !(job.expectAgentConnect && p.status == Completed)
  }

  // --- Persistence ------------------------------------------------------------------------------------

  predicate TerminalNewest(jobs: Jobs, file: Jobs) {
    forall a, b :: a in jobs && b in jobs && IsTerminal(jobs[a]) && IsTerminal(jobs[b]) && a !in file && b in file ==>
      jobs[a].createdAt <= jobs[b].createdAt
  }

  function TerminalIds(jobs: Jobs): set<string> {
    set id | id in jobs && IsTerminal(jobs[id])
  }

  /** What `_persist` may write: every running job, and the newest thirty terminal ones. */
  predicate Persisted(jobs: Jobs, file: Jobs) {
    && (forall id :: id in file ==> id in jobs && file[id] == jobs[id])
    && (forall id :: id in jobs && !IsTerminal(jobs[id]) ==> id in file)
    && |TerminalIds(file)|
       == (if |TerminalIds(jobs)| > MAX_PERSISTED_JOBS then MAX_PERSISTED_JOBS else |TerminalIds(jobs)|)
    && TerminalNewest(jobs, file)
  }

  // --- Steps --------------------------------------------------------------------------------------------

  datatype Event =
    // The launch command returned; the hello flag is set right after, without another save.
    | Start(id: string, sparkId: string, hello: bool, now: int)
    | SetExpect(id: string, awaited: bool)
    | PollBegin(id: string)
    | PollError(id: string)
    | PollReply(id: string, out: string, now: int)
    | CancelBegin(id: string)
    | CancelResume(id: string, now: int)
    // One job's turn in `agentConnected` or in `failStaleHelloJobs`.
    | Hello(id: string, sparkId: string, now: int)
    | Timeout(id: string, now: int)
    // The process dies and a new one loads the file.
    | Restart
    // The process is killed in a step that ends a job, between the save and the hook, and a new one loads the file.
    | Killed(step: Event)

  /** A job reaches a terminal state: memory, then the file, then the hook. */
  predicate Terminates(s: State, id: string, job: Job, s': State) {
    && id in s.jobs
    && s'.jobs == s.jobs[id := job]
    && Persisted(s'.jobs, s'.file)
    && s'.fired == s.fired + multiset{id} && s'.missed == s.missed
  }

  /** The job reached a terminal state at some time, whether its hook was called or not. */
  predicate HasEnded(s: State, id: string) {
    id in s.fired || id in s.missed
  }

  predicate Saves(s: State, s': State) {
    s'.jobs == s.jobs && Persisted(s.jobs, s'.file) && s'.fired == s.fired && s'.missed == s.missed
  }

  /** A process that only has the file. */
  function Reloaded(s: State): State {
    State(s.file, s.file, {}, multiset{}, s.fired, s.missed)
  }

  /** A step ended a job and saved it, and then the process was killed before it called the hook. */
  function CutShort(s: State, done: State): State {
    Reloaded(done).(fired := s.fired, missed := s.missed + (done.fired - s.fired))
  }

  ghost predicate Next(s: State, e: Event, s': State)
    decreases e
  {
    match e
    case Start(id, sparkId, hello, now) =>
      var saved := s.jobs[id := NewJob(sparkId, now)];
      && id !in s.jobs && !HasEnded(s, id)
      && Persisted(saved, s'.file)
      && s' == s.(jobs := saved[id := NewJob(sparkId, now).(expectAgentConnect := hello)], file := s'.file)
    case SetExpect(id, awaited) =>
      s' == if id in s.jobs then s.(jobs := s.jobs[id := s.jobs[id].(expectAgentConnect := awaited)]) else s
    case PollBegin(id) =>
      s' == if id in s.jobs && s.jobs[id].status == Running && id !in s.polls then s.(polls := s.polls + {id}) else s
    case PollError(id) =>
      && id in s.polls && Saves(s, s')
      && s'.polls == s.polls - {id} && s'.cancels == s.cancels
    case PollReply(id, out, now) =>
      var p := ParsePollOutput(out);
      && id in s.polls && id in s.jobs
      && s'.polls == s.polls - {id} && s'.cancels == s.cancels
      && if Ends(s.jobs[id], p) then Terminates(s, id, EndedBy(s.jobs[id], p, now), s')
         else if WaitsForHello(s.jobs[id]) && p.status == Completed then Saves(s, s')
         else Saves(s, s') || s' == s.(polls := s.polls - {id})
    case CancelBegin(id) =>
      s' == if id in s.jobs then s.(cancels := s.cancels + multiset{id}) else s
    case CancelResume(id, now) =>
      && id in s.cancels && id in s.jobs
      && s'.polls == s.polls && s'.cancels == s.cancels - multiset{id}
      && if s.jobs[id].status == Running then Terminates(s, id, CancelledAt(s.jobs[id], now), s')
         else s' == s.(cancels := s.cancels - multiset{id})
    case Hello(id, sparkId, now) =>
      && s'.polls == s.polls && s'.cancels == s.cancels
      && if id in s.jobs && s.jobs[id].sparkId == sparkId && WaitsForHello(s.jobs[id])
         then Terminates(s, id, Verified(s.jobs[id], now), s') else s' == s
    case Timeout(id, now) =>
      && s'.polls == s.polls && s'.cancels == s.cancels
      && if id in s.jobs && IsStale(s.jobs[id], now) then Terminates(s, id, TimedOut(s.jobs[id], now), s') else s' == s
    case Restart => s' == Reloaded(s)
    case Killed(step) => exists done :: Next(s, step, done) && done.fired != s.fired && s' == CutShort(s, done)
  }

  // --- The shape of a step ------------------------------------------------------------------------------

  /** Nothing happens to any job. */
  predicate Quiet(s: State, s': State) {
    s'.jobs == s.jobs && s'.fired == s.fired && s'.missed == s.missed
  }

  /** A running job ends, on its own node, and not by a poll that should wait for the hello. */
  predicate Finishes(s: State, e: Event, id: string, job: Job, s': State) {
    && Terminates(s, id, job, s')
    && s.jobs[id].status == Running && IsTerminal(job) && job.sparkId == s.jobs[id].sparkId
    && (s.jobs[id].expectAgentConnect && job.status == Completed ==> e.Hello? && e.id == id && e.sparkId == job.sparkId)
  }

  /** Apart from starts, the setting of flags and the end of the process, a step ends one running job or none. */
  lemma StepShape(s: State, e: Event, s': State) returns (id: string, job: Job)
    requires Next(s, e, s') && IsOrdinary(e)
    ensures Quiet(s, s') || Finishes(s, e, id, job, s')
  {
    hide Persisted, ParsePollOutput;
    id, job := "", NewJob("", 0);
    match e
    case PollReply(i, out, now) =>
      if Ends(s.jobs[i], ParsePollOutput(out)) { id, job := i, EndedBy(s.jobs[i], ParsePollOutput(out), now); }
    case CancelResume(i, now) =>
      if s.jobs[i].status == Running { id, job := i, CancelledAt(s.jobs[i], now); }
    case Hello(i, sparkId, now) =>
      if i in s.jobs && s.jobs[i].sparkId == sparkId && WaitsForHello(s.jobs[i]) {
        id, job := i, Verified(s.jobs[i], now);
      }
    case Timeout(i, now) =>
      if i in s.jobs && IsStale(s.jobs[i], now) { id, job := i, TimedOut(s.jobs[i], now); }
    case _ =>
  }

  predicate IsOrdinary(e: Event) {
    !e.Start? && !e.SetExpect? && !e.Restart? && !e.Killed?
  }

  // --- The invariant --------------------------------------------------------------------------------------

  /** Two records of a job that differ at most in the hello flag. */
  predicate SameButHello(a: Job, b: Job) {
    a.(expectAgentConnect := b.expectAgentConnect) == b
  }

  /** The file knows every running job, and nothing in it is out of date but hello flags. */
  predicate FileOk(s: State) {
    && (forall id :: id in s.file ==> id in s.jobs && SameButHello(s.file[id], s.jobs[id]))
    && (forall id :: id in s.jobs && !IsTerminal(s.jobs[id]) ==> id in s.file)
  }

  /** Calls of the hook for a job, prevented ones included. */
  function Calls(s: State, id: string): nat {
    s.fired[id] + s.missed[id]
  }

  /** The hook's turn came once for a job that reached a terminal state, and not yet for one that runs. */
  ghost predicate HookOk(s: State) {
    && (forall id :: id in s.jobs ==> s.fired[id] + s.missed[id] == if IsTerminal(s.jobs[id]) then 1 else 0)
    && (forall id :: s.fired[id] + s.missed[id] <= 1)
  }

  predicate WaitsOk(s: State) {
    (forall id :: id in s.polls ==> id in s.jobs) && (forall id :: id in s.cancels ==> id in s.jobs)
  }

  ghost predicate Inv(s: State) {
    FileOk(s) && HookOk(s) && WaitsOk(s)
  }

  lemma PersistedFileOk(s: State)
    requires Persisted(s.jobs, s.file)
    ensures FileOk(s)
  {
  }

  lemma TerminatesKeepsInv(s: State, id: string, job: Job, s': State)
    requires Inv(s) && Terminates(s, id, job, s') && !IsTerminal(s.jobs[id]) && IsTerminal(job)
    requires s'.polls <= s.polls && s'.cancels <= s.cancels
    ensures Inv(s')
  {
    hide Persisted, FileOk, HookOk;
    PersistedFileOk(s');
    TerminatesKeepsHookOk(s, id, job, s');
    forall i | i in s'.cancels ensures i in s'.jobs {
      assert i in s.cancels;
    }
  }

  lemma TerminatesKeepsHookOk(s: State, id: string, job: Job, s': State)
    requires HookOk(s) && Terminates(s, id, job, s') && !IsTerminal(s.jobs[id]) && IsTerminal(job)
    ensures HookOk(s')
  {
    hide Persisted;
    assert s.fired[id] + s.missed[id] == 0;
  }

  lemma SavesKeepsInv(s: State, s': State)
    requires Inv(s) && Saves(s, s') && s'.polls <= s.polls && s'.cancels == s.cancels
    ensures Inv(s')
  {
    hide Persisted, FileOk;
    PersistedFileOk(s');
  }

  /** A file written from these jobs stays in order when a hello flag is set afterwards. */
  lemma FlagAfterSave(saved: State, id: string, hello: bool)
    requires FileOk(saved) && id in saved.jobs
    ensures FileOk(saved.(jobs := saved.jobs[id := saved.jobs[id].(expectAgentConnect := hello)]))
  {
  }

  lemma StartKeepsInv(s: State, id: string, sparkId: string, hello: bool, now: int, s': State)
    requires Inv(s) && Next(s, Start(id, sparkId, hello, now), s')
    ensures Inv(s')
  {
    hide FileOk, Persisted;
    var saved := s.(jobs := s.jobs[id := NewJob(sparkId, now)], file := s'.file);
    PersistedFileOk(saved);
    FlagAfterSave(saved, id, hello);
    assert s' == saved.(jobs := saved.jobs[id := saved.jobs[id].(expectAgentConnect := hello)]);
    assert s.fired[id] + s.missed[id] == 0;
  }

  lemma RestartKeepsInv(s: State)
    requires Inv(s)
    ensures Inv(Reloaded(s))
  {
    forall id | id in s.file ensures Calls(s, id) == if IsTerminal(s.file[id]) then 1 else 0 {
      assert id in s.jobs && SameButHello(s.file[id], s.jobs[id]);
    }
  }

  lemma RestartStep(s: State, s': State)
    requires Inv(s) && Next(s, Restart, s')
    ensures Inv(s')
  {
    RestartKeepsInv(s);
  }

  lemma HookGrows(s: State, e: Event, s': State)
    requires Next(s, e, s')
    ensures s.fired <= s'.fired && s.missed <= s'.missed
    ensures s'.missed == s.missed || e.Killed?
  {
    hide Persisted;
    if IsOrdinary(e) {
      hide Next;
      var id, job := StepShape(s, e, s');
    }
  }

  /** A cut only moves calls of the hook from one account to the other. */
  lemma CutShortKeepsInv(s: State, done: State)
    requires Inv(done) && s.fired <= done.fired && s.missed == done.missed
    ensures Inv(CutShort(s, done))
    ensures forall id :: Calls(CutShort(s, done), id) == Calls(done, id)
  {
    hide FileOk, WaitsOk;
    RestartKeepsInv(done);
    var after := CutShort(s, done);
    assert FileOk(after) && WaitsOk(after) by {
      SameJobs(Reloaded(done), after);
    }
    forall id ensures Calls(after, id) == Calls(done, id) && (HasEnded(after, id) <==> HasEnded(done, id)) {
      assert s.fired[id] <= done.fired[id];
    }
  }

  lemma SameJobs(s: State, s': State)
    requires FileOk(s) && WaitsOk(s)
    requires s'.jobs == s.jobs && s'.file == s.file && s'.polls == s.polls && s'.cancels == s.cancels
    ensures FileOk(s') && WaitsOk(s')
  {
  }

  lemma KilledKeepsInv(s: State, step: Event, s': State)
    requires Inv(s) && Next(s, Killed(step), s')
    ensures Inv(s')
    decreases step, 2
  {
    var done :| Next(s, step, done) && done.fired != s.fired && s' == CutShort(s, done);
    hide Next, Inv, CutShort;
    NextKeepsInv(s, step, done);
    HookGrows(s, step, done);
    NotKilledTwice(s, step, done);
    CutShortKeepsInv(s, done);
  }

  lemma NotKilledTwice(s: State, step: Event, done: State)
    requires Next(s, step, done) && done.fired != s.fired
    ensures IsOrdinary(step)
  {
  }

  lemma SetExpectKeepsInv(s: State, id: string, awaited: bool, s': State)
    requires Inv(s) && Next(s, SetExpect(id, awaited), s')
    ensures Inv(s')
  {
    hide FileOk;
    if id in s.jobs { FlagAfterSave(s, id, awaited); }
  }

  lemma BeginKeepsInv(s: State, e: Event, s': State)
    requires Inv(s) && Next(s, e, s') && (e.PollBegin? || e.CancelBegin?)
    ensures Inv(s')
  {
    hide FileOk, HookOk;
    assert s'.jobs == s.jobs && s'.file == s.file && s'.fired == s.fired && s'.missed == s.missed;
    SameFiles(s, s');
  }

  lemma SameFiles(s: State, s': State)
    requires FileOk(s) && HookOk(s)
    requires s'.jobs == s.jobs && s'.file == s.file && s'.fired == s.fired && s'.missed == s.missed
    ensures FileOk(s') && HookOk(s')
  {
  }

  lemma PollErrorKeepsInv(s: State, id: string, s': State)
    requires Inv(s) && Next(s, PollError(id), s')
    ensures Inv(s')
  {
    hide Persisted, Inv;
    SavesKeepsInv(s, s');
  }

  lemma CancelKeepsInv(s: State, id: string, now: int, s': State)
    requires Inv(s) && Next(s, CancelResume(id, now), s')
    ensures Inv(s')
  {
    hide Persisted;
    if s.jobs[id].status == Running { TerminatesKeepsInv(s, id, CancelledAt(s.jobs[id], now), s'); }
  }

  lemma HelloKeepsInv(s: State, id: string, sparkId: string, now: int, s': State)
    requires Inv(s) && Next(s, Hello(id, sparkId, now), s')
    ensures Inv(s')
  {
    hide Persisted;
    if id in s.jobs && s.jobs[id].sparkId == sparkId && WaitsForHello(s.jobs[id]) {
      TerminatesKeepsInv(s, id, Verified(s.jobs[id], now), s');
    }
  }

  lemma TimeoutKeepsInv(s: State, id: string, now: int, s': State)
    requires Inv(s) && Next(s, Timeout(id, now), s')
    ensures Inv(s')
  {
    hide Persisted;
    if id in s.jobs && IsStale(s.jobs[id], now) { TerminatesKeepsInv(s, id, TimedOut(s.jobs[id], now), s'); }
  }

  lemma {:induction false} NextKeepsInv(s: State, e: Event, s': State)
    requires Inv(s) && Next(s, e, s')
    ensures Inv(s')
    decreases e, 1
  {
    hide Next, Inv;
    match e
    case Start(id, sparkId, hello, now) => StartKeepsInv(s, id, sparkId, hello, now, s');
    case PollReply(id, out, now) => PollReplyKeepsInv(s, id, out, now, s');
    case CancelResume(id, now) => CancelKeepsInv(s, id, now, s');
    case Hello(id, sparkId, now) => HelloKeepsInv(s, id, sparkId, now, s');
    case Timeout(id, now) => TimeoutKeepsInv(s, id, now, s');
    case Restart => RestartStep(s, s');
    case Killed(step) => KilledKeepsInv(s, step, s');
    case SetExpect(id, awaited) => SetExpectKeepsInv(s, id, awaited, s');
    case PollError(id) => PollErrorKeepsInv(s, id, s');
    case PollBegin(_) => BeginKeepsInv(s, e, s');
    case CancelBegin(_) => BeginKeepsInv(s, e, s');
  }

  lemma PollReplyKeepsInv(s: State, id: string, out: string, now: int, s': State)
    requires Inv(s) && Next(s, PollReply(id, out, now), s')
    ensures Inv(s')
  {
    hide Persisted, ParsePollOutput;
    var p := ParsePollOutput(out);
    if Ends(s.jobs[id], p) {
      TerminatesKeepsInv(s, id, EndedBy(s.jobs[id], p, now), s');
    } else if Saves(s, s') {
      SavesKeepsInv(s, s');
    }
  }

  lemma EmptyInv()
    ensures Inv(EMPTY)
  {
  }

  // --- Runs -----------------------------------------------------------------------------------------------

  ghost predicate IsRun(states: seq<State>, events: seq<Event>) {
    && |states| == |events| + 1
    && states[0] == EMPTY
    && forall i :: 0 <= i < |events| ==> Next(states[i], events[i], states[i + 1])
  }

  lemma {:induction false} EveryRunKeepsInv(states: seq<State>, events: seq<Event>, k: nat)
    requires IsRun(states, events) && k <= |events|
    ensures Inv(states[k])
  {
    hide Next, Inv;
    if k == 0 {
      EmptyInv();
    } else {
      EveryRunKeepsInv(states, events, k - 1);
      NextKeepsInv(states[k - 1], events[k - 1], states[k]);
    }
  }

  /** What must not change once a job is terminal. */
  datatype Outcome = Outcome(status: Status, exitCode: Option<nat>, endedAt: Option<int>)

  function OutcomeOf(job: Job): Outcome {
    Outcome(job.status, job.exitCode, job.endedAt)
  }

  /** The state with which a killed step had ended a job. */
  lemma KilledStep(s: State, e: Event, s': State) returns (done: State)
    requires Inv(s) && Next(s, e, s') && e.Killed?
    ensures Next(s, e.step, done) && s' == CutShort(s, done) && Inv(done)
    ensures IsOrdinary(e.step) && done.fired != s.fired
  {
    hide Inv, CutShort;
    done :| Next(s, e.step, done) && done.fired != s.fired && s' == CutShort(s, done);
    NextKeepsInv(s, e.step, done);
    NotKilledTwice(s, e.step, done);
  }

  /** No step changes a terminal job; a restart may forget it, but never brings it back to life. */
  lemma {:induction false} StepKeepsTerminal(s: State, e: Event, s': State, id: string)
    requires Inv(s) && Next(s, e, s') && id in s.jobs && IsTerminal(s.jobs[id])
    ensures id in s'.jobs ==> OutcomeOf(s'.jobs[id]) == OutcomeOf(s.jobs[id])
    decreases e
  {
    hide Persisted, Inv;
    if e.Killed? {
      hide Next;
      var done := KilledStep(s, e, s');
      StepKeepsTerminal(s, e.step, done, id);
      FileKeepsOutcome(done, id);
    } else if e.Restart? {
      FileKeepsOutcome(s, id);
    } else if IsOrdinary(e) {
      hide Next;
      var ended, job := StepShape(s, e, s');
    }
  }

  lemma FileKeepsOutcome(s: State, id: string)
    requires Inv(s)
    ensures id in s.file ==> id in s.jobs && OutcomeOf(s.file[id]) == OutcomeOf(s.jobs[id])
  {
    if id in s.file { assert SameButHello(s.file[id], s.jobs[id]); }
  }

  /** Once forgotten by a restart, a terminal job's id is never used again. */
  lemma {:induction false} StepForgets(s: State, e: Event, s': State, id: string)
    requires Inv(s) && Next(s, e, s') && id !in s.jobs && HasEnded(s, id)
    ensures id !in s'.jobs
    decreases e
  {
    hide Persisted, Inv;
    if e.Killed? {
      hide Next;
      var done := KilledStep(s, e, s');
      StepForgets(s, e.step, done, id);
      NotInFile(done, id);
    } else if e.Restart? {
      NotInFile(s, id);
    } else if IsOrdinary(e) {
      hide Next;
      var ended, job := StepShape(s, e, s');
    }
  }

  lemma NotInFile(s: State, id: string)
    requires Inv(s) && id !in s.jobs
    ensures id !in s.file
  {
  }

  lemma {:induction false} StaysEnded(s: State, e: Event, s': State, id: string)
    requires Inv(s) && Next(s, e, s') && HasEnded(s, id)
    ensures HasEnded(s', id)
  {
    hide Next, Inv;
    HookGrows(s, e, s');
    assert s.fired[id] <= s'.fired[id] && s.missed[id] <= s'.missed[id];
  }

  /**
    Under every interleaving of polls, cancels, sweeps and agent connections, restarts and kills included: a
    terminal job's status, exit code and end never change.
   */
  lemma {:induction false} TerminalIsFinal(states: seq<State>, events: seq<Event>, i: nat, j: nat, id: string)
    requires IsRun(states, events) && i <= j <= |events| && id in states[i].jobs && IsTerminal(states[i].jobs[id])
    ensures HasEnded(states[j], id)
    ensures id in states[j].jobs ==> OutcomeOf(states[j].jobs[id]) == OutcomeOf(states[i].jobs[id])
    decreases j
  {
    hide Next;
    EveryRunKeepsInv(states, events, j);
    if i == j {
      assert Calls(states[i], id) == 1;
    } else {
      TerminalIsFinal(states, events, i, j - 1, id);
      EveryRunKeepsInv(states, events, j - 1);
      hide Inv;
      StaysEnded(states[j - 1], events[j - 1], states[j], id);
      if id in states[j - 1].jobs {
        StepKeepsTerminal(states[j - 1], events[j - 1], states[j], id);
      } else {
        StepForgets(states[j - 1], events[j - 1], states[j], id);
      }
    }
  }

  // --- The terminal hook ------------------------------------------------------------------------------------

  /** This step is the killed end of that job. */
  ghost predicate KillsEndOf(s: State, e: Event, s': State, id: string) {
    e.Killed? && s'.missed[id] > s.missed[id]
  }

  /**
    The terminal hook is called at most once for any job, never for one that still runs, and exactly once for one
    that is terminal, unless the process was killed right after it had saved that job's end: then, and only
    then, never.
   */
  lemma {:induction false} HookFiresOnce(states: seq<State>, events: seq<Event>, k: nat, id: string)
    requires IsRun(states, events) && k <= |events|
    ensures states[k].fired[id] <= 1
    ensures id in states[k].jobs && !IsTerminal(states[k].jobs[id]) ==> states[k].fired[id] == 0
    ensures id in states[k].jobs && IsTerminal(states[k].jobs[id]) ==>
              (states[k].fired[id] == 0 <==>
               exists i :: 0 <= i < k && KillsEndOf(states[i], events[i], states[i + 1], id))
  {
    hide Next, KillsEndOf;
    EveryRunKeepsInv(states, events, k);
    MissedByKillsOnly(states, events, k, id);
    if states[k].fired[id] > 0 { assert HasEnded(states[k], id); }
  }

  lemma {:induction false} MissedByKillsOnly(states: seq<State>, events: seq<Event>, k: nat, id: string)
    requires IsRun(states, events) && k <= |events|
    ensures states[k].missed[id] > 0 <==> exists i :: 0 <= i < k && KillsEndOf(states[i], events[i], states[i + 1], id)
  {
    hide Next;
    if k > 0 {
      MissedByKillsOnly(states, events, k - 1, id);
      HookGrows(states[k - 1], events[k - 1], states[k]);
      assert states[k - 1].missed[id] <= states[k].missed[id];
      if states[k].missed[id] > states[k - 1].missed[id] {
        assert KillsEndOf(states[k - 1], events[k - 1], states[k - 1 + 1], id);
      }
    }
  }

  lemma SavesOnlyJob(id: string, job: Job)
    ensures Persisted(map[id := job], map[id := job])
  {
    if IsTerminal(job) {
      assert TerminalIds(map[id := job]) == {id};
    } else {
      assert TerminalIds(map[id := job]) == {};
    }
  }

  /** A kill between the save of a job's end and its hook: the job is terminal, and its hook was not called. */
  lemma KillLosesHook(s: State, id: string, out: string, now: int, done: State)
    requires Inv(s) && id in s.jobs && s.jobs[id].status == Running && id in s.polls
    requires Ends(s.jobs[id], ParsePollOutput(out)) && Next(s, PollReply(id, out, now), done) && id in done.file
    ensures Next(s, Killed(PollReply(id, out, now)), CutShort(s, done))
    ensures var after := CutShort(s, done); IsTerminal(after.jobs[id]) && after.fired[id] == 0 && after.missed[id] == 1
  {
    hide TerminalNewest, ParsePollOutput;
    assert Calls(s, id) == 0;
    assert done.fired[id] == 1;
    assert done.fired != s.fired;
  }

  lemma FirstPoll(id: string, sparkId: string, now: int)
    ensures var started := map[id := NewJob(sparkId, now)];
            var s1 := EMPTY.(jobs := started, file := started);
            Next(EMPTY, Start(id, sparkId, false, now), s1) && Next(s1, PollBegin(id), s1.(polls := {id}))
  {
    hide Persisted;
    var job := NewJob(sparkId, now);
    SavesOnlyJob(id, job);
    assert map[][id := job] == map[id := job] && map[id := job][id := job] == map[id := job];
  }

  lemma FirstPollEnds(id: string, sparkId: string, now: int, later: int, out: string)
    requires ParsePollOutput(out).status != Running
    ensures var started := map[id := NewJob(sparkId, now)];
            var ended := map[id := EndedBy(NewJob(sparkId, now), ParsePollOutput(out), later)];
            Next(EMPTY.(jobs := started, file := started, polls := {id}), PollReply(id, out, later),
                 EMPTY.(jobs := ended, file := ended, fired := multiset{id}))
  {
    hide Persisted, ParsePollOutput;
    var job, ended := NewJob(sparkId, now), EndedBy(NewJob(sparkId, now), ParsePollOutput(out), later);
    SavesOnlyJob(id, ended);
    assert map[id := job][id := ended] == map[id := ended];
  }

  /** Such a kill can happen: a job starts, a poll finds its end, and the process is killed once that is saved. */
  lemma HookLostByKill(id: string, sparkId: string, now: int, later: int, out: string)
    requires ParsePollOutput(out).status != Running
    ensures var started := map[id := NewJob(sparkId, now)];
            var s1 := EMPTY.(jobs := started, file := started);
            var s2 := s1.(polls := {id});
            var ended := map[id := EndedBy(NewJob(sparkId, now), ParsePollOutput(out), later)];
            var s3 := EMPTY.(jobs := ended, file := ended, missed := multiset{id});
            && Next(EMPTY, Start(id, sparkId, false, now), s1) && Next(s1, PollBegin(id), s2)
            && Next(s2, Killed(PollReply(id, out, later)), s3)
            && IsTerminal(s3.jobs[id]) && s3.fired[id] == 0 && s3.missed[id] == 1
  {
    hide Next, ParsePollOutput, Inv;
    var s1 := EMPTY.(jobs := map[id := NewJob(sparkId, now)], file := map[id := NewJob(sparkId, now)]);
    var s2 := s1.(polls := {id});
    FirstPoll(id, sparkId, now);
    EmptyInv();
    NextKeepsInv(EMPTY, Start(id, sparkId, false, now), s1);
    NextKeepsInv(s1, PollBegin(id), s2);
    var ended := EndedBy(NewJob(sparkId, now), ParsePollOutput(out), later);
    var done := EMPTY.(jobs := map[id := ended], file := map[id := ended], fired := multiset{id});
    FirstPollEnds(id, sparkId, now, later, out);
    KillLosesHook(s2, id, out, later, done);
    assert multiset{} + (multiset{id} - multiset{}) == multiset{id};
    assert CutShort(s2, done) == EMPTY.(jobs := map[id := ended], file := map[id := ended], missed := multiset{id});
  }

  /** A restart forgets no running job, and every job it finds has the outcome it had. */
  lemma RestartLosesNothingRunning(states: seq<State>, events: seq<Event>, k: nat, id: string)
    requires IsRun(states, events) && k < |events| && events[k].Restart?
    ensures id in states[k].jobs && !IsTerminal(states[k].jobs[id]) ==> id in states[k + 1].jobs
    ensures id in states[k + 1].jobs ==>
              id in states[k].jobs && SameButHello(states[k + 1].jobs[id], states[k].jobs[id])
  {
    EveryRunKeepsInv(states, events, k);
    assert Next(states[k], events[k], states[k + 1]);
  }

  // --- Waiting for the agent's hello ------------------------------------------------------------------------

  /** A poll that found exit code zero completes a running job exactly when no hello is awaited. */
  lemma PollCompletesIff(s: State, id: string, out: string, now: int, s': State)
    requires Next(s, PollReply(id, out, now), s') && s.jobs[id].status == Running
    requires ParsePollOutput(out).status == Completed
    ensures s'.jobs[id].status == Completed <==> !s.jobs[id].expectAgentConnect
  {
    hide Persisted, ParsePollOutput;
  }

  /** The flag is not taken back, and no restart comes before it has reached the file. */
  predicate KeepsWaiting(s: State, e: Event, id: string) {
    && (e.Restart? && id in s.file ==> s.file[id].expectAgentConnect)
    && e != SetExpect(id, false)
  }

  predicate Waits(job: Job) {
    job.status == Running ==> job.expectAgentConnect
  }

  /** The agent of the job's node connected in this step, which a kill may have ended after its save. */
  predicate HelloOf(e: Event, id: string, sparkId: string) {
    var step := if e.Killed? then e.step else e;
    step.Hello? && step.id == id && step.sparkId == sparkId
  }

  lemma StepKeepsWaiting(s: State, e: Event, s': State, id: string)
    requires Inv(s) && Next(s, e, s') && id in s.jobs && Waits(s.jobs[id]) && KeepsWaiting(s, e, id) && !e.Killed?
    ensures id in s'.jobs ==> Waits(s'.jobs[id]) && s'.jobs[id].sparkId == s.jobs[id].sparkId
    ensures id in s'.jobs && s.jobs[id].status == Running && s'.jobs[id].status == Completed ==>
              HelloOf(e, id, s.jobs[id].sparkId)
  {
    hide Inv, Persisted;
    if IsOrdinary(e) {
      OrdinaryKeepsWaiting(s, e, s', id);
    } else if e.Restart? && id in s.file {
      FileKeepsNode(s, id);
    }
  }

  lemma FileKeepsNode(s: State, id: string)
    requires Inv(s) && id in s.file && id in s.jobs
    ensures s.file[id].status == s.jobs[id].status && s.file[id].sparkId == s.jobs[id].sparkId
  {
    assert SameButHello(s.file[id], s.jobs[id]);
  }

  lemma OrdinaryKeepsWaiting(s: State, e: Event, s': State, id: string)
    requires Next(s, e, s') && IsOrdinary(e) && id in s.jobs && Waits(s.jobs[id])
    ensures id in s'.jobs && Waits(s'.jobs[id]) && s'.jobs[id].sparkId == s.jobs[id].sparkId
    ensures s.jobs[id].status == Running && s'.jobs[id].status == Completed ==> HelloOf(e, id, s.jobs[id].sparkId)
  {
    hide Next, Persisted;
    var ended, job := StepShape(s, e, s');
  }

  /** A killed step has saved all flags. */
  lemma KilledKeepsWaiting(s: State, e: Event, s': State, id: string)
    requires Inv(s) && Next(s, e, s') && id in s.jobs && Waits(s.jobs[id]) && e.Killed?
    ensures id in s'.jobs ==> Waits(s'.jobs[id]) && s'.jobs[id].sparkId == s.jobs[id].sparkId
    ensures id in s'.jobs && s.jobs[id].status == Running && s'.jobs[id].status == Completed ==>
              HelloOf(e, id, s.jobs[id].sparkId)
  {
    hide Inv, Next, Waits;
    var done := KilledStep(s, e, s');
    FiredSaves(s, e.step, done);
    StepKeepsWaiting(s, e.step, done, id);
  }

  lemma FiredSaves(s: State, e: Event, s': State)
    requires Next(s, e, s') && s'.fired != s.fired && IsOrdinary(e)
    ensures forall id :: id in s'.file ==> id in s'.jobs && s'.file[id] == s'.jobs[id]
  {
    hide Next, TerminalNewest;
    var id, job := StepShape(s, e, s');
  }

  /**
    Once a running job's hello flag is set, and as long as it is not taken back nor lost by a restart before the
    file has it, the job becomes completed only by `agentConnected` for its node, whatever polls report.
   */
  lemma {:induction false} CompletedOnlyByHello(states: seq<State>, events: seq<Event>, i: nat, j: nat, id: string)
    requires IsRun(states, events) && i <= j <= |events| && id in states[i].jobs && WaitsForHello(states[i].jobs[id])
    requires forall k :: i <= k < j ==> KeepsWaiting(states[k], events[k], id)
    ensures id in states[j].jobs ==>
              Waits(states[j].jobs[id]) && states[j].jobs[id].sparkId == states[i].jobs[id].sparkId
    ensures id in states[j].jobs && states[j].jobs[id].status == Completed ==>
              exists k :: i <= k < j && HelloOf(events[k], id, states[i].jobs[id].sparkId)
    decreases j
  {
    hide Next, Inv, KeepsWaiting, HelloOf;
    if i < j {
      CompletedOnlyByHello(states, events, i, j - 1, id);
      EveryRunKeepsInv(states, events, j - 1);
      EveryRunKeepsInv(states, events, j);
      var k := j - 1;
      assert KeepsWaiting(states[k], events[k], id);
      if id in states[k].jobs {
        WaitingStep(states[k], events[k], states[j], id);
      } else {
        ForgottenIsEnded(states, events, i, k, id);
        StepForgets(states[k], events[k], states[j], id);
      }
    }
  }

  lemma WaitingStep(s: State, e: Event, s': State, id: string)
    requires Inv(s) && Next(s, e, s') && id in s.jobs && Waits(s.jobs[id]) && KeepsWaiting(s, e, id)
    ensures id in s'.jobs ==> Waits(s'.jobs[id]) && s'.jobs[id].sparkId == s.jobs[id].sparkId
    ensures id in s'.jobs && s'.jobs[id].status == Completed && s.jobs[id].status != Completed ==>
              HelloOf(e, id, s.jobs[id].sparkId)
  {
    hide Next, Inv, KeepsWaiting, HelloOf, Waits;
    if e.Killed? { KilledKeepsWaiting(s, e, s', id); } else { StepKeepsWaiting(s, e, s', id); }
    if IsTerminal(s.jobs[id]) { StepKeepsTerminal(s, e, s', id); }
  }

  /** Only terminal jobs are ever forgotten. */
  lemma {:induction false} ForgottenIsEnded(states: seq<State>, events: seq<Event>, i: nat, j: nat, id: string)
    requires IsRun(states, events) && i <= j <= |events| && id in states[i].jobs && id !in states[j].jobs
    ensures HasEnded(states[j], id)
    decreases j
  {
    hide Next, Inv;
    if i < j {
      var s, e, s' := states[j - 1], events[j - 1], states[j];
      EveryRunKeepsInv(states, events, j - 1);
      if id in s.jobs {
        StepForgetsTerminal(s, e, s', id);
      } else {
        ForgottenIsEnded(states, events, i, j - 1, id);
        StaysEnded(s, e, s', id);
      }
    }
  }

  lemma StepForgetsTerminal(s: State, e: Event, s': State, id: string)
    requires Inv(s) && Next(s, e, s') && id in s.jobs && id !in s'.jobs
    ensures HasEnded(s', id)
  {
    hide Persisted, Inv;
    if e.Killed? {
      hide Next;
      var done := KilledStep(s, e, s');
      var ended, job := StepShape(s, e.step, done);
      HookGrows(s, e.step, done);
      CutShortKeepsInv(s, done);
      UnsavedIsEnded(done, id);
      assert Calls(s', id) == Calls(done, id);
    } else if e.Restart? {
      UnsavedIsEnded(s, id);
    } else if IsOrdinary(e) {
      hide Next;
      var ended, job := StepShape(s, e, s');
    }
  }

  lemma UnsavedIsEnded(s: State, id: string)
    requires Inv(s) && id in s.jobs && id !in s.file
    ensures HasEnded(s, id) && Calls(s, id) == 1
  {
    assert Calls(s, id) == 1;
  }

  /** A restart keeps waiting for the hello exactly when the flag has reached the file. */
  lemma RestartKeepsWaitingIff(s: State, s': State, id: string)
    requires Inv(s) && Next(s, Restart, s') && id in s.jobs && WaitsForHello(s.jobs[id])
    ensures id in s'.jobs && s'.jobs[id].status == Running
    ensures WaitsForHello(s'.jobs[id]) <==> s.file[id].expectAgentConnect
  {
    assert SameButHello(s.file[id], s.jobs[id]);
  }

  /**
    Setting the flag does not save it: a restart right after the start forgets it, and the next poll completes the
    job.
   */
  lemma FlagLostByRestart(id: string, sparkId: string, now: int, later: int, out: string)
    requires ParsePollOutput(out).status == Completed
    ensures var saved := map[id := NewJob(sparkId, now)];
            var s1 := EMPTY.(jobs := map[id := NewJob(sparkId, now).(expectAgentConnect := true)], file := saved);
            var s2 := EMPTY.(jobs := saved, file := saved);
            var s3 := s2.(polls := {id});
            var done := map[id := EndedBy(NewJob(sparkId, now), ParsePollOutput(out), later)];
            var s4 := EMPTY.(jobs := done, file := done, fired := multiset{id});
            && Next(EMPTY, Start(id, sparkId, true, now), s1) && Next(s1, Restart, s2)
            && Next(s2, PollBegin(id), s3) && Next(s3, PollReply(id, out, later), s4)
            && s4.jobs[id].status == Completed
  {
    hide ParsePollOutput, Persisted, TerminalIds;
    var job, ended := NewJob(sparkId, now), EndedBy(NewJob(sparkId, now), ParsePollOutput(out), later);
    SavesOnlyJob(id, job);
    SavesOnlyJob(id, ended);
    assert map[][id := job] == map[id := job];
    assert map[id := job][id := job.(expectAgentConnect := true)] == map[id := job.(expectAgentConnect := true)];
    assert map[id := job][id := ended] == map[id := ended];
  }
}
