/**
 * The response cache of the Rust client (rs/src/inference.rs:168-194, 237-241, 690-842) as a
 * protocol: requests that register what they captured, readers that share one verification per
 * record, and clears in between.
 *
 * A record (`Arc<Record>`) is its index in `records`, a verification future its index in `jobs`;
 * both histories are kept. `id`, `finished`, `generation` and `original` of a record, and all of
 * a job but its `outcome`, never change.
 */
module RustReceipts {
  import opened Wrappers
  import opened Admission
  import opened Receipts

  datatype Record = Record(
    id: string,
    finished: nat,
    generation: nat,        // history: the generation its request began in
    original: Captured,     // history: what was registered
    captured: Option<Captured>,
    verification: Option<nat>)

  /** What a verification ended with, and the service that answered it. */
  datatype Answer = Answer(service: Service, outcome: Outcome)

  datatype Job = Job(record: nat, id: string, captured: Captured, answer: Option<Answer>)

  /** A reader between its two locks, or awaiting a verification. */
  datatype Reader = Found(record: nat) | Waiting(record: nat, job: nat)

  datatype State = State(
    now: nat,
    generation: nat,
    responses: map<string, nat>,
    records: seq<Record>,
    jobs: seq<Job>,
    senders: map<nat, nat>,       // requests under way, and the generation each began in
    readers: map<nat, Reader>)

  const INITIAL := State(0, 0, map[], [], [], map[], map[])

  datatype Step =
    | Begin(task: nat)
    | Register(task: nat, id: string, captured: Captured)
    | Clear
    | Lookup(task: nat, id: string)
    | Join(task: nat)
    | Resolve(job: nat, answer: Answer)
    | Complete(task: nat)
    | Abandon(task: nat)
    | Tick(elapsed: nat)

  datatype Reply = Silent | Registered | Duplicate | NotFound | Answered(outcome: Outcome)

  function Kept(now: nat, ttl: nat, responses: map<string, nat>, records: seq<Record>): map<string, nat> {
    map id | id in responses && responses[id] < |records| && now - records[responses[id]].finished < ttl
      :: responses[id]
  }

  /** A response is retained once, under an ID nobody holds, unless the cache was cleared meanwhile. */
  function Registering(s: State, ttl: nat, task: nat, id: string, captured: Captured): (State, Reply) {
    if task !in s.senders then (s, Silent)
    else
      var over := s.(senders := s.senders - {task});
      if s.senders[task] != s.generation then (over, Registered)
      else
        var kept := over.(responses := Kept(s.now, ttl, s.responses, s.records));
        if ttl == 0 then (kept, Registered)
        else if id in kept.responses then (kept, Duplicate)
        else
          (kept.(responses := kept.responses[id := |s.records|],
                 records := s.records + [Record(id, s.now, s.senders[task], captured, Some(captured), None)]),
           Registered)
  }

  function LookingUp(s: State, ttl: nat, task: nat, id: string): (State, Reply) {
    if task in s.readers then (s, Silent)
    else
      var kept := s.(responses := Kept(s.now, ttl, s.responses, s.records));
      if id in kept.responses then (kept.(readers := s.readers[task := Found(kept.responses[id])]), Silent)
      else (kept, NotFound)
  }

  /** The bytes that must still be there when a new verification starts. */
  predicate CanJoin(s: State, task: nat) {
    && task in s.readers
    && s.readers[task].Found?
    && s.readers[task].record < |s.records|
    && (s.records[s.readers[task].record].verification.None? ==> s.records[s.readers[task].record].captured.Some?)
  }

  function Joining(s: State, task: nat): State {
    if !CanJoin(s, task) then s
    else
      var r := s.readers[task].record;
      var record := s.records[r];
      match record.verification
      case Some(job) => s.(readers := s.readers[task := Waiting(r, job)])
      case None =>
        s.(records := s.records[r := record.(verification := Some(|s.jobs|))],
           jobs := s.jobs + [Job(r, record.id, record.captured.value, None)],
           readers := s.readers[task := Waiting(r, |s.jobs|)])
  }

  predicate CanResolve(algo: Algo, s: State, job: nat, answer: Answer) {
    && job < |s.jobs|
    && s.jobs[job].answer.None?
    && (exists t :: t in s.readers && s.readers[t].Waiting? && s.readers[t].job == job)
    && answer.outcome == Examine(answer.service, algo, s.jobs[job].id, s.jobs[job].captured)
  }

  function Resolving(algo: Algo, s: State, job: nat, answer: Answer): State {
    if CanResolve(algo, s, job, answer) then
      s.(jobs := s.jobs[job := s.jobs[job].(answer := Some(answer))])
    else s
  }

  predicate CanComplete(s: State, task: nat) {
    && task in s.readers
    && s.readers[task].Waiting?
    && s.readers[task].record < |s.records|
    && s.readers[task].job < |s.jobs|
    && s.jobs[s.readers[task].job].answer.Some?
  }

  /** Only the record's current verification may touch it: forget a retryable one, release the bytes of any other. */
  function Completing(s: State, task: nat): (State, Reply) {
    if !CanComplete(s, task) then (s, Silent)
    else
      var Waiting(r, job) := s.readers[task];
      var outcome := s.jobs[job].answer.value.outcome;
      var record := s.records[r];
      var after :=
        if record.verification != Some(job) then record
        else if outcome.Retryable? then record.(verification := None)
        else record.(captured := None);
      (s.(records := s.records[r := after], readers := s.readers - {task}), Answered(outcome))
  }

  function Next(algo: Algo, ttl: nat, s: State, step: Step): (State, Reply) {
    match step
    case Begin(task) => (if task in s.senders then s else s.(senders := s.senders[task := s.generation]), Silent)
    case Register(task, id, captured) => Registering(s, ttl, task, id, captured)
    case Clear => (s.(generation := s.generation + 1, responses := map[]), Silent)
    case Lookup(task, id) => LookingUp(s, ttl, task, id)
    case Join(task) => (Joining(s, task), Silent)
    case Resolve(job, answer) => (Resolving(algo, s, job, answer), Silent)
    case Complete(task) => Completing(s, task)
    case Abandon(task) => (s.(senders := s.senders - {task}, readers := s.readers - {task}), Silent)
    case Tick(elapsed) => (s.(now := s.now + elapsed), Silent)
  }

  function Run(algo: Algo, ttl: nat, s: State, steps: seq<Step>): State
    decreases |steps|
  {
    if steps == [] then s else Run(algo, ttl, Next(algo, ttl, s, steps[0]).0, steps[1..])
  }

  // ----- The invariant -----

  predicate Terminal(job: Job) {
    job.answer.Some? && !job.answer.value.outcome.Retryable?
  }

  /** A record without a verification holds its bytes; bytes are only missing after a terminal outcome. */
  ghost predicate RecordSound(jobs: seq<Job>, r: nat, record: Record) {
    && (record.captured.Some? ==> record.captured.value == record.original)
    && (record.verification.Some? ==> record.verification.value < |jobs| && jobs[record.verification.value].record == r)
    && (record.captured.None? ==> record.verification.Some? && Terminal(jobs[record.verification.value]))
  }

  ghost predicate RecordsSound(jobs: seq<Job>, records: seq<Record>) {
    forall r :: 0 <= r < |records| ==> RecordSound(jobs, r, records[r])
  }

  /** A verification that is not its record's current one has ended, and was retryable. */
  ghost predicate JobSound(records: seq<Record>, j: nat, job: Job) {
    && job.record < |records|
    && job.id == records[job.record].id
    && job.captured == records[job.record].original
    && (records[job.record].verification == Some(j) || (job.answer.Some? && job.answer.value.outcome.Retryable?))
  }

  ghost predicate JobsSound(records: seq<Record>, jobs: seq<Job>) {
    forall j :: 0 <= j < |jobs| ==> JobSound(records, j, jobs[j])
  }

  ghost predicate AnswersSound(algo: Algo, jobs: seq<Job>) {
    forall j :: 0 <= j < |jobs| && jobs[j].answer.Some? ==>
      jobs[j].answer.value.outcome == Examine(jobs[j].answer.value.service, algo, jobs[j].id, jobs[j].captured)
  }

  ghost predicate ReaderSound(count: nat, jobs: seq<Job>, reader: Reader) {
    && reader.record < count
    && (reader.Waiting? ==> reader.job < |jobs| && jobs[reader.job].record == reader.record)
  }

  ghost predicate ReadersSound(count: nat, jobs: seq<Job>, readers: map<nat, Reader>) {
    forall t :: t in readers ==> ReaderSound(count, jobs, readers[t])
  }

  ghost predicate Retained(now: nat, generation: nat, record: Record, id: string) {
    record.id == id && record.generation == generation && record.finished <= now
  }

  ghost predicate ResponsesSound(now: nat, generation: nat, records: seq<Record>, responses: map<string, nat>) {
    forall id :: id in responses ==>
      responses[id] < |records| && Retained(now, generation, records[responses[id]], id)
  }

  ghost predicate SendersSound(generation: nat, senders: map<nat, nat>) {
    forall t :: t in senders ==> senders[t] <= generation
  }

  ghost predicate Invariant(algo: Algo, ttl: nat, s: State) {
    && RecordsSound(s.jobs, s.records)
    && JobsSound(s.records, s.jobs)
    && AnswersSound(algo, s.jobs)
    && ReadersSound(|s.records|, s.jobs, s.readers)
    && ResponsesSound(s.now, s.generation, s.records, s.responses)
    && SendersSound(s.generation, s.senders)
    && (ttl == 0 ==> s.responses == map[])
  }

  lemma RegisterKeeps(algo: Algo, ttl: nat, s: State, task: nat, id: string, captured: Captured)
    requires Invariant(algo, ttl, s)
    ensures Invariant(algo, ttl, Registering(s, ttl, task, id, captured).0)
  {
    hide AnswersSound, RecordSound, JobSound;
    var t := Registering(s, ttl, task, id, captured).0;
    assert SendersSound(t.generation, t.senders);
    if t.records != s.records {
      RecordAddedKeeps(s, t.records[|s.records|]);
    }
  }

  lemma RecordAddedKeeps(s: State, record: Record)
    requires RecordsSound(s.jobs, s.records) && JobsSound(s.records, s.jobs)
    requires record.captured == Some(record.original) && record.verification.None?
    ensures RecordsSound(s.jobs, s.records + [record]) && JobsSound(s.records + [record], s.jobs)
  {
    forall j | 0 <= j < |s.jobs| ensures JobSound(s.records + [record], j, s.jobs[j]) {
      assert JobSound(s.records, j, s.jobs[j]);
    }
  }

  lemma LookupKeeps(algo: Algo, ttl: nat, s: State, task: nat, id: string)
    requires Invariant(algo, ttl, s)
    ensures Invariant(algo, ttl, LookingUp(s, ttl, task, id).0)
  {
    hide RecordsSound, JobsSound, AnswersSound, SendersSound, Retained;
  }

  lemma JoinKeeps(algo: Algo, ttl: nat, s: State, task: nat)
    requires Invariant(algo, ttl, s)
    ensures Invariant(algo, ttl, Joining(s, task))
  {
    hide AnswersSound, SendersSound;
    if CanJoin(s, task) {
      var t := Joining(s, task);
      var r := s.readers[task].record;
      assert RecordSound(s.jobs, r, s.records[r]);
      if s.records[r].verification.None? {
        assert forall j :: 0 <= j < |s.jobs| ==> t.jobs[j] == s.jobs[j];
        NewJobKeeps(algo, s, t, r);
      }
    }
  }

  lemma NewJobKeeps(algo: Algo, s: State, t: State, r: nat)
    requires r < |s.records|
    requires RecordsSound(s.jobs, s.records) && JobsSound(s.records, s.jobs) && AnswersSound(algo, s.jobs)
    requires s.records[r].verification.None? && s.records[r].captured.Some?
    requires t.records == s.records[r := s.records[r].(verification := Some(|s.jobs|))]
    requires t.jobs == s.jobs + [Job(r, s.records[r].id, s.records[r].captured.value, None)]
    ensures RecordsSound(t.jobs, t.records) && JobsSound(t.records, t.jobs) && AnswersSound(algo, t.jobs)
  {
    assert RecordSound(s.jobs, r, s.records[r]);
    forall k | 0 <= k < |t.records| ensures RecordSound(t.jobs, k, t.records[k]) {
      assert RecordSound(s.jobs, k, s.records[k]);
    }
    forall j | 0 <= j < |t.jobs| ensures JobSound(t.records, j, t.jobs[j]) {
      if j < |s.jobs| {
        assert JobSound(s.records, j, s.jobs[j]);
      }
    }
  }

  lemma ResolveKeeps(algo: Algo, ttl: nat, s: State, job: nat, answer: Answer)
    requires Invariant(algo, ttl, s)
    ensures Invariant(algo, ttl, Resolving(algo, s, job, answer))
  {
    hide ResponsesSound, SendersSound, Examine;
    if CanResolve(algo, s, job, answer) {
      var jobs := Resolving(algo, s, job, answer).jobs;
      forall r | 0 <= r < |s.records| ensures RecordSound(jobs, r, s.records[r]) {
        assert RecordSound(s.jobs, r, s.records[r]);
      }
      forall j | 0 <= j < |jobs| ensures JobSound(s.records, j, jobs[j]) {
        assert JobSound(s.records, j, s.jobs[j]);
      }
      forall t | t in s.readers ensures ReaderSound(|s.records|, jobs, s.readers[t]) {
        assert ReaderSound(|s.records|, s.jobs, s.readers[t]);
      }
    }
  }

  lemma CompleteKeeps(algo: Algo, ttl: nat, s: State, task: nat)
    requires Invariant(algo, ttl, s)
    ensures Invariant(algo, ttl, Completing(s, task).0)
  {
    hide AnswersSound, SendersSound;
    if CanComplete(s, task) {
      var t := Completing(s, task).0;
      var r := s.readers[task].record;
      assert ReaderSound(|s.records|, s.jobs, s.readers[task]);
      forall k | 0 <= k < |s.records| ensures RecordSound(s.jobs, k, t.records[k]) {
        assert RecordSound(s.jobs, k, s.records[k]);
      }
      forall j | 0 <= j < |s.jobs| ensures JobSound(t.records, j, s.jobs[j]) {
        assert JobSound(s.records, j, s.jobs[j]);
      }
    }
  }

  lemma StepKeeps(algo: Algo, ttl: nat, s: State, step: Step)
    requires Invariant(algo, ttl, s)
    ensures Invariant(algo, ttl, Next(algo, ttl, s, step).0)
  {
    hide Registering, LookingUp, Joining, Resolving, Completing, RecordsSound, JobsSound, AnswersSound;
    match step
    case Register(task, id, captured) => RegisterKeeps(algo, ttl, s, task, id, captured);
    case Lookup(task, id) => LookupKeeps(algo, ttl, s, task, id);
    case Join(task) => JoinKeeps(algo, ttl, s, task);
    case Resolve(job, answer) => ResolveKeeps(algo, ttl, s, job, answer);
    case Complete(task) => CompleteKeeps(algo, ttl, s, task);
    case _ =>
  }

  lemma {:induction false} RunKeeps(algo: Algo, ttl: nat, s: State, steps: seq<Step>)
    requires Invariant(algo, ttl, s)
    ensures Invariant(algo, ttl, Run(algo, ttl, s, steps))
    decreases |steps|
  {
    hide Invariant, Next;
    if steps != [] {
      StepKeeps(algo, ttl, s, steps[0]);
      RunKeeps(algo, ttl, Next(algo, ttl, s, steps[0]).0, steps[1..]);
    }
  }

  ghost predicate Reachable(algo: Algo, ttl: nat, s: State) {
    exists steps :: Run(algo, ttl, INITIAL, steps) == s
  }

  lemma ReachableKeeps(algo: Algo, ttl: nat, s: State)
    requires Reachable(algo, ttl, s)
    ensures Invariant(algo, ttl, s)
  {
    var steps :| Run(algo, ttl, INITIAL, steps) == s;
    RunKeeps(algo, ttl, INITIAL, steps);
  }

  // ----- What every run has -----

  /** The `expect` of the second lock never fires: a reader always finds a verification or the bytes. */
  lemma ExpectNeverFires(algo: Algo, ttl: nat, s: State, task: nat)
    requires Reachable(algo, ttl, s)
    requires task in s.readers && s.readers[task].Found?
    ensures CanJoin(s, task)
  {
    ReachableKeeps(algo, ttl, s);
    var r := s.readers[task].record;
    assert ReaderSound(|s.records|, s.jobs, s.readers[task]);
    assert RecordSound(s.jobs, r, s.records[r]);
  }

  /** At most one verification of a record is ever unfinished. */
  lemma SingleVerification(algo: Algo, ttl: nat, s: State, i: nat, j: nat)
    requires Reachable(algo, ttl, s)
    requires i < |s.jobs| && j < |s.jobs| && s.jobs[i].record == s.jobs[j].record
    requires s.jobs[i].answer.None? && s.jobs[j].answer.None?
    ensures i == j
  {
    ReachableKeeps(algo, ttl, s);
    assert JobSound(s.records, i, s.jobs[i]) && JobSound(s.records, j, s.jobs[j]);
  }

  /**
   * A terminal outcome releases the bytes in the step that reports it, whichever reader reports it
   * first; a retryable one leaves them, so that the next reader can start again.
   */
  lemma TerminalReleases(algo: Algo, ttl: nat, s: State, task: nat)
    requires Reachable(algo, ttl, s)
    requires CanComplete(s, task)
    ensures var Waiting(r, job) := s.readers[task];
            var after := Completing(s, task).0.records[r];
            if Terminal(s.jobs[job]) then after.captured == None && after.verification == Some(job)
            else after.captured == s.records[r].captured && after.verification != Some(job)
  {
    ReachableKeeps(algo, ttl, s);
    var Waiting(r, job) := s.readers[task];
    assert ReaderSound(|s.records|, s.jobs, s.readers[task]);
    assert JobSound(s.records, job, s.jobs[job]);
  }

  /** What a step may do to the histories: records keep what they are, answers stay. */
  ghost predicate Grown(s: State, t: State) {
    && |s.records| <= |t.records|
    && |s.jobs| <= |t.jobs|
    && (forall r :: 0 <= r < |s.records| ==> SameRecord(s.records[r], t.records[r]))
    && (forall j :: 0 <= j < |s.jobs| && s.jobs[j].answer.Some? ==> t.jobs[j] == s.jobs[j])
    && (forall j :: 0 <= j < |s.jobs| ==> t.jobs[j].record == s.jobs[j].record)
    && s.generation <= t.generation
    && s.now <= t.now
  }

  ghost predicate SameRecord(a: Record, b: Record) {
    a.id == b.id && a.finished == b.finished && a.generation == b.generation && a.original == b.original
  }

  lemma StepGrows(algo: Algo, ttl: nat, s: State, step: Step)
    ensures Grown(s, Next(algo, ttl, s, step).0)
  {
    hide Examine, Kept;
  }

  lemma {:induction false} RunGrows(algo: Algo, ttl: nat, s: State, steps: seq<Step>)
    ensures Grown(s, Run(algo, ttl, s, steps))
    decreases |steps|
  {
    hide Next;
    if steps != [] {
      StepGrows(algo, ttl, s, steps[0]);
      RunGrows(algo, ttl, Next(algo, ttl, s, steps[0]).0, steps[1..]);
    }
  }

  /**
   * A terminal outcome is final: after any further steps the record still points at it, and every
   * other verification of that record, earlier or later, was retryable.
   */
  lemma TerminalIsFinal(algo: Algo, ttl: nat, s: State, job: nat, steps: seq<Step>)
    requires Reachable(algo, ttl, s)
    requires job < |s.jobs| && Terminal(s.jobs[job])
    ensures var t := Run(algo, ttl, s, steps);
            && |s.jobs| <= |t.jobs| && t.jobs[job] == s.jobs[job]
            && s.jobs[job].record < |t.records|
            && t.records[s.jobs[job].record].verification == Some(job)
            && forall j :: 0 <= j < |t.jobs| && t.jobs[j].record == s.jobs[job].record && Terminal(t.jobs[j]) ==> j == job
  {
    ReachableKeeps(algo, ttl, s);
    RunKeeps(algo, ttl, s, steps);
    RunGrows(algo, ttl, s, steps);
    var t := Run(algo, ttl, s, steps);
    assert JobSound(t.records, job, t.jobs[job]);
    forall j | 0 <= j < |t.jobs| && t.jobs[j].record == s.jobs[job].record && Terminal(t.jobs[j]) ensures j == job {
      assert JobSound(t.records, j, t.jobs[j]);
    }
  }

  /** A reader that found a record found the one registered under the ID it asked for. */
  lemma LookupFindsItsId(algo: Algo, ttl: nat, s: State, task: nat, id: string)
    requires Reachable(algo, ttl, s) && task !in s.readers
    ensures var (t, reply) := LookingUp(s, ttl, task, id);
            if reply == NotFound then task !in t.readers && (id in s.responses ==> id !in t.responses)
            else task in t.readers && t.readers[task].record < |t.records|
                 && t.records[t.readers[task].record].id == id
                 && t.now < t.records[t.readers[task].record].finished + ttl
  {
    ReachableKeeps(algo, ttl, s);
  }

  /** A reader is only told that a response is proved if the bytes registered under its ID are. */
  lemma ProofsAreOfRegisteredBytes(algo: Algo, ttl: nat, s: State, task: nat, outcome: Outcome)
    requires Reachable(algo, ttl, s)
    requires Completing(s, task).1 == Answered(outcome) && outcome.Proved?
    ensures CanComplete(s, task)
    ensures exists service :: ProvesBytes(service, algo, s.records[s.readers[task].record].id,
                                          s.records[s.readers[task].record].original, outcome)
  {
    ReachableKeeps(algo, ttl, s);
    var Waiting(r, job) := s.readers[task];
    assert ReaderSound(|s.records|, s.jobs, s.readers[task]);
    assert JobSound(s.records, job, s.jobs[job]);
    ExamineMeaning(s.jobs[job].answer.value.service, algo, s.jobs[job].id, s.jobs[job].captured);
  }

  /** After a clear, whatever is retained was begun after it: an earlier request can no longer register. */
  lemma ClearedStaysGone(algo: Algo, ttl: nat, s: State, steps: seq<Step>, id: string)
    requires Reachable(algo, ttl, s)
    requires id in Run(algo, ttl, Next(algo, ttl, s, Clear).0, steps).responses
    ensures var t := Run(algo, ttl, Next(algo, ttl, s, Clear).0, steps);
            && t.responses[id] < |t.records|
            && t.records[t.responses[id]].id == id
            && s.generation < t.records[t.responses[id]].generation == t.generation
  {
    ReachableKeeps(algo, ttl, s);
    StepKeeps(algo, ttl, s, Clear);
    var cleared := Next(algo, ttl, s, Clear).0;
    RunKeeps(algo, ttl, cleared, steps);
    RunGrows(algo, ttl, cleared, steps);
    var t := Run(algo, ttl, cleared, steps);
    assert Retained(t.now, t.generation, t.records[t.responses[id]], id);
  }

  /** The steps a request takes itself. */
  predicate Names(step: Step, task: nat) {
    match step
    case Begin(t) => t == task
    case Register(t, _, _) => t == task
    case Abandon(t) => t == task
    case _ => false
  }

  lemma {:induction false} OthersLeaveItSending(algo: Algo, ttl: nat, s: State, task: nat, steps: seq<Step>)
    requires task in s.senders
    requires forall i :: 0 <= i < |steps| ==> !Names(steps[i], task)
    ensures var t := Run(algo, ttl, s, steps);
            task in t.senders && t.senders[task] == s.senders[task] && s.generation <= t.generation
    decreases |steps|
  {
    if steps != [] {
      var t := Next(algo, ttl, s, steps[0]).0;
      assert !Names(steps[0], task);
      OneLeavesItSending(algo, ttl, s, task, steps[0]);
      forall i | 0 <= i < |steps[1..]| ensures !Names(steps[1..][i], task) {
        assert !Names(steps[i + 1], task);
      }
      OthersLeaveItSending(algo, ttl, t, task, steps[1..]);
    }
  }

  lemma OneLeavesItSending(algo: Algo, ttl: nat, s: State, task: nat, step: Step)
    requires task in s.senders && !Names(step, task)
    ensures var t := Next(algo, ttl, s, step).0;
            task in t.senders && t.senders[task] == s.senders[task] && s.generation <= t.generation
  {
    hide Examine, Kept;
  }

  /** A request that a clear overtakes retains nothing, however long after the clear it ends. */
  lemma OvertakenIsDropped(algo: Algo, ttl: nat, s: State, task: nat, steps: seq<Step>, id: string, captured: Captured)
    requires Reachable(algo, ttl, s) && task in s.senders
    requires forall i :: 0 <= i < |steps| ==> !Names(steps[i], task)
    ensures var t := Run(algo, ttl, Next(algo, ttl, s, Clear).0, steps);
            Registering(t, ttl, task, id, captured) == (t.(senders := t.senders - {task}), Registered)
  {
    ReachableKeeps(algo, ttl, s);
    OthersLeaveItSending(algo, ttl, Next(algo, ttl, s, Clear).0, task, steps);
  }

  /**
   * Until it expires or the cache is cleared, an ID stays with the record, hence the bytes and
   * session, it was registered for, whatever else is registered meanwhile.
   */
  lemma {:induction false} NeverRebound(algo: Algo, ttl: nat, s: State, steps: seq<Step>, id: string)
    requires Invariant(algo, ttl, s)
    requires id in s.responses
    requires Clear !in steps
    requires Run(algo, ttl, s, steps).now < s.records[s.responses[id]].finished + ttl
    ensures var t := Run(algo, ttl, s, steps);
            && id in t.responses && t.responses[id] == s.responses[id] < |t.records|
            && SameRecord(s.records[s.responses[id]], t.records[s.responses[id]])
    decreases |steps|
  {
    hide RecordsSound, JobsSound, AnswersSound, ReadersSound, Next;
    RunGrows(algo, ttl, s, steps);
    if steps != [] {
      var t := Next(algo, ttl, s, steps[0]).0;
      StepKeeps(algo, ttl, s, steps[0]);
      StepGrows(algo, ttl, s, steps[0]);
      RunGrows(algo, ttl, t, steps[1..]);
      NotReboundByStep(algo, ttl, s, steps[0], id);
      NeverRebound(algo, ttl, t, steps[1..], id);
    }
  }

  lemma NotReboundByStep(algo: Algo, ttl: nat, s: State, step: Step, id: string)
    requires ResponsesSound(s.now, s.generation, s.records, s.responses)
    requires id in s.responses && step != Clear
    requires Next(algo, ttl, s, step).0.now < s.records[s.responses[id]].finished + ttl
    ensures id in Next(algo, ttl, s, step).0.responses
            && Next(algo, ttl, s, step).0.responses[id] == s.responses[id]
  {
    hide Joining, Resolving, Examine;
    assert s.responses[id] < |s.records| && s.records[s.responses[id]].finished <= s.now;
    match step
    case Join(task) => JoinLeavesResponses(s, task);
    case Resolve(job, answer) => ResolveLeavesResponses(algo, s, job, answer);
    case _ =>
  }

  lemma JoinLeavesResponses(s: State, task: nat)
    ensures Joining(s, task).responses == s.responses
  {
  }

  lemma ResolveLeavesResponses(algo: Algo, s: State, job: nat, answer: Answer)
    ensures Resolving(algo, s, job, answer).responses == s.responses
  {
  }

  /** And a second registration under an ID still held is refused, the first keeping its bytes. */
  lemma DuplicateRefused(algo: Algo, ttl: nat, s: State, task: nat, id: string, captured: Captured)
    requires Reachable(algo, ttl, s)
    requires task in s.senders && s.senders[task] == s.generation
    ensures Registering(s, ttl, task, id, captured).1 == Duplicate <==>
              id in s.responses && s.responses[id] < |s.records|
              && s.now < s.records[s.responses[id]].finished + ttl
    ensures Registering(s, ttl, task, id, captured).1 == Duplicate ==>
              Registering(s, ttl, task, id, captured).0.records == s.records
  {
    ReachableKeeps(algo, ttl, s);
  }

  // ----- From registration to the answer -----

  /**
   * A response whose request was not overtaken by a clear is retained under an ID nobody holds,
   * and every reader that asks for the ID before it expires finds it, whatever happens in between
   * short of a clear: the record of the very bytes, session and flag that were handed in. It still
   * holds them unless a verification of them has ended for good.
   */
  lemma RegisteredIsFound(algo: Algo, ttl: nat, s: State, task: nat, id: string, captured: Captured, steps: seq<Step>,
                          reader: nat)
    requires Reachable(algo, ttl, s)
    requires task in s.senders && s.senders[task] == s.generation && ttl > 0
    requires Registering(s, ttl, task, id, captured).1 != Duplicate
    requires Clear !in steps
    ensures var after := Registering(s, ttl, task, id, captured).0;
            && after.records == s.records + [Record(id, s.now, s.generation, captured, Some(captured), None)]
            && Registering(s, ttl, task, id, captured).1 == Registered
    ensures var r := |s.records|;
            var t := Run(algo, ttl, Registering(s, ttl, task, id, captured).0, steps);
            t.now < s.now + ttl && reader !in t.readers ==>
              var (found, reply) := LookingUp(t, ttl, reader, id);
              && reply == Silent && reader in found.readers && found.readers[reader] == Found(r)
              && r < |found.records| && found.records[r].id == id && found.records[r].original == captured
              && match found.records[r].captured
                 case Some(kept) => kept == captured
                 case None => found.records[r].verification.Some? && found.records[r].verification.value < |found.jobs|
                              && Terminal(found.jobs[found.records[r].verification.value])
  {
    hide Reachable, RecordsSound, JobsSound, AnswersSound, ReadersSound, ResponsesSound, SendersSound, Next;
    ReachableKeeps(algo, ttl, s);
    RegisterKeeps(algo, ttl, s, task, id, captured);
    var after := Registering(s, ttl, task, id, captured).0;
    var t := Run(algo, ttl, after, steps);
    RunKeeps(algo, ttl, after, steps);
    if t.now < s.now + ttl && reader !in t.readers {
      NeverRebound(algo, ttl, after, steps, id);
      HeldBytes(t, |s.records|);
    }
  }

  lemma HeldBytes(s: State, r: nat)
    requires RecordsSound(s.jobs, s.records) && r < |s.records|
    ensures match s.records[r].captured
            case Some(kept) => kept == s.records[r].original
            case None => s.records[r].verification.Some? && s.records[r].verification.value < |s.jobs|
                         && Terminal(s.jobs[s.records[r].verification.value])
  {
    assert RecordSound(s.jobs, r, s.records[r]);
  }

  /**
   * A reader that found a record waits, after its second lock, for a verification of that record:
   * the one there is, or a new one of the bytes registered, under the ID they were registered for.
   */
  lemma JoinVerifiesTheRecord(algo: Algo, ttl: nat, s: State, task: nat)
    requires Reachable(algo, ttl, s) && task in s.readers && s.readers[task].Found?
    ensures var r := s.readers[task].record;
            var t := Joining(s, task);
            && r < |s.records| && task in t.readers && t.readers[task].Waiting? && t.readers[task].record == r
            && t.readers[task].job < |t.jobs|
            && t.jobs[t.readers[task].job].id == s.records[r].id
            && t.jobs[t.readers[task].job].captured == s.records[r].original
            && match s.records[r].verification
               case Some(job) => t.readers[task].job == job && t.jobs == s.jobs
               case None => t.readers[task].job == |s.jobs| && t.jobs[|s.jobs|].answer == None && |t.jobs| == |s.jobs| + 1
  {
    ReachableKeeps(algo, ttl, s);
    ExpectNeverFires(algo, ttl, s, task);
    var r := s.readers[task].record;
    assert RecordSound(s.jobs, r, s.records[r]);
    if s.records[r].verification.Some? {
      assert JobSound(s.records, s.records[r].verification.value, s.jobs[s.records[r].verification.value]);
    }
  }

  /**
   * And a waiting reader is answered: its verification has ended, or whatever the service says it
   * can end, with the examination of the bytes registered; and then its outcome is the reply.
   */
  lemma WaitingIsAnswered(algo: Algo, ttl: nat, s: State, task: nat, service: Service)
    requires Reachable(algo, ttl, s) && task in s.readers && s.readers[task].Waiting?
    ensures s.readers[task].record < |s.records| && s.readers[task].job < |s.jobs|
    ensures var record := s.records[s.readers[task].record];
            match s.jobs[s.readers[task].job].answer
            case Some(answer) =>
              && Completing(s, task).1 == Answered(answer.outcome)
              && answer.outcome == Examine(answer.service, algo, record.id, record.original)
            case None =>
              var outcome := Examine(service, algo, record.id, record.original);
              var t := Resolving(algo, s, s.readers[task].job, Answer(service, outcome));
              task in t.readers && Completing(t, task).1 == Answered(outcome)
  {
    hide Examine;
    ReachableKeeps(algo, ttl, s);
    var Waiting(r, job) := s.readers[task];
    assert ReaderSound(|s.records|, s.jobs, s.readers[task]);
    assert JobSound(s.records, job, s.jobs[job]);
  }

  // ----- The shared state as the client holds it -----

  lemma {:induction false} RunSnoc(algo: Algo, ttl: nat, s: State, steps: seq<Step>, last: Step)
    ensures Run(algo, ttl, s, steps + [last]) == Next(algo, ttl, Run(algo, ttl, s, steps), last).0
    decreases |steps|
  {
    hide Next;
    if steps == [] {
      assert [] + [last] == [last] && [last][1..] == [];
    } else {
      RunSnoc(algo, ttl, Next(algo, ttl, s, steps[0]).0, steps[1..], last);
      assert (steps + [last])[1..] == steps[1..] + [last];
    }
  }

  lemma ReachableNext(algo: Algo, ttl: nat, s: State, step: Step)
    requires Reachable(algo, ttl, s)
    ensures Reachable(algo, ttl, Next(algo, ttl, s, step).0)
  {
    hide Next;
    var steps :| Run(algo, ttl, INITIAL, steps) == s;
    RunSnoc(algo, ttl, INITIAL, steps, step);
  }

  /** The client's state is always one some run leads to, so what holds in every run holds for it. */
  class ResponseCache {
    const algo: Algo
    const ttl: nat
    var now: nat
    var generation: nat
    var responses: map<string, nat>
    var records: seq<Record>
    var jobs: seq<Job>
    var senders: map<nat, nat>
    var readers: map<nat, Reader>

    ghost function View(): State
      reads this
    {
      State(now, generation, responses, records, jobs, senders, readers)
    }

    ghost predicate Valid()
      reads this
    {
      Reachable(algo, ttl, View())
    }

    constructor (algo: Algo, ttl: nat)
      ensures Valid() && View() == INITIAL && this.algo == algo && this.ttl == ttl
    {
      this.algo, this.ttl, now, generation := algo, ttl, 0, 0;
      responses, records, jobs, senders, readers := map[], [], [], map[], map[];
      new;
      assert Run(algo, ttl, INITIAL, []) == INITIAL;
    }

    method Clear()
      requires Valid()
      modifies this
      ensures Valid() && (View(), Silent) == Next(algo, ttl, old(View()), Step.Clear)
    {
      hide Reachable;
      ReachableNext(algo, ttl, View(), Step.Clear);
      generation := generation + 1;
      responses := map[];
    }

    /** A duplicate is refused only while the ID's record is live, and changes no record. */
    method Register(task: nat, id: string, captured: Captured) returns (reply: Reply)
      requires Valid() && task in senders
      modifies this
      ensures Valid() && (View(), reply) == Registering(old(View()), ttl, task, id, captured)
      ensures reply == Duplicate ==> records == old(records) && id in responses
      ensures reply != Duplicate && old(senders[task]) == generation && ttl > 0 ==>
                && id in responses && responses[id] == |old(records)| < |records|
                && records[responses[id]] == Record(id, now, generation, captured, Some(captured), None)
    {
      hide Reachable;
      ReachableNext(algo, ttl, View(), Step.Register(task, id, captured));
      var began := senders[task];
      senders := senders - {task};
      if began != generation {
        return Registered;
      }
      responses := Kept(now, ttl, responses, records);
      if ttl == 0 {
        return Registered;
      }
      if id in responses {
        return Duplicate;
      }
      responses := responses[id := |records|];
      records := records + [Record(id, now, began, captured, Some(captured), None)];
      reply := Registered;
    }

    /** The first lock of `verify_response`: what is found was registered under this ID and has not expired. */
    method Lookup(task: nat, id: string) returns (reply: Reply)
      requires Valid() && task !in readers
      modifies this
      ensures Valid() && (View(), reply) == LookingUp(old(View()), ttl, task, id)
      ensures reply != NotFound ==>
                && task in readers && readers[task].record < |records|
                && records[readers[task].record].id == id && now < records[readers[task].record].finished + ttl
    {
      hide Reachable;
      ReachableNext(algo, ttl, View(), Step.Lookup(task, id));
      LookupFindsItsId(algo, ttl, View(), task, id);
      responses := Kept(now, ttl, responses, records);
      if id !in responses {
        return NotFound;
      }
      readers := readers[task := Found(responses[id])];
      reply := Silent;
    }

    /** The second lock of `verify_response`. Its `expect` is the `.value` below, and cannot fail. */
    method Join(task: nat)
      requires Valid() && task in readers && readers[task].Found?
      modifies this
      ensures Valid() && View() == Joining(old(View()), task)
      ensures task in readers && readers[task].Waiting? && readers[task].record == old(readers[task].record)
    {
      hide Reachable;
      ReachableNext(algo, ttl, View(), Step.Join(task));
      ExpectNeverFires(algo, ttl, View(), task);
      var r := readers[task].record;
      if records[r].verification.None? {
        var captured := records[r].captured.value;
        var job := |jobs|;
        jobs := jobs + [Job(r, records[r].id, captured, None)];
        records := records[r := records[r].(verification := Some(job))];
      }
      readers := readers[task := Waiting(r, records[r].verification.value)];
    }

    /** A response is only reported proved if the bytes registered under its ID are. */
    method Complete(task: nat) returns (reply: Reply)
      requires Valid() && CanComplete(View(), task)
      modifies this
      ensures Valid() && (View(), reply) == Completing(old(View()), task)
      ensures reply.Answered?
      ensures reply.outcome.Proved? ==>
                exists service :: ProvesBytes(service, algo, old(records[readers[task].record].id),
                                              old(records[readers[task].record].original), reply.outcome)
    {
      hide Reachable;
      ghost var before := View();
      ReachableNext(algo, ttl, before, Step.Complete(task));
      var Waiting(r, job) := readers[task];
      var outcome := jobs[job].answer.value.outcome;
      if outcome.Proved? {
        ProofsAreOfRegisteredBytes(algo, ttl, before, task, outcome);
      }
      if records[r].verification == Some(job) {
        if outcome.Retryable? {
          records := records[r := records[r].(verification := None)];
        } else {
          records := records[r := records[r].(captured := None)];
        }
      }
      readers := readers - {task};
      assert records == before.records[r := records[r]];
      reply := Answered(outcome);
    }
  }
}
