/**
 * The Go client (go/client.go:16-46, 127-178, 206-255, 419-502, 649-723) as a protocol. Everything
 * it shares is guarded by one mutex, so its steps are the critical sections; session creations
 * and verifications run in goroutines that always finish.
 *
 * A `pendingSession` is its index in `creations`, a `responseRecord` its index in `records`, a
 * `pendingResponse` its index in `jobs`. Histories are kept.
 */
module GoClient {
  import opened Bytes
  import opened Wrappers
  import opened Admission
  import opened Receipts

  datatype Config = Config(options: Options, attestationTtl: nat, responseTtl: nat)

  /** What a creation ended with, and what the world had answered to it. */
  datatype Made = Made(world: World, result: Result<Session>)

  datatype Creation = Creation(model: string, made: Option<Made>)

  /** `creation` records, for the proofs, where the entry came from. */
  datatype Entry = Entry(expires: nat, session: Session, creation: nat)

  /** A `RoundTrip` under way; `generation` was read when it began. */
  datatype Task =
    | Starting(model: string, generation: nat)
    | Waiting(model: string, generation: nat, creation: nat)
    | Ready(model: string, generation: nat, session: Session)
    | Sent(model: string, generation: nat, session: Session)

  datatype Dispatch = Dispatch(model: string, session: Session)

  datatype Record = Record(
    id: string,
    expires: nat,
    model: string,          // history: the model its request named
    generation: nat,        // history: the generation its request began in
    original: Captured,     // history: what was registered
    captured: Option<Captured>,
    verifying: Option<nat>)

  datatype Answer = Answer(service: Service, outcome: Outcome)

  datatype Job = Job(record: nat, answer: Option<Answer>)

  datatype State = State(
    now: nat,
    closed: bool,
    sessions: map<string, Entry>,
    pending: map<string, nat>,
    creations: seq<Creation>,
    tasks: map<nat, Task>,
    sent: seq<Dispatch>,          // history: every request that left
    generation: nat,
    responses: map<string, nat>,
    records: seq<Record>,
    jobs: seq<Job>,
    readers: map<nat, nat>)       // callers of VerifyResponse, and the job each waits for

  const INITIAL := State(0, false, map[], map[], [], map[], [], 0, map[], [], [], map[])

  datatype Step =
    | Begin(task: nat, model: string)
    | GetSession(task: nat)
    | FinishCreation(creation: nat, made: Made)
    | Wake(task: nat)
    | Send(task: nat)
    | Register(task: nat, id: string, request: bytes, response: bytes, gatewayOnly: bool)
    | GiveUp(task: nat)
    | Prune
    | Clear
    | Close
    | VerifyResponse(reader: nat, id: string)
    | FinishJob(job: nat, answer: Answer)
    | WakeReader(reader: nat)
    | GiveUpReader(reader: nat)
    | Tick(elapsed: nat)

  datatype Reply = Silent | Failed | Done | Duplicate | NotFound | Answered(outcome: Outcome)

  function Live(now: nat, sessions: map<string, Entry>): map<string, Entry> {
    map m | m in sessions && now < sessions[m].expires :: sessions[m]
  }

  function Unexpired(now: nat, responses: map<string, nat>, records: seq<Record>): map<string, nat> {
    map id | id in responses && responses[id] < |records| && now < records[responses[id]].expires :: responses[id]
  }

  function Pruned(s: State): State {
    s.(sessions := Live(s.now, s.sessions), responses := Unexpired(s.now, s.responses, s.records))
  }

  /** The critical section of `getSession`. */
  function GettingSession(s: State, task: nat): (State, Reply) {
    if task !in s.tasks || !s.tasks[task].Starting? then (s, Silent)
    else
      var Starting(model, generation) := s.tasks[task];
      if model == "" || s.closed then (s.(tasks := s.tasks - {task}), Failed)
      else if model in s.sessions && s.now < s.sessions[model].expires then
        (s.(tasks := s.tasks[task := Ready(model, generation, s.sessions[model].session)]), Silent)
      else if model in s.pending then
        (s.(tasks := s.tasks[task := Waiting(model, generation, s.pending[model])]), Silent)
      else
        (s.(pending := s.pending[model := |s.creations|],
            creations := s.creations + [Creation(model, None)],
            tasks := s.tasks[task := Waiting(model, generation, |s.creations|)]), Silent)
  }

  /** Either way a session was admitted. */
  ghost predicate AdmittedBy(o: Options, world: World, model: string, session: Session) {
    if o.direct then DirectAdmitted(o, world, model, session) else Admitted(o, world, model, session)
  }

  /** A creation ends with what `createSession` yields, or with an error: it may be cancelled or time out. */
  ghost predicate CanFinish(o: Options, s: State, creation: nat, made: Made) {
    && creation < |s.creations|
    && s.creations[creation].made.None?
    && (made.result.Ok? ==> AdmittedBy(o, made.world, s.creations[creation].model, made.result.value))
  }

  /** The goroutine's critical section (go/client.go:234-243). */
  ghost function FinishingCreation(c: Config, s: State, creation: nat, made: Made): State {
    if !CanFinish(c.options, s, creation, made) then s
    else
      var model := s.creations[creation].model;
      var over := s.(creations := s.creations[creation := Creation(model, Some(made))],
                     pending := s.pending - {model});
      if made.result.Ok? && !s.closed && c.attestationTtl > 0 then
        var pruned := Pruned(over);
        pruned.(sessions := pruned.sessions[model := Entry(s.now + c.attestationTtl, made.result.value, creation)])
      else over
  }

  function Waking(s: State, task: nat): (State, Reply) {
    if task !in s.tasks || !s.tasks[task].Waiting? || s.tasks[task].creation >= |s.creations| then (s, Silent)
    else
      var Waiting(model, generation, creation) := s.tasks[task];
      match s.creations[creation].made
      case None => (s, Silent)
      case Some(made) =>
        match made.result
        case Err => (s.(tasks := s.tasks - {task}), Failed)
        case Ok(session) => (s.(tasks := s.tasks[task := Ready(model, generation, session)]), Silent)
  }

  /** go/client.go:482-512: under end-to-end encryption a session without a model key sends nothing. */
  function Sending(o: Options, s: State, task: nat): (State, Reply) {
    if task !in s.tasks || !s.tasks[task].Ready? then (s, Silent)
    else
      var Ready(model, generation, session) := s.tasks[task];
      if o.e2ee && session.selected.None? then (s.(tasks := s.tasks - {task}), Failed)
      else
        (s.(tasks := s.tasks[task := Sent(model, generation, session)],
            sent := s.sent + [Dispatch(model, session)]), Silent)
  }

  /** go/client.go:649-673. */
  function Registering(ttl: nat, s: State, task: nat, id: string, request: bytes, response: bytes, gatewayOnly: bool):
    (State, Reply)
  {
    if task !in s.tasks || !s.tasks[task].Sent? then (s, Silent)
    else
      var Sent(model, generation, session) := s.tasks[task];
      var over := s.(tasks := s.tasks - {task});
      if s.closed then (over, Failed)
      else if generation != s.generation then (over, Done)
      else if ttl == 0 then (over, Done)
      else if id in s.responses && s.responses[id] < |s.records| && s.now < s.records[s.responses[id]].expires then
        (over, Duplicate)
      else
        var captured := Captured(request, response, session, gatewayOnly);
        var pruned := Pruned(over);
        (pruned.(responses := pruned.responses[id := |s.records|],
                 records := s.records + [Record(id, s.now + ttl, model, generation, captured, Some(captured), None)]),
         Done)
  }

  /** The critical section of `VerifyResponse`. */
  function Verifying(s: State, reader: nat, id: string): (State, Reply) {
    if reader in s.readers then (s, Silent)
    else if !(id in s.responses && s.responses[id] < |s.records| && s.now < s.records[s.responses[id]].expires) then
      (s, NotFound)
    else
      var r := s.responses[id];
      match s.records[r].verifying
      case Some(job) => (s.(readers := s.readers[reader := job]), Silent)
      case None => (Started(s, r).(readers := s.readers[reader := |s.jobs|]), Silent)
  }

  /** A verification of record r, its goroutine running. */
  function Started(s: State, r: nat): State
    requires r < |s.records|
  {
    s.(records := s.records[r := s.records[r].(verifying := Some(|s.jobs|))], jobs := s.jobs + [Job(r, None)])
  }

  /** A verification reads the record it was started for; it may also be cancelled or time out. */
  predicate CanFinishJob(algo: Algo, s: State, job: nat, answer: Answer) {
    && job < |s.jobs|
    && s.jobs[job].answer.None?
    && s.jobs[job].record < |s.records|
    && var record := s.records[s.jobs[job].record];
       (answer.outcome.Retryable? ||
        (record.captured.Some? && answer.outcome == Examine(answer.service, algo, record.id, record.captured.value)))
  }

  /** The goroutine's critical section (go/client.go:694-708). */
  function FinishingJob(algo: Algo, s: State, job: nat, answer: Answer): State {
    if !CanFinishJob(algo, s, job, answer) then s
    else
      var r := s.jobs[job].record;
      var record := s.records[r];
      s.(jobs := s.jobs[job := Job(r, Some(answer))],
         records := s.records[r := if answer.outcome.Retryable? then record.(verifying := None)
                                   else record.(captured := None)])
  }

  function WakingReader(s: State, reader: nat): (State, Reply) {
    if reader !in s.readers || s.readers[reader] >= |s.jobs| then (s, Silent)
    else
      match s.jobs[s.readers[reader]].answer
      case None => (s, Silent)
      case Some(answer) => (s.(readers := s.readers - {reader}), Answered(answer.outcome))
  }

  function Closing(s: State): State {
    if s.closed then s else s.(closed := true, sessions := map[], responses := map[])
  }

  ghost function Next(c: Config, s: State, step: Step): (State, Reply) {
    match step
    case Begin(task, model) =>
      (if task in s.tasks then s else s.(tasks := s.tasks[task := Starting(model, s.generation)]), Silent)
    case GetSession(task) => GettingSession(s, task)
    case FinishCreation(creation, made) => (FinishingCreation(c, s, creation, made), Silent)
    case Wake(task) => Waking(s, task)
    case Send(task) => Sending(c.options, s, task)
    case Register(task, id, request, response, gatewayOnly) =>
      Registering(c.responseTtl, s, task, id, request, response, gatewayOnly)
    case GiveUp(task) => (s.(tasks := s.tasks - {task}), Failed)
    case Prune => (Pruned(s), Silent)
    case Clear => (s.(generation := s.generation + 1, responses := map[]), Silent)
    case Close => (Closing(s), Silent)
    case VerifyResponse(reader, id) => Verifying(s, reader, id)
    case FinishJob(job, answer) => (FinishingJob(c.options.algo, s, job, answer), Silent)
    case WakeReader(reader) => WakingReader(s, reader)
    case GiveUpReader(reader) => (s.(readers := s.readers - {reader}), Failed)
    case Tick(elapsed) => (s.(now := s.now + elapsed), Silent)
  }

  ghost function Run(c: Config, s: State, steps: seq<Step>): State
    decreases |steps|
  {
    if steps == [] then s else Run(c, Next(c, s, steps[0]).0, steps[1..])
  }
}
