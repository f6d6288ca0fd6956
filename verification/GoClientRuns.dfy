/** What holds in every run of the Go client: its invariant, and the properties that follow. */
module GoClientRuns {
  import opened Bytes
  import opened Wrappers
  import opened Admission
  import opened Receipts
  import opened GoClient

  // ----- Sessions -----

  /** Creations that run and pending entries are the same thing. */
  ghost predicate PendingSound(creations: seq<Creation>, pending: map<string, nat>) {
    && (forall m :: m in pending ==>
          pending[m] < |creations| && creations[pending[m]].model == m && creations[pending[m]].made.None?)
    && (forall f :: 0 <= f < |creations| && creations[f].made.None? ==>
          creations[f].model in pending && pending[creations[f].model] == f)
  }

  /** Some finished creation for this very model yielded the session, which was admitted. */
  ghost predicate MadeFor(o: Options, creations: seq<Creation>, model: string, session: Session) {
    exists f :: MadeBy(o, creations, f, model, session)
  }

  ghost predicate MadeBy(o: Options, creations: seq<Creation>, f: int, model: string, session: Session) {
    && 0 <= f < |creations|
    && creations[f].model == model
    && creations[f].made.Some?
    && creations[f].made.value.result == Ok(session)
    && AdmittedBy(o, creations[f].made.value.world, model, session)
  }

  ghost predicate CreationSound(o: Options, c: Creation) {
    c.made.Some? && c.made.value.result.Ok? ==> AdmittedBy(o, c.made.value.world, c.model, c.made.value.result.value)
  }

  ghost predicate CreationsSound(o: Options, creations: seq<Creation>) {
    forall f :: 0 <= f < |creations| ==> CreationSound(o, creations[f])
  }

  ghost predicate CacheSound(o: Options, creations: seq<Creation>, sessions: map<string, Entry>) {
    forall m :: m in sessions ==> MadeFor(o, creations, m, sessions[m].session)
  }

  ghost predicate TaskSound(o: Options, creations: seq<Creation>, generation: nat, task: Task) {
    && task.generation <= generation
    && match task
       case Starting(_, _) => true
       case Waiting(model, _, creation) => creation < |creations| && creations[creation].model == model
       case Ready(model, _, session) => MadeFor(o, creations, model, session)
       case Sent(model, _, session) => MadeFor(o, creations, model, session)
  }

  ghost predicate TasksSound(o: Options, creations: seq<Creation>, generation: nat, tasks: map<nat, Task>) {
    forall t :: t in tasks ==> TaskSound(o, creations, generation, tasks[t])
  }

  ghost predicate DispatchSound(o: Options, creations: seq<Creation>, d: Dispatch) {
    MadeFor(o, creations, d.model, d.session) && (o.e2ee ==> d.session.selected.Some?)
  }

  ghost predicate SentSound(o: Options, creations: seq<Creation>, sent: seq<Dispatch>) {
    forall i :: 0 <= i < |sent| ==> DispatchSound(o, creations, sent[i])
  }

  // ----- Responses -----

  predicate Terminal(job: Job) {
    job.answer.Some? && !job.answer.value.outcome.Retryable?
  }

  /** Bytes are missing exactly when the record's verification ended for good. */
  ghost predicate RecordSound(jobs: seq<Job>, r: nat, record: Record) {
    && (record.captured.Some? ==> record.captured.value == record.original)
    && (record.verifying.Some? ==>
          && record.verifying.value < |jobs|
          && jobs[record.verifying.value].record == r
          && (jobs[record.verifying.value].answer.None? || Terminal(jobs[record.verifying.value])))
    && (record.captured.None? <==> record.verifying.Some? && Terminal(jobs[record.verifying.value]))
  }

  ghost predicate RecordsSound(jobs: seq<Job>, records: seq<Record>) {
    forall r :: 0 <= r < |records| ==> RecordSound(jobs, r, records[r])
  }

  ghost predicate JobSound(algo: Algo, records: seq<Record>, j: nat, job: Job) {
    && job.record < |records|
    && (records[job.record].verifying == Some(j) || (job.answer.Some? && job.answer.value.outcome.Retryable?))
    && (Terminal(job) ==> job.answer.value.outcome == Examine(job.answer.value.service, algo,
                            records[job.record].id, records[job.record].original))
  }

  ghost predicate JobsSound(algo: Algo, records: seq<Record>, jobs: seq<Job>) {
    forall j :: 0 <= j < |jobs| ==> JobSound(algo, records, j, jobs[j])
  }

  ghost predicate Retained(generation: nat, record: Record, id: string) {
    record.id == id && record.generation == generation
  }

  ghost predicate ResponsesSound(generation: nat, records: seq<Record>, responses: map<string, nat>) {
    forall id :: id in responses ==> responses[id] < |records| && Retained(generation, records[responses[id]], id)
  }

  /** A record's session is the one its request was sent under. */
  ghost predicate OriginsSound(o: Options, creations: seq<Creation>, records: seq<Record>) {
    forall r :: 0 <= r < |records| ==> MadeFor(o, creations, records[r].model, records[r].original.session)
  }

  ghost predicate Off(c: Config, s: State) {
    && (s.closed ==> s.sessions == map[] && s.responses == map[])
    && (c.attestationTtl == 0 ==> s.sessions == map[])
    && (c.responseTtl == 0 ==> s.responses == map[])
  }

  ghost predicate SessionsInvariant(o: Options, s: State) {
    && PendingSound(s.creations, s.pending)
    && CreationsSound(o, s.creations)
    && CacheSound(o, s.creations, s.sessions)
    && TasksSound(o, s.creations, s.generation, s.tasks)
    && SentSound(o, s.creations, s.sent)
    && OriginsSound(o, s.creations, s.records)
  }

  ghost predicate ResponsesInvariant(algo: Algo, s: State) {
    && RecordsSound(s.jobs, s.records)
    && JobsSound(algo, s.records, s.jobs)
    && ResponsesSound(s.generation, s.records, s.responses)
    && (forall r :: r in s.readers ==> s.readers[r] < |s.jobs|)
  }

  ghost predicate Invariant(c: Config, s: State) {
    && SessionsInvariant(c.options, s)
    && ResponsesInvariant(c.options.algo, s)
    && Off(c, s)
  }

  // ----- Every step keeps it -----

  /** Finished creations stay as they are when others are made or finish. */
  ghost predicate Grown(before: seq<Creation>, after: seq<Creation>) {
    && |before| <= |after|
    && forall f :: 0 <= f < |before| ==>
         after[f].model == before[f].model && (before[f].made.Some? ==> after[f] == before[f])
  }

  lemma MadeForOutlives(o: Options, before: seq<Creation>, after: seq<Creation>, model: string, session: Session)
    requires Grown(before, after) && MadeFor(o, before, model, session)
    ensures MadeFor(o, after, model, session)
  {
    hide AdmittedBy;
    var f :| MadeBy(o, before, f, model, session);
    assert MadeBy(o, after, f, model, session);
  }

  lemma HistoryOutlives(o: Options, s: State, creations: seq<Creation>)
    requires Grown(s.creations, creations)
    requires CacheSound(o, s.creations, s.sessions)
    requires TasksSound(o, s.creations, s.generation, s.tasks)
    requires SentSound(o, s.creations, s.sent)
    requires OriginsSound(o, s.creations, s.records)
    ensures CacheSound(o, creations, s.sessions)
    ensures TasksSound(o, creations, s.generation, s.tasks)
    ensures SentSound(o, creations, s.sent)
    ensures OriginsSound(o, creations, s.records)
  {
    hide MadeFor;
    forall model, session | MadeFor(o, s.creations, model, session) ensures MadeFor(o, creations, model, session) {
      MadeForOutlives(o, s.creations, creations, model, session);
    }
    forall t | t in s.tasks ensures TaskSound(o, creations, s.generation, s.tasks[t]) {
      assert TaskSound(o, s.creations, s.generation, s.tasks[t]);
    }
    forall i | 0 <= i < |s.sent| ensures DispatchSound(o, creations, s.sent[i]) {
      assert DispatchSound(o, s.creations, s.sent[i]);
    }
  }

  /** A creation is made only when none is pending for the model. */
  lemma CreateKeeps(o: Options, s: State, task: nat, model: string, generation: nat)
    requires SessionsInvariant(o, s)
    requires model !in s.pending && generation <= s.generation
    ensures SessionsInvariant(o, s.(pending := s.pending[model := |s.creations|],
                                    creations := s.creations + [Creation(model, None)],
                                    tasks := s.tasks[task := Waiting(model, generation, |s.creations|)]))
  {
    hide MadeFor, CacheSound, SentSound, OriginsSound, AdmittedBy;
    var creations := s.creations + [Creation(model, None)];
    HistoryOutlives(o, s, creations);
    assert CreationsSound(o, creations);
    assert TaskSound(o, creations, s.generation, Waiting(model, generation, |s.creations|));
    assert TasksSound(o, creations, s.generation, s.tasks[task := Waiting(model, generation, |s.creations|)]);
    PendingGrows(s.creations, s.pending, model);
  }

  lemma PendingGrows(creations: seq<Creation>, pending: map<string, nat>, model: string)
    requires PendingSound(creations, pending) && model !in pending
    ensures PendingSound(creations + [Creation(model, None)], pending[model := |creations|])
  {
  }

  lemma TaskMoves(o: Options, s: State, task: nat, to: Task)
    requires SessionsInvariant(o, s)
    requires TaskSound(o, s.creations, s.generation, to)
    ensures SessionsInvariant(o, s.(tasks := s.tasks[task := to]))
  {
    hide PendingSound, CreationsSound, CacheSound, TaskSound, SentSound, OriginsSound;
  }

  lemma TaskEnds(o: Options, s: State, task: nat)
    requires SessionsInvariant(o, s)
    ensures SessionsInvariant(o, s.(tasks := s.tasks - {task}))
  {
    hide PendingSound, CreationsSound, CacheSound, TaskSound, SentSound, OriginsSound;
  }

  lemma GetSessionKeeps(o: Options, s: State, task: nat)
    requires SessionsInvariant(o, s)
    ensures SessionsInvariant(o, GettingSession(s, task).0)
  {
    hide CreationsSound, MadeFor, SentSound, OriginsSound;
    if task in s.tasks && s.tasks[task].Starting? {
      var Starting(model, generation) := s.tasks[task];
      assert TaskSound(o, s.creations, s.generation, s.tasks[task]);
      if model == "" || s.closed {
        TaskEnds(o, s, task);
      } else if model in s.sessions && s.now < s.sessions[model].expires {
        TaskMoves(o, s, task, Ready(model, generation, s.sessions[model].session));
      } else if model in s.pending {
        TaskMoves(o, s, task, Waiting(model, generation, s.pending[model]));
      } else {
        CreateKeeps(o, s, task, model, generation);
      }
    }
  }

  lemma FinishCreationKeeps(c: Config, s: State, creation: nat, made: Made)
    requires SessionsInvariant(c.options, s)
    ensures SessionsInvariant(c.options, FinishingCreation(c, s, creation, made))
  {
    hide TasksSound, SentSound, OriginsSound, AdmittedBy, CacheSound;
    var o := c.options;
    if CanFinish(o, s, creation, made) {
      var model := s.creations[creation].model;
      var creations := s.creations[creation := Creation(model, Some(made))];
      HistoryOutlives(o, s, creations);
      assert CreationsSound(o, creations);
      assert PendingSound(creations, s.pending - {model});
      var over := s.(creations := creations, pending := s.pending - {model});
      PruneKeepsCache(o, over);
      if made.result.Ok? {
        assert MadeBy(o, creations, creation, model, made.result.value);
        var entry := Entry(s.now + c.attestationTtl, made.result.value, creation);
        StoreKeepsCache(o, creations, Pruned(over).sessions, model, entry);
      }
    }
  }

  lemma PruneKeepsCache(o: Options, s: State)
    requires CacheSound(o, s.creations, s.sessions)
    ensures CacheSound(o, s.creations, Pruned(s).sessions)
  {
    hide MadeFor;
  }

  lemma StoreKeepsCache(o: Options, creations: seq<Creation>, sessions: map<string, Entry>, model: string, entry: Entry)
    requires CacheSound(o, creations, sessions)
    requires MadeFor(o, creations, model, entry.session)
    ensures CacheSound(o, creations, sessions[model := entry])
  {
    hide MadeFor;
  }

  lemma WakeKeeps(o: Options, s: State, task: nat)
    requires SessionsInvariant(o, s)
    ensures SessionsInvariant(o, Waking(s, task).0)
  {
    hide PendingSound, CacheSound, SentSound, OriginsSound, AdmittedBy;
    if task in s.tasks && s.tasks[task].Waiting? && s.tasks[task].creation < |s.creations| {
      var Waiting(model, generation, creation) := s.tasks[task];
      assert TaskSound(o, s.creations, s.generation, s.tasks[task]);
      assert CreationSound(o, s.creations[creation]);
      TaskEnds(o, s, task);
      if s.creations[creation].made.Some? && s.creations[creation].made.value.result.Ok? {
        var session := s.creations[creation].made.value.result.value;
        assert MadeBy(o, s.creations, creation, model, session);
        TaskMoves(o, s, task, Ready(model, generation, session));
      }
    }
  }

  lemma SendKeeps(o: Options, s: State, task: nat)
    requires SessionsInvariant(o, s)
    ensures SessionsInvariant(o, Sending(o, s, task).0)
  {
    hide PendingSound, CreationsSound, CacheSound, OriginsSound, MadeFor;
    if task in s.tasks && s.tasks[task].Ready? {
      var Ready(model, generation, session) := s.tasks[task];
      assert TaskSound(o, s.creations, s.generation, s.tasks[task]);
      TaskEnds(o, s, task);
      TaskMoves(o, s, task, Sent(model, generation, session));
    }
  }

  lemma PruneKeeps(c: Config, s: State)
    requires Invariant(c, s)
    ensures Invariant(c, Pruned(s))
  {
    hide PendingSound, CreationsSound, MadeFor, TasksSound, SentSound, OriginsSound, RecordsSound, JobsSound, Retained;
  }

  /** A record is made with the session of the request that was sent. */
  lemma RecordKeeps(c: Config, s: State, id: string, record: Record)
    requires Invariant(c, s)
    requires !s.closed && c.responseTtl != 0
    requires record.id == id && record.generation == s.generation
    requires record.captured == Some(record.original) && record.verifying.None?
    requires MadeFor(c.options, s.creations, record.model, record.original.session)
    ensures Invariant(c, s.(responses := s.responses[id := |s.records|], records := s.records + [record]))
  {
    hide PendingSound, CreationsSound, CacheSound, TasksSound, SentSound, MadeFor, RecordSound, JobSound;
    RecordAddedKeeps(c.options.algo, s, record);
  }

  lemma RegisterKeeps(c: Config, s: State, task: nat, id: string, request: bytes, response: bytes, gatewayOnly: bool)
    requires Invariant(c, s)
    ensures Invariant(c, Registering(c.responseTtl, s, task, id, request, response, gatewayOnly).0)
  {
    hide PendingSound, CreationsSound, SentSound, MadeFor, RecordsSound, JobsSound, CacheSound, OriginsSound, Pruned;
    if task in s.tasks && s.tasks[task].Sent? {
      var Sent(model, generation, session) := s.tasks[task];
      assert TaskSound(c.options, s.creations, s.generation, s.tasks[task]);
      var over := s.(tasks := s.tasks - {task});
      TaskEnds(c.options, s, task);
      PruneKeeps(c, over);
      if !s.closed && generation == s.generation && c.responseTtl != 0 {
        PrunedParts(over);
        var captured := Captured(request, response, session, gatewayOnly);
        RecordKeeps(c, Pruned(over), id,
                    Record(id, s.now + c.responseTtl, model, generation, captured, Some(captured), None));
      }
    }
  }

  lemma PrunedParts(s: State)
    ensures Pruned(s) == s.(sessions := Pruned(s).sessions, responses := Pruned(s).responses)
  {
  }

  lemma RecordAddedKeeps(algo: Algo, s: State, record: Record)
    requires RecordsSound(s.jobs, s.records) && JobsSound(algo, s.records, s.jobs)
    requires record.captured == Some(record.original) && record.verifying.None?
    ensures RecordsSound(s.jobs, s.records + [record]) && JobsSound(algo, s.records + [record], s.jobs)
  {
    hide Examine;
    forall j | 0 <= j < |s.jobs| ensures JobSound(algo, s.records + [record], j, s.jobs[j]) {
      assert JobSound(algo, s.records, j, s.jobs[j]);
    }
  }

  lemma NewJobKeeps(algo: Algo, s: State, r: nat)
    requires r < |s.records| && s.records[r].verifying.None?
    requires RecordsSound(s.jobs, s.records) && JobsSound(algo, s.records, s.jobs)
    ensures RecordsSound(Started(s, r).jobs, Started(s, r).records)
    ensures JobsSound(algo, Started(s, r).records, Started(s, r).jobs)
  {
    hide Examine;
    var t := Started(s, r);
    assert RecordSound(s.jobs, r, s.records[r]);
    forall k | 0 <= k < |t.records| ensures RecordSound(t.jobs, k, t.records[k]) {
      assert RecordSound(s.jobs, k, s.records[k]);
    }
    forall j | 0 <= j < |t.jobs| ensures JobSound(algo, t.records, j, t.jobs[j]) {
      if j < |s.jobs| {
        assert JobSound(algo, s.records, j, s.jobs[j]);
      }
    }
  }

  lemma StartedLeaves(s: State, r: nat)
    requires r < |s.records|
    ensures Started(s, r) == s.(records := Started(s, r).records, jobs := Started(s, r).jobs)
    ensures |Started(s, r).records| == |s.records| && |Started(s, r).jobs| == |s.jobs| + 1
    ensures Started(s, r).jobs[|s.jobs|] == Job(r, None)
    ensures forall j :: 0 <= j < |s.jobs| ==> Started(s, r).jobs[j] == s.jobs[j]
    ensures forall k :: 0 <= k < |s.records| ==> SameRecord(s.records[k], Started(s, r).records[k])
  {
  }

  lemma VerifyResponseKeeps(algo: Algo, s: State, reader: nat, id: string)
    requires ResponsesInvariant(algo, s)
    ensures ResponsesInvariant(algo, Verifying(s, reader, id).0)
  {
    hide RecordsSound, JobsSound, RecordSound, Started;
    if id in s.responses {
      var r := s.responses[id];
      RecordAt(s, r);
      VerifyingInRange(s.jobs, r, s.records[r]);
      if s.records[r].verifying.None? {
        NewJobKeeps(algo, s, r);
        StartedLeaves(s, r);
      }
    }
  }

  lemma RecordAt(s: State, r: nat)
    requires RecordsSound(s.jobs, s.records) && r < |s.records|
    ensures RecordSound(s.jobs, r, s.records[r])
  {
  }

  lemma VerifyingInRange(jobs: seq<Job>, r: nat, record: Record)
    requires RecordSound(jobs, r, record)
    ensures record.verifying.Some? ==> record.verifying.value < |jobs|
  {
  }

  lemma FinishJobKeeps(algo: Algo, s: State, job: nat, answer: Answer)
    requires ResponsesInvariant(algo, s)
    ensures ResponsesInvariant(algo, FinishingJob(algo, s, job, answer))
  {
    hide Examine;
    if CanFinishJob(algo, s, job, answer) {
      var t := FinishingJob(algo, s, job, answer);
      var r := s.jobs[job].record;
      assert JobSound(algo, s.records, job, s.jobs[job]);
      assert RecordSound(s.jobs, r, s.records[r]);
      forall k | 0 <= k < |t.records| ensures RecordSound(t.jobs, k, t.records[k]) {
        assert RecordSound(s.jobs, k, s.records[k]);
      }
      forall j | 0 <= j < |t.jobs| ensures JobSound(algo, t.records, j, t.jobs[j]) {
        assert JobSound(algo, s.records, j, s.jobs[j]);
      }
    }
  }

  /** Taking a verification up or finishing it changes nothing a request left behind. */
  lemma JobsLeaveSessions(o: Options, s: State, t: State)
    requires SessionsInvariant(o, s) && OnlyJobs(s, t)
    ensures SessionsInvariant(o, t)
  {
    hide MadeFor;
  }

  lemma StepKeeps(c: Config, s: State, step: Step)
    requires Invariant(c, s)
    ensures Invariant(c, Next(c, s, step).0)
  {
    hide GettingSession, FinishingCreation, Waking, Sending, Registering, Verifying, FinishingJob;
    hide SessionsInvariant, ResponsesInvariant;
    match step
    case GetSession(task) => GetSessionKeeps(c.options, s, task); GetSessionLeaves(c, s, task);
    case FinishCreation(creation, made) =>
      FinishCreationKeeps(c, s, creation, made);
      FinishCreationLeaves(c, s, creation, made);
    case Wake(task) => WakeKeeps(c.options, s, task); WakeLeaves(c, s, task);
    case Send(task) => SendKeeps(c.options, s, task); SendLeaves(c, s, task);
    case Register(task, id, request, response, gatewayOnly) =>
      RegisterKeeps(c, s, task, id, request, response, gatewayOnly);
    case VerifyResponse(reader, id) =>
      VerifyResponseKeeps(c.options.algo, s, reader, id);
      VerifyResponseLeaves(c, s, reader, id);
      JobsLeaveSessions(c.options, s, Verifying(s, reader, id).0);
    case FinishJob(job, answer) =>
      FinishJobKeeps(c.options.algo, s, job, answer);
      FinishJobLeaves(c, s, job, answer);
      JobsLeaveSessions(c.options, s, FinishingJob(c.options.algo, s, job, answer));
    case _ => SmallStepKeeps(c, s, step);
  }

  // What each step leaves alone: the session steps at most prune the responses, and the response
  // steps leave the sessions as they are.

  lemma GetSessionLeaves(c: Config, s: State, task: nat)
    requires ResponsesInvariant(c.options.algo, s) && Off(c, s)
    ensures ResponsesInvariant(c.options.algo, GettingSession(s, task).0) && Off(c, GettingSession(s, task).0)
  {
    hide RecordsSound, JobsSound, ResponsesSound;
  }

  lemma FinishCreationTouches(c: Config, s: State, creation: nat, made: Made)
    ensures var t := FinishingCreation(c, s, creation, made);
            && t == s.(creations := t.creations, pending := t.pending, sessions := t.sessions, responses := t.responses)
            && (t.responses == s.responses || t.responses == Unexpired(s.now, s.responses, s.records))
            && (s.closed || c.attestationTtl == 0 ==> t.sessions == s.sessions && t.responses == s.responses)
  {
    hide CanFinish, Live, Unexpired;
  }

  lemma FinishCreationLeaves(c: Config, s: State, creation: nat, made: Made)
    requires ResponsesInvariant(c.options.algo, s) && Off(c, s)
    ensures ResponsesInvariant(c.options.algo, FinishingCreation(c, s, creation, made))
    ensures Off(c, FinishingCreation(c, s, creation, made))
  {
    hide FinishingCreation, RecordsSound, JobsSound, Retained;
    FinishCreationTouches(c, s, creation, made);
    assert c.responseTtl == 0 ==> Unexpired(s.now, s.responses, s.records) == map[];
  }

  lemma WakeLeaves(c: Config, s: State, task: nat)
    requires ResponsesInvariant(c.options.algo, s) && Off(c, s)
    ensures ResponsesInvariant(c.options.algo, Waking(s, task).0) && Off(c, Waking(s, task).0)
  {
    hide RecordsSound, JobsSound, ResponsesSound;
  }

  lemma SendLeaves(c: Config, s: State, task: nat)
    requires ResponsesInvariant(c.options.algo, s) && Off(c, s)
    ensures ResponsesInvariant(c.options.algo, Sending(c.options, s, task).0) && Off(c, Sending(c.options, s, task).0)
  {
    hide RecordsSound, JobsSound, ResponsesSound;
  }

  ghost predicate OnlyJobs(s: State, t: State) {
    && t == s.(records := t.records, jobs := t.jobs, readers := t.readers)
    && |t.records| == |s.records|
    && forall r :: 0 <= r < |s.records| ==>
         t.records[r].model == s.records[r].model && t.records[r].original == s.records[r].original
  }

  lemma VerifyResponseLeaves(c: Config, s: State, reader: nat, id: string)
    ensures OnlyJobs(s, Verifying(s, reader, id).0)
    ensures Off(c, s) ==> Off(c, Verifying(s, reader, id).0)
  {
    hide Started;
    if id in s.responses && s.responses[id] < |s.records| {
      StartedLeaves(s, s.responses[id]);
    }
  }

  lemma FinishJobLeaves(c: Config, s: State, job: nat, answer: Answer)
    ensures OnlyJobs(s, FinishingJob(c.options.algo, s, job, answer))
    ensures Off(c, s) ==> Off(c, FinishingJob(c.options.algo, s, job, answer))
  {
    hide Examine;
  }

  lemma SmallStepKeeps(c: Config, s: State, step: Step)
    requires Invariant(c, s)
    requires step.Begin? || step.GiveUp? || step.Prune? || step.Clear? || step.Close? || step.WakeReader?
             || step.GiveUpReader? || step.Tick?
    ensures Invariant(c, Next(c, s, step).0)
  {
    hide PendingSound, CreationsSound, CacheSound, TaskSound, SentSound, OriginsSound, RecordsSound, JobsSound, Pruned;
    match step
    case Begin(task, model) => BeginKeeps(c.options, s, task, model);
    case Prune => PruneKeeps(c, s);
    case Clear => ClearKeeps(c, s);
    case Close => CloseKeeps(c, s);
    case GiveUp(task) => TaskEnds(c.options, s, task);
    case _ => ReaderStepKeeps(c, s, step);
  }

  lemma ReaderStepKeeps(c: Config, s: State, step: Step)
    requires Invariant(c, s)
    requires step.WakeReader? || step.GiveUpReader? || step.Tick?
    ensures Invariant(c, Next(c, s, step).0)
  {
    hide PendingSound, CreationsSound, CacheSound, TasksSound, SentSound, OriginsSound, RecordsSound, JobsSound,
         ResponsesSound;
  }

  lemma BeginKeeps(o: Options, s: State, task: nat, model: string)
    requires SessionsInvariant(o, s)
    ensures SessionsInvariant(o, s.(tasks := s.tasks[task := Starting(model, s.generation)]))
  {
    assert TaskSound(o, s.creations, s.generation, Starting(model, s.generation));
    TaskMoves(o, s, task, Starting(model, s.generation));
  }

  lemma ClearKeeps(c: Config, s: State)
    requires Invariant(c, s)
    ensures Invariant(c, s.(generation := s.generation + 1, responses := map[]))
  {
    hide PendingSound, CreationsSound, CacheSound, MadeFor, SentSound, OriginsSound, RecordsSound, JobsSound;
    forall t | t in s.tasks ensures TaskSound(c.options, s.creations, s.generation + 1, s.tasks[t]) {
      assert TaskSound(c.options, s.creations, s.generation, s.tasks[t]);
    }
  }

  lemma CloseKeeps(c: Config, s: State)
    requires Invariant(c, s)
    ensures Invariant(c, Closing(s))
  {
    hide PendingSound, CreationsSound, MadeFor, TasksSound, SentSound, OriginsSound, RecordsSound, JobsSound;
  }

  lemma {:induction false} RunKeeps(c: Config, s: State, steps: seq<Step>)
    requires Invariant(c, s)
    ensures Invariant(c, Run(c, s, steps))
    decreases |steps|
  {
    hide Invariant, Next;
    if steps != [] {
      StepKeeps(c, s, steps[0]);
      RunKeeps(c, Next(c, s, steps[0]).0, steps[1..]);
    }
  }

  ghost predicate Reachable(c: Config, s: State) {
    exists steps :: Run(c, INITIAL, steps) == s
  }

  lemma ReachableKeeps(c: Config, s: State)
    requires Reachable(c, s)
    ensures Invariant(c, s)
  {
    var steps :| Run(c, INITIAL, steps) == s;
    RunKeeps(c, INITIAL, steps);
  }

  // ----- What every run has -----

  /**
   * Every request that ever left was sent under a session created for the very model it named and
   * admitted for it; under end-to-end encryption that session has a model key.
   */
  lemma EveryDispatchIsAdmitted(c: Config, s: State, i: nat)
    requires Reachable(c, s)
    requires i < |s.sent|
    ensures exists f :: MadeBy(c.options, s.creations, f, s.sent[i].model, s.sent[i].session)
    ensures c.options.e2ee ==> s.sent[i].session.selected.Some?
  {
    ReachableKeeps(c, s);
    assert DispatchSound(c.options, s.creations, s.sent[i]);
  }

  /** Single flight: a model has at most one creation running, and it is the one callers join. */
  lemma SingleCreation(c: Config, s: State, f: nat, g: nat)
    requires Reachable(c, s)
    requires f < |s.creations| && g < |s.creations| && s.creations[f].model == s.creations[g].model
    requires s.creations[f].made.None? && s.creations[g].made.None?
    ensures f == g && s.creations[f].model in s.pending && s.pending[s.creations[f].model] == f
  {
    ReachableKeeps(c, s);
  }

  /** A cached session is only handed out before it expires. */
  lemma CachedSessionIsLive(c: Config, s: State, task: nat)
    requires Reachable(c, s)
    requires task in s.tasks && s.tasks[task].Starting?
    requires task in GettingSession(s, task).0.tasks
    ensures var to := GettingSession(s, task).0.tasks[task];
            var model := s.tasks[task].model;
            if to.Ready? then
              && !s.closed && c.attestationTtl > 0
              && model in s.sessions && s.now < s.sessions[model].expires
              && to.session == s.sessions[model].session
              && MadeFor(c.options, s.creations, model, to.session)
            else
              to.Waiting? && to.model == model
  {
    hide PendingSound, CreationsSound, TasksSound, SentSound, OriginsSound, ResponsesInvariant, MadeFor, GettingSession,
         Reachable;
    ReachableKeeps(c, s);
    GetSessionAnswer(s, task);
  }

  lemma GetSessionAnswer(s: State, task: nat)
    requires task in s.tasks && s.tasks[task].Starting?
    requires task in GettingSession(s, task).0.tasks
    ensures var to := GettingSession(s, task).0.tasks[task];
            var model := s.tasks[task].model;
            if to.Ready? then
              && !s.closed && model in s.sessions && s.now < s.sessions[model].expires
              && to.session == s.sessions[model].session
            else
              to.Waiting? && to.model == model
  {
  }

  /**
   * Closing is final: whatever happens afterwards, both caches stay empty, no creation and no
   * verification is started, and none that has ended runs again. So the goroutines `Close`
   * waits for only ever become fewer.
   */
  lemma {:induction false} ClosedStaysEmpty(c: Config, s: State, steps: seq<Step>)
    requires Invariant(c, s)
    requires s.closed
    ensures var t := Run(c, s, steps);
            && t.closed && t.sessions == map[] && t.responses == map[]
            && |t.creations| == |s.creations| && |t.jobs| == |s.jobs|
            && (forall f :: 0 <= f < |s.creations| && s.creations[f].made.Some? ==> t.creations[f].made.Some?)
            && (forall j :: 0 <= j < |s.jobs| && s.jobs[j].answer.Some? ==> t.jobs[j].answer.Some?)
    decreases |steps|
  {
    hide SessionsInvariant, ResponsesInvariant, Next;
    if steps != [] {
      StepKeeps(c, s, steps[0]);
      ClosedStep(c, s, steps[0]);
      ClosedStaysEmpty(c, Next(c, s, steps[0]).0, steps[1..]);
    }
  }

  lemma ClosedStep(c: Config, s: State, step: Step)
    requires Off(c, s)
    requires s.closed
    ensures var t := Next(c, s, step).0;
            && t.closed
            && |t.creations| == |s.creations| && |t.jobs| == |s.jobs|
            && (forall f :: 0 <= f < |s.creations| && s.creations[f].made.Some? ==> t.creations[f].made.Some?)
            && (forall j :: 0 <= j < |s.jobs| && s.jobs[j].answer.Some? ==> t.jobs[j].answer.Some?)
  {
    hide GettingSession, FinishingCreation, Waking, Sending, Verifying, FinishingJob, Live, Unexpired;
    match step
    case Wake(task) => WakeSince(s, task);
    case Send(task) => SendSince(c.options, s, task);
    case GetSession(task) => ClosedGetSession(s, task);
    case FinishCreation(creation, made) => ClosedFinishCreation(c, s, creation, made);
    case VerifyResponse(reader, id) => ClosedVerify(s, reader, id);
    case FinishJob(job, answer) => FinishJobSince(c.options.algo, s, job, answer);
    case _ =>
  }

  lemma ClosedGetSession(s: State, task: nat)
    requires s.closed
    ensures GettingSession(s, task).0 == s.(tasks := GettingSession(s, task).0.tasks)
  {
  }

  lemma ClosedFinishCreation(c: Config, s: State, creation: nat, made: Made)
    ensures var t := FinishingCreation(c, s, creation, made);
            && t.closed == s.closed && t.jobs == s.jobs && |t.creations| == |s.creations|
            && forall f :: 0 <= f < |s.creations| && s.creations[f].made.Some? ==> t.creations[f].made.Some?
  {
    hide AdmittedBy, Live, Unexpired;
  }

  lemma ClosedVerify(s: State, reader: nat, id: string)
    requires s.responses == map[]
    ensures Verifying(s, reader, id).0 == s
  {
    assert id !in s.responses;
  }

  /** A running verification's record still has its bytes, those that were registered: it never reads released ones. */
  lemma RunningJobHasBytes(c: Config, s: State, j: nat)
    requires Reachable(c, s)
    requires j < |s.jobs| && s.jobs[j].answer.None?
    ensures s.jobs[j].record < |s.records|
    ensures var record := s.records[s.jobs[j].record];
            record.captured == Some(record.original) && record.verifying == Some(j)
  {
    ReachableKeeps(c, s);
    assert JobSound(c.options.algo, s.records, j, s.jobs[j]);
    assert RecordSound(s.jobs, s.jobs[j].record, s.records[s.jobs[j].record]);
  }

  /** A terminal outcome releases the bytes in its own step; a retryable one keeps them and can be followed. */
  lemma TerminalReleases(c: Config, s: State, j: nat, answer: Answer)
    requires Reachable(c, s)
    requires CanFinishJob(c.options.algo, s, j, answer)
    ensures s.jobs[j].record < |FinishingJob(c.options.algo, s, j, answer).records|
    ensures var r := s.jobs[j].record;
            var after := FinishingJob(c.options.algo, s, j, answer).records[r];
            if answer.outcome.Retryable?
            then after.verifying == None && after.captured == Some(after.original)
            else after.verifying == Some(j) && after.captured == None
  {
    RunningJobHasBytes(c, s, j);
  }

  /** What later steps cannot undo. */
  ghost predicate Since(s: State, t: State) {
    && |s.records| <= |t.records|
    && |s.jobs| <= |t.jobs|
    && (forall r :: 0 <= r < |s.records| ==> SameRecord(s.records[r], t.records[r]))
    && (forall j :: 0 <= j < |s.jobs| && s.jobs[j].answer.Some? ==> t.jobs[j] == s.jobs[j])
    && s.generation <= t.generation
    && s.now <= t.now
  }

  ghost predicate SameRecord(a: Record, b: Record) {
    a.id == b.id && a.expires == b.expires && a.model == b.model && a.generation == b.generation
    && a.original == b.original
  }

  lemma StepSince(c: Config, s: State, step: Step)
    ensures Since(s, Next(c, s, step).0)
  {
    hide GettingSession, FinishingCreation, Waking, Sending, Verifying, FinishingJob, Registering, Live, Unexpired;
    match step
    case Wake(task) => WakeSince(s, task);
    case Send(task) => SendSince(c.options, s, task);
    case GetSession(task) => GetSessionSince(s, task);
    case FinishCreation(creation, made) => FinishCreationTouches(c, s, creation, made);
    case Register(task, id, request, response, gatewayOnly) =>
      RegisterSince(c.responseTtl, s, task, id, request, response, gatewayOnly);
    case VerifyResponse(reader, id) => VerifySince(s, reader, id);
    case FinishJob(job, answer) => FinishJobSince(c.options.algo, s, job, answer);
    case _ =>
  }

  lemma GetSessionSince(s: State, task: nat)
    ensures Since(s, GettingSession(s, task).0)
    ensures GettingSession(s, task).0.responses == s.responses
  {
  }

  lemma RegisterSince(ttl: nat, s: State, task: nat, id: string, request: bytes, response: bytes, gatewayOnly: bool)
    ensures Since(s, Registering(ttl, s, task, id, request, response, gatewayOnly).0)
  {
    hide Live, Unexpired;
  }

  lemma VerifySince(s: State, reader: nat, id: string)
    ensures Since(s, Verifying(s, reader, id).0)
    ensures Verifying(s, reader, id).0.responses == s.responses
  {
    hide Started;
    if id in s.responses && s.responses[id] < |s.records| {
      StartedLeaves(s, s.responses[id]);
    }
  }

  lemma WakeSince(s: State, task: nat)
    ensures Waking(s, task).0 == s.(tasks := Waking(s, task).0.tasks)
  {
  }

  lemma SendSince(o: Options, s: State, task: nat)
    ensures Sending(o, s, task).0 == s.(tasks := Sending(o, s, task).0.tasks, sent := Sending(o, s, task).0.sent)
  {
  }

  lemma FinishJobSince(algo: Algo, s: State, job: nat, answer: Answer)
    ensures Since(s, FinishingJob(algo, s, job, answer))
    ensures var t := FinishingJob(algo, s, job, answer);
            t.responses == s.responses && t.closed == s.closed && t.creations == s.creations && |t.jobs| == |s.jobs|
  {
    hide Examine;
  }

  lemma {:induction false} RunSince(c: Config, s: State, steps: seq<Step>)
    ensures Since(s, Run(c, s, steps))
    decreases |steps|
  {
    hide Next;
    if steps != [] {
      StepSince(c, s, steps[0]);
      RunSince(c, Next(c, s, steps[0]).0, steps[1..]);
    }
  }

  /**
   * A terminal outcome never changes: after any further steps its job is as it was, the record
   * still points at it, and every other verification of the record was retryable.
   */
  lemma TerminalIsFinal(c: Config, s: State, job: nat, steps: seq<Step>)
    requires Reachable(c, s)
    requires job < |s.jobs| && Terminal(s.jobs[job])
    ensures var t := Run(c, s, steps);
            && job < |t.jobs| && t.jobs[job] == s.jobs[job]
            && s.jobs[job].record < |t.records|
            && t.records[s.jobs[job].record].verifying == Some(job)
            && forall j :: 0 <= j < |t.jobs| && t.jobs[j].record == s.jobs[job].record && Terminal(t.jobs[j]) ==> j == job
  {
    ReachableKeeps(c, s);
    RunKeeps(c, s, steps);
    RunSince(c, s, steps);
    var t := Run(c, s, steps);
    assert JobSound(c.options.algo, t.records, job, t.jobs[job]);
    forall j | 0 <= j < |t.jobs| && t.jobs[j].record == s.jobs[job].record && Terminal(t.jobs[j]) ensures j == job {
      assert JobSound(c.options.algo, t.records, j, t.jobs[j]);
    }
  }

  /**
   * A caller is only told that a response is proved if the bytes registered under its ID are, by
   * evidence of a session admitted for the model its request named.
   */
  lemma ProofsAreOfRegisteredBytes(c: Config, s: State, reader: nat, outcome: Outcome)
    requires Reachable(c, s)
    requires WakingReader(s, reader).1 == Answered(outcome) && outcome.Proved?
    ensures s.readers[reader] < |s.jobs| && s.jobs[s.readers[reader]].record < |s.records|
    ensures var record := s.records[s.jobs[s.readers[reader]].record];
            && (exists service :: ProvesBytes(service, c.options.algo, record.id, record.original, outcome))
            && MadeFor(c.options, s.creations, record.model, record.original.session)
  {
    ReachableKeeps(c, s);
    var j := s.readers[reader];
    assert JobSound(c.options.algo, s.records, j, s.jobs[j]);
    var record := s.records[s.jobs[j].record];
    ExamineMeaning(s.jobs[j].answer.value.service, c.options.algo, record.id, record.original);
  }

  /** `VerifyResponse` starts or joins a verification of the live record its ID names, or finds none. */
  lemma VerifiesWhatItNames(c: Config, s: State, reader: nat, id: string)
    requires Reachable(c, s) && reader !in s.readers
    ensures var (t, reply) := Verifying(s, reader, id);
            if reply == NotFound then t == s else Verifies(s, t, reader, id)
  {
    hide SessionsInvariant, JobsSound, Off, Reachable, Verifying, Verifies;
    ReachableKeeps(c, s);
    if id in s.responses {
      assert Retained(s.generation, s.records[s.responses[id]], id);
      assert RecordSound(s.jobs, s.responses[id], s.records[s.responses[id]]);
    }
    VerifyingAnswer(s, reader, id);
  }

  ghost predicate Verifies(s: State, t: State, reader: nat, id: string) {
    && reader in t.readers && t.readers[reader] < |t.jobs|
    && id in s.responses
    && t.jobs[t.readers[reader]].record == s.responses[id] < |s.records|
    && s.records[s.responses[id]].id == id
    && s.now < s.records[s.responses[id]].expires
  }

  lemma VerifyingAnswer(s: State, reader: nat, id: string)
    requires reader !in s.readers
    requires id in s.responses ==>
               && s.responses[id] < |s.records|
               && s.records[s.responses[id]].id == id
               && RecordSound(s.jobs, s.responses[id], s.records[s.responses[id]])
    ensures var (t, reply) := Verifying(s, reader, id);
            if reply == NotFound then t == s else Verifies(s, t, reader, id)
  {
  }

  /** After a clear, whatever is retained was begun after it. */
  lemma ClearedStaysGone(c: Config, s: State, steps: seq<Step>, id: string)
    requires Reachable(c, s)
    requires id in Run(c, Next(c, s, Clear).0, steps).responses
    ensures var t := Run(c, Next(c, s, Clear).0, steps);
            && t.responses[id] < |t.records|
            && t.records[t.responses[id]].id == id
            && s.generation < t.records[t.responses[id]].generation == t.generation
  {
    hide SessionsInvariant, RecordsSound, JobsSound, Off;
    ReachableKeeps(c, s);
    var cleared := Next(c, s, Clear).0;
    StepKeeps(c, s, Clear);
    RunKeeps(c, cleared, steps);
    RunSince(c, cleared, steps);
    var t := Run(c, cleared, steps);
    assert Retained(t.generation, t.records[t.responses[id]], id);
  }

  /** Until it expires, is cleared or the client closes, an ID stays with the record it was registered for. */
  lemma {:induction false} NeverRebound(c: Config, s: State, steps: seq<Step>, id: string)
    requires Invariant(c, s)
    requires id in s.responses
    requires Clear !in steps && Close !in steps
    requires Run(c, s, steps).now < s.records[s.responses[id]].expires
    ensures var t := Run(c, s, steps);
            && id in t.responses && t.responses[id] == s.responses[id] < |t.records|
            && SameRecord(s.records[s.responses[id]], t.records[s.responses[id]])
    decreases |steps|
  {
    hide SessionsInvariant, RecordsSound, JobsSound, Next, Off;
    RunSince(c, s, steps);
    if steps != [] {
      var t := Next(c, s, steps[0]).0;
      StepKeeps(c, s, steps[0]);
      StepSince(c, s, steps[0]);
      RunSince(c, t, steps[1..]);
      NotReboundByStep(c, s, steps[0], id);
      NeverRebound(c, t, steps[1..], id);
    }
  }

  lemma NotReboundByStep(c: Config, s: State, step: Step, id: string)
    requires id in s.responses && s.responses[id] < |s.records|
    requires step != Clear && step != Close
    requires s.now < s.records[s.responses[id]].expires
    ensures id in Next(c, s, step).0.responses && Next(c, s, step).0.responses[id] == s.responses[id]
  {
    hide GettingSession, FinishingCreation, Waking, Sending, Verifying, FinishingJob, Live, Since;
    match step
    case Wake(task) => WakeSince(s, task);
    case Send(task) => SendSince(c.options, s, task);
    case GetSession(task) => GetSessionSince(s, task);
    case FinishCreation(creation, made) => FinishCreationTouches(c, s, creation, made);
    case VerifyResponse(reader, id') => VerifySince(s, reader, id');
    case FinishJob(job, answer) => FinishJobSince(c.options.algo, s, job, answer);
    case _ =>
  }

  /** And a second registration under an ID still held is refused. */
  lemma DuplicateRefused(c: Config, s: State, task: nat, id: string, request: bytes, response: bytes, gatewayOnly: bool)
    requires Reachable(c, s)
    requires task in s.tasks && s.tasks[task].Sent? && s.tasks[task].generation == s.generation
    ensures var (t, reply) := Registering(c.responseTtl, s, task, id, request, response, gatewayOnly);
            && (reply == Duplicate <==>
                  id in s.responses && s.responses[id] < |s.records| && s.now < s.records[s.responses[id]].expires)
            && (reply == Duplicate ==> t.records == s.records && t.responses == s.responses)
  {
    hide SessionsInvariant, ResponsesInvariant, Unexpired, Live, Reachable;
    ReachableKeeps(c, s);
  }

  /** A session found in the cache was made for the model asked for. */
  lemma ReadyIsMadeFor(c: Config, s: State, task: nat)
    requires Reachable(c, s) && task in s.tasks && s.tasks[task].Starting?
    ensures var t := GettingSession(s, task).0;
            task in t.tasks && t.tasks[task].Ready? ==>
              !t.closed && MadeFor(c.options, t.creations, t.tasks[task].model, t.tasks[task].session)
  {
    hide Reachable, MadeFor, GettingSession;
    var t := GettingSession(s, task).0;
    if task in t.tasks {
      CachedSessionIsLive(c, s, task);
      ReadyChangesNothing(s, task);
    }
  }

  lemma ReadyChangesNothing(s: State, task: nat)
    requires task in s.tasks && s.tasks[task].Starting?
    ensures var t := GettingSession(s, task).0;
            task in t.tasks && t.tasks[task].Ready? ==>
              t == s.(tasks := t.tasks) && t.tasks[task].model == s.tasks[task].model
  {
  }

  // ----- The client object -----

  lemma {:induction false} RunSnoc(c: Config, s: State, steps: seq<Step>, last: Step)
    ensures Run(c, s, steps + [last]) == Next(c, Run(c, s, steps), last).0
    decreases |steps|
  {
    hide Next;
    if steps == [] {
      assert [] + [last] == [last] && [last][1..] == [];
    } else {
      RunSnoc(c, Next(c, s, steps[0]).0, steps[1..], last);
      assert (steps + [last])[1..] == steps[1..] + [last];
    }
  }

  lemma ReachableNext(c: Config, s: State, step: Step)
    requires Reachable(c, s)
    ensures Reachable(c, Next(c, s, step).0)
  {
    hide Next;
    var steps :| Run(c, INITIAL, steps) == s;
    RunSnoc(c, INITIAL, steps, step);
  }

  lemma RegisteringReachable(c: Config, s: State, task: nat, id: string, request: bytes, response: bytes, gatewayOnly: bool)
    requires Reachable(c, s)
    ensures Reachable(c, Registering(c.responseTtl, s, task, id, request, response, gatewayOnly).0)
  {
    hide Reachable, Registering;
    ReachableNext(c, s, Step.Register(task, id, request, response, gatewayOnly));
  }

  /** The client's state is always one some run leads to, so what holds in every run holds for it. */
  class InferenceClient {
    const config: Config
    var now: nat
    var closed: bool
    var sessions: map<string, Entry>
    var pending: map<string, nat>
    var creations: seq<Creation>
    var tasks: map<nat, Task>
    var sent: seq<Dispatch>
    var generation: nat
    var responses: map<string, nat>
    var records: seq<Record>
    var jobs: seq<Job>
    var readers: map<nat, nat>

    ghost function View(): State
      reads this
    {
      State(now, closed, sessions, pending, creations, tasks, sent, generation, responses, records, jobs, readers)
    }

    ghost predicate Valid()
      reads this
    {
      Reachable(config, View())
    }

    constructor (config: Config)
      ensures Valid() && View() == INITIAL && this.config == config
    {
      this.config, now, closed, generation := config, 0, false, 0;
      sessions, pending, creations, tasks, sent := map[], map[], [], map[], [];
      responses, records, jobs, readers := map[], [], [], map[];
      new;
      assert Run(config, INITIAL, []) == INITIAL;
    }

    /** go/client.go:127-138: what has expired goes, from both caches. */
    method Prune()
      modifies this
      ensures View() == Pruned(old(View()))
    {
      sessions := map m | m in sessions && now < sessions[m].expires :: sessions[m];
      responses := map id | id in responses && responses[id] < |records| && now < records[responses[id]].expires
                     :: responses[id];
    }

    method ClearResponseCache()
      requires Valid()
      modifies this
      ensures Valid() && View() == Next(config, old(View()), Clear).0
    {
      hide Reachable;
      ReachableNext(config, View(), Clear);
      generation := generation + 1;
      responses := map[];
    }

    /** However often it is called, a closed client's caches are empty. */
    method Close()
      requires Valid()
      modifies this
      ensures Valid() && View() == Closing(old(View()))
      ensures closed && sessions == map[] && responses == map[]
    {
      hide Reachable, SessionsInvariant, ResponsesInvariant;
      ReachableNext(config, View(), Step.Close);
      ReachableKeeps(config, View());
      if closed {
        return;
      }
      closed := true;
      sessions := map[];
      responses := map[];
    }

    method GetSession(task: nat) returns (reply: Reply)
      requires Valid() && task in tasks && tasks[task].Starting?
      modifies this
      ensures Valid() && (View(), reply) == GettingSession(old(View()), task)
      ensures task in tasks && tasks[task].Ready? ==>
                !closed && MadeFor(config.options, creations, tasks[task].model, tasks[task].session)
    {
      hide Reachable, MadeFor, SessionsInvariant, ResponsesInvariant;
      ReachableNext(config, View(), Step.GetSession(task));
      ReadyIsMadeFor(config, View(), task);
      var Starting(model, began) := tasks[task];
      if model == "" || closed {
        tasks := tasks - {task};
        return Failed;
      }
      reply := Silent;
      if model in sessions && now < sessions[model].expires {
        tasks := tasks[task := Ready(model, began, sessions[model].session)];
        return;
      }
      if model !in pending {
        pending := pending[model := |creations|];
        creations := creations + [Creation(model, None)];
      }
      tasks := tasks[task := Waiting(model, began, pending[model])];
    }

    /** The pending creation that goes is this one, never a later one of the same model. */
    method FinishCreation(creation: nat, made: Made)
      requires Valid() && CanFinish(config.options, View(), creation, made)
      modifies this
      ensures Valid() && View() == FinishingCreation(config, old(View()), creation, made)
      ensures var model := old(creations[creation].model);
              && model in old(pending) && old(pending)[model] == creation && pending == old(pending) - {model}
              && (made.result.Ok? && !closed && config.attestationTtl > 0 ==>
                    model in sessions && sessions[model] == Entry(now + config.attestationTtl, made.result.value, creation))
    {
      hide Reachable;
      SingleCreation(config, View(), creation, creation);
      ReachableNext(config, View(), Step.FinishCreation(creation, made));
      var model := creations[creation].model;
      creations := creations[creation := Creation(model, Some(made))];
      pending := pending - {model};
      if made.result.Ok? && !closed && config.attestationTtl > 0 {
        Prune();
        sessions := sessions[model := Entry(now + config.attestationTtl, made.result.value, creation)];
      }
    }

    /** A duplicate is refused only while the ID's record is live, and changes neither cache. */
    method Register(task: nat, id: string, request: bytes, response: bytes, gatewayOnly: bool) returns (reply: Reply)
      requires Valid() && task in tasks && tasks[task].Sent?
      modifies this
      ensures Valid()
      ensures (View(), reply) ==
              Registering(config.responseTtl, old(View()), task, id, request, response, gatewayOnly)
      ensures reply == Duplicate ==>
                && records == old(records) && responses == old(responses)
                && id in responses && responses[id] < |records| && now < records[responses[id]].expires
    {
      hide Reachable, Next;
      RegisteringReachable(config, View(), task, id, request, response, gatewayOnly);
      var Sent(model, began, session) := tasks[task];
      tasks := tasks - {task};
      if closed {
        return Failed;
      }
      if began != generation || config.responseTtl == 0 {
        return Done;
      }
      if id in responses && responses[id] < |records| && now < records[responses[id]].expires {
        return Duplicate;
      }
      Prune();
      var captured := Captured(request, response, session, gatewayOnly);
      responses := responses[id := |records|];
      records := records
        + [Record(id, now + config.responseTtl, model, began, captured, Some(captured), None)];
      reply := Done;
    }

    method VerifyResponse(reader: nat, id: string) returns (reply: Reply)
      requires Valid() && reader !in readers
      modifies this
      ensures Valid() && (View(), reply) == Verifying(old(View()), reader, id)
      ensures reply != NotFound ==> Verifies(old(View()), View(), reader, id)
    {
      hide Reachable, Verifies;
      ReachableNext(config, View(), Step.VerifyResponse(reader, id));
      VerifiesWhatItNames(config, View(), reader, id);
      if !(id in responses && responses[id] < |records| && now < records[responses[id]].expires) {
        return NotFound;
      }
      var r := responses[id];
      if records[r].verifying.None? {
        records := records[r := records[r].(verifying := Some(|jobs|))];
        jobs := jobs + [Job(r, None)];
      }
      readers := readers[reader := records[r].verifying.value];
      reply := Silent;
    }

    method FinishJob(job: nat, answer: Answer)
      requires Valid() && CanFinishJob(config.options.algo, View(), job, answer)
      modifies this
      ensures Valid() && View() == FinishingJob(config.options.algo, old(View()), job, answer)
      ensures jobs[job].record < |records|
      ensures var record := records[jobs[job].record];
              if answer.outcome.Retryable? then record.verifying == None && record.captured == Some(record.original)
              else record.verifying == Some(job) && record.captured == None
    {
      hide Reachable;
      ReachableNext(config, View(), Step.FinishJob(job, answer));
      TerminalReleases(config, View(), job, answer);
      var r := jobs[job].record;
      jobs := jobs[job := Job(r, Some(answer))];
      if answer.outcome.Retryable? {
        records := records[r := records[r].(verifying := None)];
      } else {
        records := records[r := records[r].(captured := None)];
      }
    }
  }
}
