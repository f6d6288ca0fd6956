/**
 * What the Go client does with a request that nothing goes wrong with, and with whatever else goes
 * on meanwhile: a session made is reused, a caller that waits gets what it waits for, a request is
 * sent under its session, and the response registered for it is found and verified.
 */
module GoClientProgress {
  import opened Bytes
  import opened Wrappers
  import opened Admission
  import opened Receipts
  import opened GoClient
  import opened GoClientRuns

  // ----- Sessions -----

  lemma {:induction false} TimePasses(c: Config, s: State, steps: seq<Step>)
    ensures s.now <= Run(c, s, steps).now
    decreases |steps|
  {
    hide Next;
    if steps != [] {
      StepSince(c, s, steps[0]);
      TimePasses(c, Next(c, s, steps[0]).0, steps[1..]);
    }
  }

  ghost predicate StillCached(s: State, t: State, model: string)
    requires model in s.sessions
  {
    model in t.sessions && t.sessions[model] == s.sessions[model] && model !in t.pending
  }

  lemma CachedStaysOnce(c: Config, s: State, model: string, step: Step)
    requires PendingSound(s.creations, s.pending)
    requires model in s.sessions && model !in s.pending && step != Close
    requires s.now < s.sessions[model].expires
    ensures StillCached(s, Next(c, s, step).0, model)
  {
    hide GettingSession, FinishingCreation, Waking, Sending, Verifying, FinishingJob, Unexpired;
    match step
    case GetSession(task) => GetSessionKeepsCached(s, task, model);
    case FinishCreation(creation, made) => FinishCreationKeepsCached(c, s, creation, made, model);
    case Wake(task) => WakeSince(s, task);
    case Send(task) => SendSince(c.options, s, task);
    case VerifyResponse(reader, id) => VerifyKeepsCached(s, reader, id, model);
    case FinishJob(job, answer) => FinishJobKeepsCached(c.options.algo, s, job, answer, model);
    case _ =>
  }

  lemma GetSessionKeepsCached(s: State, task: nat, model: string)
    requires model in s.sessions && model !in s.pending && s.now < s.sessions[model].expires
    ensures StillCached(s, GettingSession(s, task).0, model)
  {
  }

  lemma FinishCreationKeepsCached(c: Config, s: State, creation: nat, made: Made, model: string)
    requires PendingSound(s.creations, s.pending)
    requires model in s.sessions && model !in s.pending && s.now < s.sessions[model].expires
    ensures StillCached(s, FinishingCreation(c, s, creation, made), model)
  {
    hide Unexpired, AdmittedBy;
    if CanFinish(c.options, s, creation, made) {
      assert s.creations[creation].model in s.pending;
    }
  }

  lemma VerifyKeepsCached(s: State, reader: nat, id: string, model: string)
    requires model in s.sessions && model !in s.pending
    ensures StillCached(s, Verifying(s, reader, id).0, model)
  {
  }

  lemma FinishJobKeepsCached(algo: Algo, s: State, job: nat, answer: Answer, model: string)
    requires model in s.sessions && model !in s.pending
    ensures StillCached(s, FinishingJob(algo, s, job, answer), model)
  {
    hide Examine;
  }

  lemma {:induction false} CachedStays(c: Config, s: State, model: string, steps: seq<Step>)
    requires Invariant(c, s)
    requires model in s.sessions && model !in s.pending && Close !in steps
    requires Run(c, s, steps).now < s.sessions[model].expires
    ensures var t := Run(c, s, steps);
            model in t.sessions && t.sessions[model] == s.sessions[model]
    decreases |steps|
  {
    hide Next, CreationsSound, CacheSound, TasksSound, SentSound, OriginsSound, ResponsesInvariant, Off;
    if steps != [] {
      var t := Next(c, s, steps[0]).0;
      TimePasses(c, s, steps);
      StepKeeps(c, s, steps[0]);
      CachedStaysOnce(c, s, model, steps[0]);
      CachedStays(c, t, model, steps[1..]);
    }
  }

  /**
   * A creation that succeeds puts its session into the cache of an open client, and every request
   * for the model is given that session until its lifetime is over or the client closes.
   */
  lemma CreatedIsReused(c: Config, s: State, creation: nat, made: Made, steps: seq<Step>, task: nat)
    requires Reachable(c, s)
    requires CanFinish(c.options, s, creation, made) && made.result.Ok?
    requires !s.closed && Close !in steps
    ensures var model := s.creations[creation].model;
            var t := Run(c, FinishingCreation(c, s, creation, made), steps);
            t.now < s.now + c.attestationTtl && model != "" && !t.closed
            && task in t.tasks && t.tasks[task].Starting? && t.tasks[task].model == model ==>
              GettingSession(t, task) ==
              (t.(tasks := t.tasks[task := Ready(model, t.tasks[task].generation, made.result.value)]), Silent)
  {
    hide Reachable, Invariant, Unexpired, Live, AdmittedBy, Next;
    ReachableKeeps(c, s);
    FinishCreationKept(c, s, creation, made);
    var after := FinishingCreation(c, s, creation, made);
    var t := Run(c, after, steps);
    TimePasses(c, after, steps);
    if t.now < s.now + c.attestationTtl {
      CachedStays(c, after, s.creations[creation].model, steps);
    }
  }

  lemma FinishCreationKept(c: Config, s: State, creation: nat, made: Made)
    requires Invariant(c, s)
    ensures Invariant(c, FinishingCreation(c, s, creation, made))
  {
    hide Invariant, FinishingCreation;
    StepKeeps(c, s, FinishCreation(creation, made));
  }

  /**
   * What `getSession` does: it fails for a closed client or an empty model; otherwise it gives the
   * cached session, or the caller waits for the creation that is pending or, if there is none, for
   * a new one.
   */
  lemma SessionOrCreation(s: State, task: nat)
    requires task in s.tasks && s.tasks[task].Starting?
    ensures var (t, reply) := GettingSession(s, task);
            var model := s.tasks[task].model;
            && (reply == Failed <==> s.closed || model == "")
            && (reply == Failed <==> task !in t.tasks)
            && (reply != Failed ==> match t.tasks[task]
                case Ready(_, _, session) => model in s.sessions && session == s.sessions[model].session
                case Waiting(_, _, creation) =>
                  && (model in s.sessions ==> s.sessions[model].expires <= s.now)
                  && if model in s.pending then creation == s.pending[model] && t.creations == s.creations
                     else creation == |s.creations| && t.creations == s.creations + [Creation(model, None)]
                case _ => false)
  {
  }

  /** What is put into either cache leaves nothing in them that has expired. */
  lemma NothingExpired(c: Config, s: State)
    ensures var t := Next(c, s, Prune).0;
            && (forall m :: m in t.sessions <==> m in s.sessions && s.now < s.sessions[m].expires)
            && (forall m :: m in t.sessions ==> t.sessions[m] == s.sessions[m])
            && (forall id :: id in t.responses <==>
                  id in s.responses && s.responses[id] < |s.records| && s.now < s.records[s.responses[id]].expires)
            && (forall id :: id in t.responses ==> t.responses[id] == s.responses[id])
  {
  }

  // ----- A request -----

  /** The steps a request takes itself. */
  predicate Names(step: Step, task: nat) {
    match step
    case Begin(t, _) => t == task
    case GetSession(t) => t == task
    case Wake(t) => t == task
    case Send(t) => t == task
    case Register(t, _, _, _, _) => t == task
    case GiveUp(t) => t == task
    case _ => false
  }

  ghost predicate Left(s: State, t: State, task: nat)
    requires task in s.tasks
  {
    task in t.tasks && t.tasks[task] == s.tasks[task] && Grown(s.creations, t.creations) && s.generation <= t.generation
  }

  lemma OneLeavesIt(c: Config, s: State, task: nat, step: Step)
    requires task in s.tasks && !Names(step, task)
    ensures Left(s, Next(c, s, step).0, task)
  {
    hide GettingSession, FinishingCreation, Waking, Sending, Verifying, FinishingJob, Registering;
    match step
    case GetSession(other) => GetSessionLeavesIt(s, other, task);
    case FinishCreation(creation, made) => FinishCreationLeavesIt(c, s, creation, made, task);
    case Wake(other) => WakeLeavesIt(s, other, task);
    case Send(other) => SendLeavesIt(c.options, s, other, task);
    case Register(other, id, request, response, gatewayOnly) =>
      RegisterLeavesIt(c.responseTtl, s, other, id, request, response, gatewayOnly, task);
    case VerifyResponse(reader, id) => VerifyLeavesIt(s, reader, id, task);
    case FinishJob(job, answer) => FinishJobLeavesIt(c.options.algo, s, job, answer, task);
    case _ =>
  }

  lemma GetSessionLeavesIt(s: State, other: nat, task: nat)
    requires task in s.tasks && other != task
    ensures Left(s, GettingSession(s, other).0, task)
  {
  }

  lemma FinishCreationLeavesIt(c: Config, s: State, creation: nat, made: Made, task: nat)
    requires task in s.tasks
    ensures Left(s, FinishingCreation(c, s, creation, made), task)
  {
    hide AdmittedBy, Live, Unexpired;
  }

  lemma WakeLeavesIt(s: State, other: nat, task: nat)
    requires task in s.tasks && other != task
    ensures Left(s, Waking(s, other).0, task)
  {
  }

  lemma SendLeavesIt(o: Options, s: State, other: nat, task: nat)
    requires task in s.tasks && other != task
    ensures Left(s, Sending(o, s, other).0, task)
  {
  }

  lemma RegisterLeavesIt(ttl: nat, s: State, other: nat, id: string, request: bytes, response: bytes, gatewayOnly: bool,
                         task: nat)
    requires task in s.tasks && other != task
    ensures Left(s, Registering(ttl, s, other, id, request, response, gatewayOnly).0, task)
  {
    hide Live, Unexpired;
  }

  lemma VerifyLeavesIt(s: State, reader: nat, id: string, task: nat)
    requires task in s.tasks
    ensures Left(s, Verifying(s, reader, id).0, task)
  {
  }

  lemma FinishJobLeavesIt(algo: Algo, s: State, job: nat, answer: Answer, task: nat)
    requires task in s.tasks
    ensures Left(s, FinishingJob(algo, s, job, answer), task)
  {
    hide Examine;
  }

  lemma {:induction false} OthersLeaveIt(c: Config, s: State, task: nat, steps: seq<Step>)
    requires task in s.tasks
    requires forall i :: 0 <= i < |steps| ==> !Names(steps[i], task)
    ensures var t := Run(c, s, steps);
            Left(s, t, task)
    decreases |steps|
  {
    hide Next;
    if steps != [] {
      assert !Names(steps[0], task);
      OneLeavesIt(c, s, task, steps[0]);
      forall i | 0 <= i < |steps[1..]| ensures !Names(steps[1..][i], task) {
        assert !Names(steps[i + 1], task);
      }
      OthersLeaveIt(c, Next(c, s, steps[0]).0, task, steps[1..]);
    }
  }

  /**
   * Whatever the others do meanwhile, a request that waits for a creation goes on with that
   * creation's session once it is made, and fails exactly when the creation did.
   */
  lemma WaitingGetsItsSession(c: Config, s: State, task: nat, steps: seq<Step>)
    requires Reachable(c, s) && task in s.tasks && s.tasks[task].Waiting?
    requires forall i :: 0 <= i < |steps| ==> !Names(steps[i], task)
    ensures var Waiting(model, generation, creation) := s.tasks[task];
            var t := Run(c, s, steps);
            && creation < |t.creations| && t.creations[creation].model == model
            && match t.creations[creation].made
               case None => Waking(t, task) == (t, Silent)
               case Some(made) =>
                 if made.result.Ok?
                 then Waking(t, task) == (t.(tasks := t.tasks[task := Ready(model, generation, made.result.value)]), Silent)
                 else Waking(t, task) == (t.(tasks := t.tasks - {task}), Failed)
  {
    hide Reachable, ResponsesInvariant, PendingSound, CreationsSound, CacheSound, SentSound, OriginsSound, Next;
    ReachableKeeps(c, s);
    assert TaskSound(c.options, s.creations, s.generation, s.tasks[task]);
    OthersLeaveIt(c, s, task, steps);
  }

  /** A request with a session is sent under it, unless it must be encrypted and there is no key to encrypt it to. */
  lemma SentUnderItsSession(o: Options, s: State, task: nat)
    requires task in s.tasks && s.tasks[task].Ready?
    ensures var Ready(model, generation, session) := s.tasks[task];
            var (t, reply) := Sending(o, s, task);
            if o.e2ee && session.selected == None then t.sent == s.sent && task !in t.tasks && reply == Failed
            else t.sent == s.sent + [Dispatch(model, session)] && task in t.tasks
                 && t.tasks[task] == Sent(model, generation, session) && reply != Failed
  {
  }

  // ----- Its response -----

  /**
   * A response whose request was not overtaken by a clear is retained under an ID nobody holds, and
   * whoever asks for the ID before it expires gets a verification of the record of the very bytes
   * and flag that were handed in, and of the session the request was sent under, whatever happens
   * in between short of a clear and the end of the client.
   */
  lemma RegisteredIsFound(c: Config, s: State, task: nat, id: string, request: bytes, response: bytes, gatewayOnly: bool,
                          steps: seq<Step>, reader: nat)
    requires Reachable(c, s)
    requires task in s.tasks && s.tasks[task].Sent? && s.tasks[task].generation == s.generation
    requires !s.closed && c.responseTtl > 0
    requires Registering(c.responseTtl, s, task, id, request, response, gatewayOnly).1 != Duplicate
    requires Clear !in steps && Close !in steps
    ensures var r := |s.records|;
            var after := Registering(c.responseTtl, s, task, id, request, response, gatewayOnly).0;
            var t := Run(c, after, steps);
            var original := Captured(request, response, s.tasks[task].session, gatewayOnly);
            && |after.records| == r + 1 && after.records[r].captured == Some(original) && after.records[r].verifying == None
            && (t.now < s.now + c.responseTtl && reader !in t.readers ==>
                  var (found, reply) := Verifying(t, reader, id);
                  && reply == Silent && reader in found.readers && found.readers[reader] < |found.jobs|
                  && found.jobs[found.readers[reader]].record == r < |found.records|
                  && found.records[r].id == id && found.records[r].original == original
                  && found.records[r].model == s.tasks[task].model)
  {
    hide Reachable, Invariant, Next, Registering, Verifying, Verifies;
    ReachableKeeps(c, s);
    var after := Registering(c.responseTtl, s, task, id, request, response, gatewayOnly).0;
    var t := Run(c, after, steps);
    Retains(c, s, task, id, request, response, gatewayOnly);
    RegisteringReachable(c, s, task, id, request, response, gatewayOnly);
    ReachableKeeps(c, after);
    if t.now < s.now + c.responseTtl && reader !in t.readers {
      NeverRebound(c, after, steps, id);
      RunKeeps(c, after, steps);
      LiveIsVerified(c, t, reader, id);
    }
  }

  lemma Retains(c: Config, s: State, task: nat, id: string, request: bytes, response: bytes, gatewayOnly: bool)
    requires task in s.tasks && s.tasks[task].Sent? && s.tasks[task].generation == s.generation
    requires !s.closed && c.responseTtl > 0
    requires Registering(c.responseTtl, s, task, id, request, response, gatewayOnly).1 != Duplicate
    ensures var t := Registering(c.responseTtl, s, task, id, request, response, gatewayOnly).0;
            var Sent(model, generation, session) := s.tasks[task];
            var captured := Captured(request, response, session, gatewayOnly);
            && t.records == s.records
                 + [Record(id, s.now + c.responseTtl, model, generation, captured, Some(captured), None)]
            && id in t.responses && t.responses[id] == |s.records|
  {
    hide Live, Unexpired;
  }

  lemma LiveIsVerified(c: Config, s: State, reader: nat, id: string)
    requires Invariant(c, s) && reader !in s.readers
    requires id in s.responses && s.responses[id] < |s.records| && s.now < s.records[s.responses[id]].expires
    ensures var (t, reply) := Verifying(s, reader, id);
            var r := s.responses[id];
            && reply == Silent && reader in t.readers && t.readers[reader] < |t.jobs|
            && t.jobs[t.readers[reader]].record == r < |t.records|
            && SameRecord(s.records[r], t.records[r]) && s.records[r].id == id
  {
    hide SessionsInvariant, JobsSound, Off;
    assert RecordSound(s.jobs, s.responses[id], s.records[s.responses[id]]);
    assert Retained(s.generation, s.records[s.responses[id]], id);
  }

  /**
   * And a caller that waits for a verification is answered: it has ended, or whatever the service
   * says it can end, with the examination of the bytes registered; and its outcome is the answer.
   */
  lemma WaitingIsAnswered(c: Config, s: State, reader: nat, service: Service)
    requires Reachable(c, s) && reader in s.readers
    ensures s.readers[reader] < |s.jobs| && s.jobs[s.readers[reader]].record < |s.records|
    ensures var job := s.readers[reader];
            var record := s.records[s.jobs[job].record];
            match s.jobs[job].answer
            case Some(answer) =>
              && WakingReader(s, reader).1 == Answered(answer.outcome)
              && (answer.outcome == Retryable
                  || answer.outcome == Examine(answer.service, c.options.algo, record.id, record.original))
            case None =>
              var outcome := Examine(service, c.options.algo, record.id, record.original);
              var t := FinishingJob(c.options.algo, s, job, Answer(service, outcome));
              WakingReader(t, reader).1 == Answered(outcome)
  {
    hide Examine, SessionsInvariant, ResponsesSound, Off;
    ReachableKeeps(c, s);
    var job := s.readers[reader];
    assert JobSound(c.options.algo, s.records, job, s.jobs[job]);
    assert RecordSound(s.jobs, s.jobs[job].record, s.records[s.jobs[job].record]);
  }

  /** A request that a clear overtakes retains nothing, however long after the clear it ends. */
  lemma OvertakenIsDropped(c: Config, s: State, task: nat, steps: seq<Step>, id: string, request: bytes, response: bytes,
                           gatewayOnly: bool)
    requires Reachable(c, s) && task in s.tasks && s.tasks[task].Sent?
    requires forall i :: 0 <= i < |steps| ==> !Names(steps[i], task)
    ensures var t := Run(c, Next(c, s, Clear).0, steps);
            Registering(c.responseTtl, t, task, id, request, response, gatewayOnly)
            == (t.(tasks := t.tasks - {task}), if t.closed then Failed else Done)
  {
    hide Reachable, ResponsesInvariant, PendingSound, CreationsSound, CacheSound, SentSound, OriginsSound;
    ReachableKeeps(c, s);
    assert TaskSound(c.options, s.creations, s.generation, s.tasks[task]);
    OthersLeaveIt(c, Next(c, s, Clear).0, task, steps);
  }
}
