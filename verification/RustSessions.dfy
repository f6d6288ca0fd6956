/**
 * The session cache of the Rust client (rs/src/inference.rs:257-311) as a protocol: callers run
 * concurrently, may be dropped at any await, and meet only in the two critical sections of
 * `session` and in the shared creation futures.
 *
 * A creation future is its index in `creations`, in the order they were made; that history is
 * kept after the future itself is gone. `pending` holds weak references: one upgrades exactly
 * when some caller still holds the future.
 */
module RustSessions {
  import opened Wrappers
  import opened Admission

  /** What a creation ended with, and what the world had answered to it. */
  datatype Answer = Answer(world: World, result: Result<Session>)

  datatype Creation = Creation(model: string, answer: Option<Answer>)

  /** A caller suspended at `future.clone().await`, holding the future. */
  datatype Caller = Caller(model: string, creation: nat)

  /** A cache entry; `creation` records, for the proofs, which creation it came from. */
  datatype Entry = Entry(at: nat, session: Session, creation: nat)

  datatype State = State(
    now: nat,
    sessions: map<string, Entry>,
    pending: map<string, nat>,
    creations: seq<Creation>,
    callers: map<nat, Caller>,
    stored: seq<nat>)   // history: the creations put into the cache, in order

  const INITIAL := State(0, map[], map[], [], map[], [])

  /** Anything that can happen next. A step that is not possible changes nothing. */
  datatype Step =
    | Enter(caller: nat, model: string)
    | Resolve(creation: nat, answer: Answer)
    | Leave(caller: nat)
    | Abandon(caller: nat)
    | Tick(elapsed: nat)

  /** What a step hands back to a caller, if it hands anything back. */
  type Reply = Option<Result<Session>>

  predicate Held(callers: map<nat, Caller>, creation: nat) {
    exists c :: c in callers && callers[c].creation == creation
  }

  predicate Canonical(model: string) {
    model != "" && model != "." && model != ".."
  }

  function Fresh(s: State, ttl: nat): map<string, Entry>
    ensures Fresh(s, ttl).Keys <= s.sessions.Keys
  {
    map m | m in s.sessions && s.now - s.sessions[m].at < ttl :: s.sessions[m]
  }

  function Upgradable(s: State): map<string, nat>
    ensures Upgradable(s).Keys <= s.pending.Keys
  {
    map m | m in s.pending && Held(s.callers, s.pending[m]) :: s.pending[m]
  }

  /** The first critical section: a live entry, else a live creation, else a new creation. */
  function Entered(s: State, ttl: nat, caller: nat, model: string): (State, Reply) {
    if caller in s.callers then (s, None)
    else if !Canonical(model) then (s, Some(Err))
    else
      var kept := s.(sessions := Fresh(s, ttl));
      if model in kept.sessions then (kept, Some(Ok(kept.sessions[model].session)))
      else
        var live := kept.(pending := Upgradable(s));
        if model in live.pending then
          (live.(callers := s.callers[caller := Caller(model, live.pending[model])]), None)
        else
          (live.(pending := live.pending[model := |s.creations|],
                 creations := s.creations + [Creation(model, None)],
                 callers := s.callers[caller := Caller(model, |s.creations|)]), None)
  }

  /** A creation finishes while somebody still polls it. A Gateway client's is `CreateSession`. */
  predicate CanResolve(o: Options, s: State, creation: nat, answer: Answer) {
    && creation < |s.creations|
    && s.creations[creation].answer.None?
    && Held(s.callers, creation)
    && (!o.direct ==> answer.result == CreateSession(o, answer.world, s.creations[creation].model))
  }

  function Resolved(o: Options, s: State, creation: nat, answer: Answer): State {
    if CanResolve(o, s, creation, answer) then
      s.(creations := s.creations[creation := s.creations[creation].(answer := Some(answer))])
    else s
  }

  predicate CanLeave(s: State, caller: nat) {
    && caller in s.callers
    && s.callers[caller].creation < |s.creations|
    && s.creations[s.callers[caller].creation].answer.Some?
  }

  /** The second critical section: only the creation still pending may store its session. */
  function Left(s: State, ttl: nat, caller: nat): (State, Reply) {
    if !CanLeave(s, caller) then (s, None)
    else
      var Caller(model, creation) := s.callers[caller];
      var result := s.creations[creation].answer.value.result;
      var gone := s.(callers := s.callers - {caller});
      if model in s.pending && s.pending[model] == creation then
        var done := gone.(pending := s.pending - {model});
        if result.Ok? && ttl != 0 then
          (done.(sessions := s.sessions[model := Entry(s.now, result.value, creation)],
                 stored := s.stored + [creation]), Some(result))
        else (done, Some(result))
      else (gone, Some(result))
  }

  function Next(o: Options, ttl: nat, s: State, step: Step): (State, Reply) {
    match step
    case Enter(caller, model) => Entered(s, ttl, caller, model)
    case Resolve(creation, answer) => (Resolved(o, s, creation, answer), None)
    case Leave(caller) => Left(s, ttl, caller)
    case Abandon(caller) => (s.(callers := s.callers - {caller}), None)
    case Tick(elapsed) => (s.(now := s.now + elapsed), None)
  }

  function Run(o: Options, ttl: nat, s: State, steps: seq<Step>): State
    decreases |steps|
  {
    if steps == [] then s else Run(o, ttl, Next(o, ttl, s, steps[0]).0, steps[1..])
  }

  // ----- The invariant -----

  /** A creation somebody waits for and that has not finished is the pending one of its model. */
  ghost predicate CallerSound(creations: seq<Creation>, pending: map<string, nat>, c: Caller) {
    && c.creation < |creations|
    && creations[c.creation].model == c.model
    && Canonical(c.model)
    && (creations[c.creation].answer.None? ==> c.model in pending && pending[c.model] == c.creation)
  }

  ghost predicate CallersSound(creations: seq<Creation>, pending: map<string, nat>, callers: map<nat, Caller>) {
    forall c :: c in callers ==> CallerSound(creations, pending, callers[c])
  }

  /** A pending creation is the newest one ever made for its model. */
  ghost predicate NewestFor(creations: seq<Creation>, model: string, creation: nat) {
    && creation < |creations|
    && creations[creation].model == model
    && forall g :: creation < g < |creations| ==> creations[g].model != model
  }

  ghost predicate PendingSound(creations: seq<Creation>, pending: map<string, nat>) {
    forall m :: m in pending ==> NewestFor(creations, m, pending[m])
  }

  ghost predicate WasStored(creations: seq<Creation>, pending: map<string, nat>, creation: nat) {
    && creation < |creations|
    && creations[creation].answer.Some?
    && creations[creation].answer.value.result.Ok?
    && (creations[creation].model in pending ==> creation < pending[creations[creation].model])
  }

  ghost predicate StoredSound(creations: seq<Creation>, pending: map<string, nat>, stored: seq<nat>) {
    forall f :: f in stored ==> WasStored(creations, pending, f)
  }

  predicate SameModel(creations: seq<Creation>, f: nat, g: nat) {
    f < |creations| && g < |creations| && creations[f].model == creations[g].model
  }

  /** The cache of a model only ever moves on to newer creations, so none is stored twice. */
  ghost predicate StoredInOrder(creations: seq<Creation>, stored: seq<nat>) {
    forall i, j :: 0 <= i < j < |stored| && SameModel(creations, stored[i], stored[j]) ==> stored[i] < stored[j]
  }

  ghost predicate EntrySound(now: nat, creations: seq<Creation>, stored: seq<nat>, model: string, e: Entry) {
    && e.at <= now
    && e.creation in stored
    && e.creation < |creations|
    && creations[e.creation].model == model
    && creations[e.creation].answer.Some?
    && creations[e.creation].answer.value.result == Ok(e.session)
  }

  ghost predicate CacheSound(now: nat, creations: seq<Creation>, stored: seq<nat>, sessions: map<string, Entry>) {
    forall m :: m in sessions ==> EntrySound(now, creations, stored, m, sessions[m])
  }

  ghost predicate AnswerSound(o: Options, c: Creation) {
    c.answer.Some? && !o.direct ==> c.answer.value.result == CreateSession(o, c.answer.value.world, c.model)
  }

  ghost predicate AnswersSound(o: Options, creations: seq<Creation>) {
    forall f :: 0 <= f < |creations| ==> AnswerSound(o, creations[f])
  }

  ghost predicate Invariant(o: Options, ttl: nat, s: State) {
    && CallersSound(s.creations, s.pending, s.callers)
    && PendingSound(s.creations, s.pending)
    && StoredSound(s.creations, s.pending, s.stored)
    && StoredInOrder(s.creations, s.stored)
    && CacheSound(s.now, s.creations, s.stored, s.sessions)
    && AnswersSound(o, s.creations)
    && (ttl == 0 ==> s.sessions == map[] && s.stored == [])
  }

  lemma FreshKeeps(o: Options, ttl: nat, s: State)
    requires Invariant(o, ttl, s)
    ensures Invariant(o, ttl, s.(sessions := Fresh(s, ttl)))
  {
    hide CallersSound, PendingSound, StoredSound, StoredInOrder, EntrySound, AnswersSound;
  }

  /** Dropping dead weak references loses no creation that somebody waits for. */
  lemma UpgradeKeeps(o: Options, ttl: nat, s: State)
    requires Invariant(o, ttl, s)
    ensures Invariant(o, ttl, s.(pending := Upgradable(s)))
  {
    hide StoredInOrder, CacheSound, AnswersSound, NewestFor;
    forall c | c in s.callers ensures CallerSound(s.creations, Upgradable(s), s.callers[c]) {
      assert CallerSound(s.creations, s.pending, s.callers[c]);
      assert Held(s.callers, s.callers[c].creation);
    }
  }

  lemma JoinKeeps(o: Options, ttl: nat, s: State, caller: nat, model: string)
    requires Invariant(o, ttl, s)
    requires model in s.pending && Canonical(model)
    ensures Invariant(o, ttl, s.(callers := s.callers[caller := Caller(model, s.pending[model])]))
  {
    hide StoredSound, StoredInOrder, CacheSound, AnswersSound;
    assert NewestFor(s.creations, model, s.pending[model]);
  }

  /** What is known about finished creations outlives the making and finishing of others. */
  ghost predicate Grown(before: seq<Creation>, after: seq<Creation>) {
    && |before| <= |after|
    && forall f :: 0 <= f < |before| ==>
         after[f].model == before[f].model && (before[f].answer.Some? ==> after[f] == before[f])
  }

  lemma HistoryOutlives(s: State, creations: seq<Creation>)
    requires Grown(s.creations, creations)
    requires StoredSound(s.creations, s.pending, s.stored)
    requires StoredInOrder(s.creations, s.stored)
    requires CacheSound(s.now, s.creations, s.stored, s.sessions)
    ensures StoredSound(creations, s.pending, s.stored)
    ensures StoredInOrder(creations, s.stored)
    ensures CacheSound(s.now, creations, s.stored, s.sessions)
  {
    forall i, j | 0 <= i < j < |s.stored| && SameModel(creations, s.stored[i], s.stored[j])
      ensures s.stored[i] < s.stored[j]
    {
      assert WasStored(s.creations, s.pending, s.stored[i]) && WasStored(s.creations, s.pending, s.stored[j]);
      assert SameModel(s.creations, s.stored[i], s.stored[j]);
    }
    forall m | m in s.sessions ensures EntrySound(s.now, creations, s.stored, m, s.sessions[m]) {
      assert EntrySound(s.now, s.creations, s.stored, m, s.sessions[m]);
    }
  }

  /** A creation is made only when none is pending for the model. */
  lemma CreateKeeps(o: Options, ttl: nat, s: State, caller: nat, model: string)
    requires Invariant(o, ttl, s)
    requires model !in s.pending && Canonical(model)
    ensures Invariant(o, ttl, s.(pending := s.pending[model := |s.creations|],
                                 creations := s.creations + [Creation(model, None)],
                                 callers := s.callers[caller := Caller(model, |s.creations|)]))
  {
    hide StoredInOrder, CacheSound, CreateSession;
    var creations := s.creations + [Creation(model, None)];
    var pending := s.pending[model := |s.creations|];
    HistoryOutlives(s, creations);
    forall c | c in s.callers ensures CallerSound(creations, pending, s.callers[c]) {
      assert CallerSound(s.creations, s.pending, s.callers[c]);
    }
    forall m | m in s.pending ensures NewestFor(creations, m, s.pending[m]) {
      assert NewestFor(s.creations, m, s.pending[m]);
    }
    forall f | f in s.stored ensures WasStored(creations, pending, f) {
      assert WasStored(s.creations, s.pending, f);
    }
    assert AnswersSound(o, creations);
  }

  lemma EnterKeeps(o: Options, ttl: nat, s: State, caller: nat, model: string)
    requires Invariant(o, ttl, s)
    ensures Invariant(o, ttl, Entered(s, ttl, caller, model).0)
  {
    hide Invariant, Fresh, Upgradable;
    var kept := s.(sessions := Fresh(s, ttl));
    FreshKeeps(o, ttl, s);
    UpgradeKeeps(o, ttl, kept);
    var live := kept.(pending := Upgradable(s));
    assert Upgradable(kept) == Upgradable(s) by {
      UpgradableReads(s, kept);
    }
    if !Canonical(model) {
    } else if model in live.pending {
      JoinKeeps(o, ttl, live, caller, model);
    } else {
      CreateKeeps(o, ttl, live, caller, model);
    }
  }

  lemma UpgradableReads(s: State, t: State)
    requires s.pending == t.pending && s.callers == t.callers
    ensures Upgradable(s) == Upgradable(t)
  {
  }

  lemma ResolveKeeps(o: Options, ttl: nat, s: State, creation: nat, answer: Answer)
    requires Invariant(o, ttl, s)
    ensures Invariant(o, ttl, Resolved(o, s, creation, answer))
  {
    hide StoredSound, StoredInOrder, CacheSound, CreateSession;
    if CanResolve(o, s, creation, answer) {
      var creations := Resolved(o, s, creation, answer).creations;
      HistoryOutlives(s, creations);
      forall c | c in s.callers ensures CallerSound(creations, s.pending, s.callers[c]) {
        assert CallerSound(s.creations, s.pending, s.callers[c]);
      }
      forall m | m in s.pending ensures NewestFor(creations, m, s.pending[m]) {
        assert NewestFor(s.creations, m, s.pending[m]);
      }
    }
  }

  lemma DropKeeps(o: Options, ttl: nat, s: State, caller: nat)
    requires Invariant(o, ttl, s)
    ensures Invariant(o, ttl, s.(callers := s.callers - {caller}))
  {
    hide CallerSound, PendingSound, StoredSound, StoredInOrder, CacheSound, AnswersSound;
  }

  /** A finished creation may stop being pending. */
  lemma UnpendKeeps(o: Options, ttl: nat, s: State, model: string)
    requires Invariant(o, ttl, s)
    requires model in s.pending
    requires s.pending[model] < |s.creations| && s.creations[s.pending[model]].answer.Some?
    ensures Invariant(o, ttl, s.(pending := s.pending - {model}))
  {
    hide StoredInOrder, CacheSound, AnswersSound, NewestFor;
    forall c | c in s.callers ensures CallerSound(s.creations, s.pending - {model}, s.callers[c]) {
      assert CallerSound(s.creations, s.pending, s.callers[c]);
    }
  }

  lemma StoreKeeps(o: Options, ttl: nat, s: State, model: string, creation: nat, session: Session)
    requires Invariant(o, ttl, s)
    requires ttl != 0 && NewestFor(s.creations, model, creation) && model !in s.pending && creation !in s.stored
    requires s.creations[creation].answer.Some? && s.creations[creation].answer.value.result == Ok(session)
    ensures Invariant(o, ttl, s.(sessions := s.sessions[model := Entry(s.now, session, creation)],
                                 stored := s.stored + [creation]))
  {
    hide CallersSound, PendingSound, AnswersSound;
    var stored := s.stored + [creation];
    forall i | 0 <= i < |s.stored| ensures SameModel(s.creations, s.stored[i], creation) ==> s.stored[i] < creation {
      assert WasStored(s.creations, s.pending, s.stored[i]);
    }
    assert forall m :: m in s.sessions ==> EntrySound(s.now, s.creations, stored, m, s.sessions[m]) by {
      forall m | m in s.sessions ensures EntrySound(s.now, s.creations, stored, m, s.sessions[m]) {
        assert EntrySound(s.now, s.creations, s.stored, m, s.sessions[m]);
      }
    }
  }

  lemma LeaveKeeps(o: Options, ttl: nat, s: State, caller: nat)
    requires Invariant(o, ttl, s)
    ensures Invariant(o, ttl, Left(s, ttl, caller).0)
  {
    hide CallersSound, StoredInOrder, CacheSound, AnswersSound;
    DropKeeps(o, ttl, s, caller);
    if CanLeave(s, caller) {
      var Caller(model, creation) := s.callers[caller];
      var result := s.creations[creation].answer.value.result;
      var gone := s.(callers := s.callers - {caller});
      if model in s.pending && s.pending[model] == creation {
        var done := gone.(pending := s.pending - {model});
        assert NewestFor(s.creations, model, creation);
        UnpendKeeps(o, ttl, gone, model);
        if result.Ok? && ttl != 0 {
          assert !WasStored(s.creations, s.pending, creation);
          StoreKeeps(o, ttl, done, model, creation, result.value);
        }
      }
    }
  }

  lemma StepKeeps(o: Options, ttl: nat, s: State, step: Step)
    requires Invariant(o, ttl, s)
    ensures Invariant(o, ttl, Next(o, ttl, s, step).0)
  {
    hide Invariant, Entered, Resolved, Left;
    match step
    case Enter(caller, model) => EnterKeeps(o, ttl, s, caller, model);
    case Resolve(creation, answer) => ResolveKeeps(o, ttl, s, creation, answer);
    case Leave(caller) => LeaveKeeps(o, ttl, s, caller);
    case Abandon(caller) => DropKeeps(o, ttl, s, caller);
    case Tick(elapsed) => TickKeeps(o, ttl, s, elapsed);
  }

  lemma TickKeeps(o: Options, ttl: nat, s: State, elapsed: nat)
    requires Invariant(o, ttl, s)
    ensures Invariant(o, ttl, s.(now := s.now + elapsed))
  {
    hide CallersSound, PendingSound, StoredSound, StoredInOrder, AnswersSound;
  }

  lemma {:induction false} RunKeeps(o: Options, ttl: nat, s: State, steps: seq<Step>)
    requires Invariant(o, ttl, s)
    ensures Invariant(o, ttl, Run(o, ttl, s, steps))
    decreases |steps|
  {
    hide Invariant, Next;
    if steps != [] {
      StepKeeps(o, ttl, s, steps[0]);
      RunKeeps(o, ttl, Next(o, ttl, s, steps[0]).0, steps[1..]);
    }
  }

  lemma InitialHolds(o: Options, ttl: nat)
    ensures Invariant(o, ttl, INITIAL)
  {
  }

  // ----- What every run has -----

  ghost predicate Reachable(o: Options, ttl: nat, s: State) {
    exists steps :: Run(o, ttl, INITIAL, steps) == s
  }

  lemma ReachableKeeps(o: Options, ttl: nat, s: State)
    requires Reachable(o, ttl, s)
    ensures Invariant(o, ttl, s)
  {
    var steps :| Run(o, ttl, INITIAL, steps) == s;
    InitialHolds(o, ttl);
    RunKeeps(o, ttl, INITIAL, steps);
  }

  /** Single flight: callers that wait for one model's unfinished creation wait for the same one. */
  lemma SingleFlight(o: Options, ttl: nat, s: State, c: nat, d: nat)
    requires Reachable(o, ttl, s)
    requires c in s.callers && d in s.callers && s.callers[c].model == s.callers[d].model
    ensures s.callers[c].creation < |s.creations| && s.callers[d].creation < |s.creations|
    ensures s.creations[s.callers[c].creation].answer.None? && s.creations[s.callers[d].creation].answer.None? ==>
              s.callers[c].creation == s.callers[d].creation
  {
    ReachableKeeps(o, ttl, s);
    assert CallerSound(s.creations, s.pending, s.callers[c]) && CallerSound(s.creations, s.pending, s.callers[d]);
  }

  /** Nobody is stuck: a waiting caller can leave, or its creation can finish and then it can leave. */
  lemma NobodyStuck(o: Options, ttl: nat, s: State, c: nat, answer: Answer)
    requires Reachable(o, ttl, s)
    requires c in s.callers
    requires !o.direct ==> answer.result == CreateSession(o, answer.world, s.callers[c].model)
    ensures CanLeave(s, c) || CanLeave(Resolved(o, s, s.callers[c].creation, answer), c)
  {
    ReachableKeeps(o, ttl, s);
    assert CallerSound(s.creations, s.pending, s.callers[c]);
    assert Held(s.callers, s.callers[c].creation);
  }

  /** The cache's history: every creation stored succeeded, none was stored twice, and a model's only get newer. */
  lemma StoredOnce(o: Options, ttl: nat, s: State)
    requires Reachable(o, ttl, s)
    ensures forall i, j :: 0 <= i < j < |s.stored| ==> s.stored[i] != s.stored[j]
    ensures forall i, j :: 0 <= i < j < |s.stored| && SameModel(s.creations, s.stored[i], s.stored[j]) ==>
              s.stored[i] < s.stored[j]
    ensures forall f :: f in s.stored ==>
              f < |s.creations| && s.creations[f].answer.Some? && s.creations[f].answer.value.result.Ok?
    ensures ttl == 0 ==> s.stored == [] && s.sessions == map[]
  {
    ReachableKeeps(o, ttl, s);
    forall i, j | 0 <= i < j < |s.stored| ensures s.stored[i] != s.stored[j] {
      assert WasStored(s.creations, s.pending, s.stored[i]);
      assert SameModel(s.creations, s.stored[i], s.stored[i]);
    }
    forall f | f in s.stored
      ensures f < |s.creations| && s.creations[f].answer.Some? && s.creations[f].answer.value.result.Ok?
    {
      assert WasStored(s.creations, s.pending, f);
    }
  }

  /** A creation that another one of its model has followed. */
  ghost predicate Superseded(s: State, creation: nat) {
    && creation < |s.creations|
    && exists g :: creation < g < |s.creations| && s.creations[g].model == s.creations[creation].model
  }

  /** From then on it is never put into the cache, whoever still waits for it. */
  lemma {:induction false} SupersededNeverStored(o: Options, ttl: nat, s: State, creation: nat, steps: seq<Step>)
    requires Invariant(o, ttl, s)
    requires Superseded(s, creation) && creation !in s.stored
    ensures creation !in Run(o, ttl, s, steps).stored
    decreases |steps|
  {
    if steps != [] {
      var t := Next(o, ttl, s, steps[0]).0;
      StepKeeps(o, ttl, s, steps[0]);
      SupersededStep(o, ttl, s, creation, steps[0]);
      SupersededNeverStored(o, ttl, t, creation, steps[1..]);
    }
  }

  lemma SupersededStep(o: Options, ttl: nat, s: State, creation: nat, step: Step)
    requires Invariant(o, ttl, s)
    requires Superseded(s, creation) && creation !in s.stored
    ensures Superseded(Next(o, ttl, s, step).0, creation) && creation !in Next(o, ttl, s, step).0.stored
  {
    hide CallersSound, StoredSound, StoredInOrder, CacheSound, AnswersSound;
    var t := Next(o, ttl, s, step).0;
    var g :| creation < g < |s.creations| && s.creations[g].model == s.creations[creation].model;
    assert |s.creations| <= |t.creations|;
    assert t.creations[g].model == s.creations[g].model && t.creations[creation].model == s.creations[creation].model;
    if step.Leave? && t.stored != s.stored {
      var Caller(model, f) := s.callers[step.caller];
      assert NewestFor(s.creations, model, f);
    }
  }

  /** The steps a caller takes itself. */
  predicate Names(step: Step, caller: nat) {
    match step
    case Enter(c, _) => c == caller
    case Leave(c) => c == caller
    case Abandon(c) => c == caller
    case _ => false
  }

  /**
   * Whatever the others do meanwhile, a caller that joined a creation is answered with that
   * creation's one result: it cannot be given another creation's, and a result never changes.
   */
  lemma {:induction false} JoinedGetsItsResult(o: Options, ttl: nat, s: State, c: nat, steps: seq<Step>)
    requires Invariant(o, ttl, s)
    requires c in s.callers
    requires forall i :: 0 <= i < |steps| ==> !Names(steps[i], c)
    ensures c in Run(o, ttl, s, steps).callers && Run(o, ttl, s, steps).callers[c] == s.callers[c]
    ensures s.callers[c].creation < |s.creations| <= |Run(o, ttl, s, steps).creations|
    ensures var creation := s.callers[c].creation;
            var t := Run(o, ttl, s, steps);
            && t.creations[creation].model == s.callers[c].model
            && (s.creations[creation].answer.Some? ==> t.creations[creation] == s.creations[creation])
            && Left(t, ttl, c).1 == match t.creations[creation].answer case None => None case Some(a) => Some(a.result)
    decreases |steps|
  {
    assert CallerSound(s.creations, s.pending, s.callers[c]);
    if steps != [] {
      var t := Next(o, ttl, s, steps[0]).0;
      StepKeeps(o, ttl, s, steps[0]);
      assert !Names(steps[0], c);
      OthersLeaveItWaiting(o, ttl, s, c, steps[0]);
      forall i | 0 <= i < |steps[1..]| ensures !Names(steps[1..][i], c) {
        assert !Names(steps[i + 1], c);
      }
      JoinedGetsItsResult(o, ttl, t, c, steps[1..]);
    }
  }

  lemma OthersLeaveItWaiting(o: Options, ttl: nat, s: State, c: nat, step: Step)
    requires c in s.callers && !Names(step, c)
    ensures c in Next(o, ttl, s, step).0.callers && Next(o, ttl, s, step).0.callers[c] == s.callers[c]
    ensures Grown(s.creations, Next(o, ttl, s, step).0.creations)
  {
    hide CreateSession;
  }

  /**
   * Whom a caller waits with: a creation pending for its model that another caller still holds, if
   * there is one; otherwise a creation of its own, made now. One that all its callers have dropped
   * is never joined.
   */
  lemma JoinsOrCreates(s: State, ttl: nat, caller: nat, model: string)
    requires caller !in s.callers && Entered(s, ttl, caller, model).1 == None
    ensures var t := Entered(s, ttl, caller, model).0;
            && caller in t.callers && t.callers == s.callers[caller := Caller(model, t.callers[caller].creation)]
            && if exists d :: d in s.callers && model in s.pending && s.callers[d].creation == s.pending[model]
               then t.callers[caller].creation == s.pending[model] && t.creations == s.creations
               else t.callers[caller].creation == |s.creations| && t.creations == s.creations + [Creation(model, None)]
  {
    if d :| d in s.callers && model in s.pending && s.callers[d].creation == s.pending[model] {
      assert Held(s.callers, s.pending[model]);
    }
  }

  /** A cached session stays while it lives: nothing newer replaces it. */
  lemma {:induction false} CachedStays(o: Options, ttl: nat, s: State, model: string, steps: seq<Step>)
    requires model in s.sessions && model !in s.pending
    requires Run(o, ttl, s, steps).now < s.sessions[model].at + ttl
    ensures var t := Run(o, ttl, s, steps);
            model in t.sessions && t.sessions[model] == s.sessions[model] && model !in t.pending
    decreases |steps|
  {
    hide Next;
    if steps != [] {
      var t := Next(o, ttl, s, steps[0]).0;
      TimePasses(o, ttl, t, steps[1..]);
      CachedStaysOnce(o, ttl, s, model, steps[0]);
      CachedStays(o, ttl, t, model, steps[1..]);
    }
  }

  lemma {:induction false} TimePasses(o: Options, ttl: nat, s: State, steps: seq<Step>)
    ensures s.now <= Run(o, ttl, s, steps).now
    decreases |steps|
  {
    if steps != [] {
      assert s.now <= Next(o, ttl, s, steps[0]).0.now by {
        hide CreateSession;
      }
      TimePasses(o, ttl, Next(o, ttl, s, steps[0]).0, steps[1..]);
    }
  }

  lemma CachedStaysOnce(o: Options, ttl: nat, s: State, model: string, step: Step)
    requires model in s.sessions && model !in s.pending
    requires Next(o, ttl, s, step).0.now < s.sessions[model].at + ttl
    ensures var t := Next(o, ttl, s, step).0;
            model in t.sessions && t.sessions[model] == s.sessions[model] && model !in t.pending
  {
    hide CreateSession;
    if step.Leave? && CanLeave(s, step.caller) {
      var Caller(other, creation) := s.callers[step.caller];
    }
  }

  /**
   * The first caller that leaves a successful creation puts its session into the cache, and every
   * caller that asks for the model before it expires is handed that session at once.
   */
  lemma CreatedIsReused(o: Options, ttl: nat, s: State, c: nat, steps: seq<Step>, d: nat)
    requires Reachable(o, ttl, s)
    requires CanLeave(s, c) && s.callers[c].model in s.pending
    requires s.pending[s.callers[c].model] == s.callers[c].creation
    requires s.creations[s.callers[c].creation].answer.value.result.Ok?
    ensures var model := s.callers[c].model;
            var result := s.creations[s.callers[c].creation].answer.value.result;
            var t := Run(o, ttl, Left(s, ttl, c).0, steps);
            && Left(s, ttl, c).1 == Some(result)
            && (t.now < s.now + ttl && d !in t.callers ==>
                  Entered(t, ttl, d, model).1 == Some(result) && Entered(t, ttl, d, model).0.callers == t.callers)
  {
    hide PendingSound, StoredSound, StoredInOrder, CacheSound, AnswersSound, Reachable;
    ReachableKeeps(o, ttl, s);
    assert CallerSound(s.creations, s.pending, s.callers[c]);
    var model := s.callers[c].model;
    var after := Left(s, ttl, c).0;
    var t := Run(o, ttl, after, steps);
    TimePasses(o, ttl, after, steps);
    if t.now < s.now + ttl {
      CachedStays(o, ttl, after, model, steps);
    }
  }

  /** The caller a step may answer, and the model it asked for. */
  function AskedFor(s: State, step: Step): Option<string> {
    match step
    case Enter(_, model) => Some(model)
    case Leave(caller) => if caller in s.callers then Some(s.callers[caller].model) else None
    case _ => None
  }

  /**
   * Every session ever handed to a caller was made for the model it asked for, by a creation that
   * succeeded, and a Gateway client's is admitted for that model. One from the cache has not expired.
   */
  lemma EverySessionIsAdmitted(o: Options, ttl: nat, s: State, step: Step, session: Session)
    requires Reachable(o, ttl, s)
    requires Next(o, ttl, s, step).1 == Some(Ok(session))
    ensures AskedFor(s, step).Some?
    ensures exists f :: MadeBy(o, s, f, AskedFor(s, step).value, session)
    ensures step.Enter? ==> step.model in s.sessions && s.sessions[step.model].session == session
                            && s.now < s.sessions[step.model].at + ttl
  {
    hide CreateSession, Admitted;
    ReachableKeeps(o, ttl, s);
    match step
    case Enter(caller, model) =>
      assert EntrySound(s.now, s.creations, s.stored, model, s.sessions[model]);
      var f := s.sessions[model].creation;
      assert AnswerSound(o, s.creations[f]);
      Made(o, s, f, model, session);
    case Leave(caller) =>
      var Caller(model, f) := s.callers[caller];
      assert CallerSound(s.creations, s.pending, s.callers[caller]);
      assert AnswerSound(o, s.creations[f]);
      Made(o, s, f, model, session);
    case _ => assert false;
  }

  ghost predicate MadeBy(o: Options, s: State, f: nat, model: string, session: Session) {
    && f < |s.creations|
    && s.creations[f].model == model
    && s.creations[f].answer.Some?
    && s.creations[f].answer.value.result == Ok(session)
    && (!o.direct ==> Admitted(o, s.creations[f].answer.value.world, model, session))
  }

  lemma Made(o: Options, s: State, f: nat, model: string, session: Session)
    requires f < |s.creations| && AnswerSound(o, s.creations[f])
    requires s.creations[f].model == model && s.creations[f].answer.Some?
    requires s.creations[f].answer.value.result == Ok(session)
    ensures MadeBy(o, s, f, model, session)
  {
    hide CreateSession, Admitted;
    if !o.direct {
      CreationAdmits(o, s.creations[f].answer.value.world, model, session);
    }
  }

  // ----- The shared state as the client holds it -----

  lemma {:induction false} RunSnoc(o: Options, ttl: nat, s: State, steps: seq<Step>, last: Step)
    ensures Run(o, ttl, s, steps + [last]) == Next(o, ttl, Run(o, ttl, s, steps), last).0
    decreases |steps|
  {
    hide Next;
    if steps == [] {
      assert [] + [last] == [last] && [last][1..] == [];
    } else {
      RunSnoc(o, ttl, Next(o, ttl, s, steps[0]).0, steps[1..], last);
      assert (steps + [last])[1..] == steps[1..] + [last];
    }
  }

  lemma ReachableNext(o: Options, ttl: nat, s: State, step: Step)
    requires Reachable(o, ttl, s)
    ensures Reachable(o, ttl, Next(o, ttl, s, step).0)
  {
    hide Next;
    var steps :| Run(o, ttl, INITIAL, steps) == s;
    RunSnoc(o, ttl, INITIAL, steps, step);
  }

  /** The client's state is always one some run leads to, so what holds in every run holds for it. */
  class SessionCache {
    const options: Options
    const ttl: nat
    var now: nat
    var sessions: map<string, Entry>
    var pending: map<string, nat>
    var creations: seq<Creation>
    var callers: map<nat, Caller>
    var stored: seq<nat>

    ghost function View(): State
      reads this
    {
      State(now, sessions, pending, creations, callers, stored)
    }

    ghost predicate Valid()
      reads this
    {
      Reachable(options, ttl, View())
    }

    constructor (options: Options, ttl: nat)
      ensures Valid() && View() == INITIAL && this.options == options && this.ttl == ttl
    {
      this.options, this.ttl, now := options, ttl, 0;
      sessions, pending, creations, callers, stored := map[], map[], [], map[], [];
      new;
      assert Run(options, ttl, INITIAL, []) == INITIAL;
    }

    /**
     * rs/src/inference.rs:258-292. Without a reply the caller now waits. A session handed out at
     * once was made for this model, and admitted for it.
     */
    method Enter(caller: nat, model: string) returns (reply: Reply)
      requires Valid() && caller !in callers
      modifies this
      ensures Valid() && (View(), reply) == Entered(old(View()), ttl, caller, model)
      ensures reply.Some? && reply.value.Ok? ==> exists f :: MadeBy(options, old(View()), f, model, reply.value.value)
      ensures reply == Some(Err) <==> model == "" || model == "." || model == ".."
      ensures reply.None? ==> caller in callers && callers[caller].model == model
    {
      hide Reachable, MadeBy;
      ghost var before := View();
      ReachableNext(options, ttl, before, Step.Enter(caller, model));
      if model == "" || model == "." || model == ".." {
        return Some(Err);
      }
      sessions := map m | m in sessions && now - sessions[m].at < ttl :: sessions[m];
      if model in sessions {
        reply := Some(Ok(sessions[model].session));
        EverySessionIsAdmitted(options, ttl, before, Step.Enter(caller, model), sessions[model].session);
        return;
      }
      pending := map m | m in pending && Held(callers, pending[m]) :: pending[m];
      var creation: nat;
      if model in pending {
        creation := pending[model];
      } else {
        creation := |creations|;
        creations := creations + [Creation(model, None)];
        pending := pending[model := creation];
      }
      callers := callers[caller := Caller(model, creation)];
      reply := None;
    }

    /** rs/src/inference.rs:293-311. What a waiting caller is answered was made for the model it asked for. */
    method Leave(caller: nat) returns (reply: Reply)
      requires Valid() && CanLeave(View(), caller)
      modifies this
      ensures Valid() && (View(), reply) == Left(old(View()), ttl, caller)
      ensures caller !in callers && reply.Some?
      ensures reply.value.Ok? ==>
                exists f :: MadeBy(options, old(View()), f, old(callers[caller].model), reply.value.value)
    {
      hide Reachable, MadeBy;
      ghost var before := View();
      ReachableNext(options, ttl, before, Step.Leave(caller));
      var Caller(model, creation) := callers[caller];
      var result := creations[creation].answer.value.result;
      if result.Ok? {
        EverySessionIsAdmitted(options, ttl, before, Step.Leave(caller), result.value);
      }
      if model in pending && pending[model] == creation {
        pending := pending - {model};
        if result.Ok? {
          if ttl != 0 {
            sessions := sessions[model := Entry(now, result.value, creation)];
            stored := stored + [creation];
          }
        }
      }
      callers := callers - {caller};
      reply := Some(result);
    }
  }
}
