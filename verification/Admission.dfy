/**
 * What a client checks before it will send a request: session creation in both SDKs
 * (rs/src/inference.rs:888-1025, go/client.go:257-408), against one statement of what an
 * admitted session is.
 *
 * The network and the attestation verifiers are the fields of `World`: their answers for one
 * creation. Nothing is assumed about them.
 */
module Admission {
  import opened Wrappers

  datatype Algo = Ed25519 | Ecdsa

  datatype Identity = Identity(algo: Algo, address: string)

  /** A report as it was fetched; only its verifier looks inside. */
  datatype Report = Report(signer: Identity, evidence: string)

  /** A verified report. An absent public key is None in Rust and "" in Go. */
  datatype Verified = Verified(signer: Identity, key: Option<string>)

  datatype Options = Options(
    direct: bool,            // no Gateway: the model's own endpoint answers
    e2ee: bool,
    ohttp: bool,
    algo: Algo,
    pinTls: bool,            // bind the TLS connection to the attested key
    policy: bool,            // a model attestation policy is configured
    deployment: bool,        // a deployment verifier is configured
    deploymentPolicy: bool)  // a per-model deployment policy is configured
  {
    /** Some option that only verified model evidence can satisfy. */
    predicate Demands() {
      e2ee || policy || deployment || deploymentPolicy
    }
  }

  datatype Session = Session(gateway: Option<Verified>, models: seq<Verified>, selected: Option<Verified>)

  datatype World = World(
    gateway: Option<Report>,                     // the Gateway's report, if it could be fetched
    pinned: bool,                                // a connection pinned to the attested key could be made
    gatewayCheck: Report -> Option<Verified>,
    ohttpCheck: Identity -> bool,                // OHTTP evidence came and verifies for this signer
    supported: Option<bool>,                     // the model's metadata: does it serve attestations?
    reports: Option<seq<Report>>,                // the model's reports, if they could be fetched
    reportCheck: Report -> Option<Verified>,
    deploymentCheck: Report -> bool,
    policyCheck: (string, Report) -> bool,       // asked about a model and a report
    serving: Option<Report>,                     // direct only: the report of the serving machine
    sameAddress: (string, string) -> bool,       // hexadecimal addresses, however they are spelt
    sameReport: (Report, Report) -> bool)

  /** One report's verification, with the configured deployment checks run inside it. */
  function CheckReport(o: Options, w: World, model: string, r: Report): Option<Verified> {
    if o.deployment && !w.deploymentCheck(r) then None
    else if o.deploymentPolicy && !w.policyCheck(model, r) then None
    else w.reportCheck(r)
  }

  /** Whether a verified report's key may be the one requests are encrypted to. */
  predicate Usable(o: Options, w: World, v: Verified) {
    && v.signer.algo == o.algo
    && v.key.Some?
    && (o.direct && o.ohttp ==> ServedBy(w, v.signer))
  }

  predicate ServedBy(w: World, signer: Identity) {
    && w.serving.Some?
    && signer.algo == w.serving.value.signer.algo
    && w.sameAddress(signer.address, w.serving.value.signer.address)
  }

  /** `selected` is the first usable report, if there is one. */
  ghost predicate IsFirstUsable(o: Options, w: World, models: seq<Verified>, selected: Option<Verified>) {
    match selected
    case None => forall i :: 0 <= i < |models| ==> !Usable(o, w, models[i])
    case Some(v) => exists i :: FirstUsableAt(o, w, models, i) && models[i] == v
  }

  ghost predicate FirstUsableAt(o: Options, w: World, models: seq<Verified>, i: int) {
    && 0 <= i < |models|
    && Usable(o, w, models[i])
    && forall j :: 0 <= j < i ==> !Usable(o, w, models[j])
  }

  /** Every report was verified, and these are the results in the reports' order. */
  ghost predicate AllVerified(o: Options, w: World, model: string, reports: seq<Report>, models: seq<Verified>) {
    && |models| == |reports|
    && forall i :: 0 <= i < |models| ==> CheckReport(o, w, model, reports[i]) == Some(models[i])
  }

  ghost predicate GatewayAdmitted(o: Options, w: World, s: Session) {
    && w.gateway.Some?
    && s.gateway.Some?
    && s.gateway == w.gatewayCheck(w.gateway.value)
    && s.gateway.value.signer.algo == o.algo
    && (o.pinTls ==> w.pinned)
    && (o.ohttp ==> w.ohttpCheck(s.gateway.value.signer))
  }

  /** The session a client may use for `model`, stated without saying how it is found. */
  ghost predicate Admitted(o: Options, w: World, model: string, s: Session) {
    && !o.direct
    && GatewayAdmitted(o, w, s)
    && w.supported.Some?
    && if w.supported.value then
         && w.reports.Some? && w.reports.value != []
         && AllVerified(o, w, model, w.reports.value, s.models)
         && s.selected.Some?
         && IsFirstUsable(o, w, s.models, s.selected)
       else
         s.models == [] && s.selected == None && !o.Demands()
  }

  /** The same for a direct client, which has no Gateway evidence and always needs a model key. */
  ghost predicate DirectAdmitted(o: Options, w: World, model: string, s: Session) {
    && o.direct
    && s.gateway == None
    && w.reports.Some? && w.reports.value != []
    && AllVerified(o, w, model, w.reports.value, s.models)
    && s.selected.Some?
    && IsFirstUsable(o, w, s.models, s.selected)
    && (o.ohttp ==> w.ohttpCheck(ServingSigner(w, w.reports.value, s.models)))
  }

  const NOBODY := Identity(Ed25519, "")

  /** Whose OHTTP key a direct client checks: the last report equal to the serving one. */
  function ServingSigner(w: World, reports: seq<Report>, models: seq<Verified>): Identity
    requires |reports| == |models|
  {
    if models == [] then NOBODY
    else
      var last := |models| - 1;
      if w.serving.Some? && w.sameReport(reports[last], w.serving.value) then models[last].signer
      else ServingSigner(w, reports[..last], models[..last])
  }

  // ----- Rust: results collected, then searched -----

  function VerifyAll(o: Options, w: World, model: string, reports: seq<Report>): Option<seq<Verified>> {
    if reports == [] then Some([])
    else
      match CheckReport(o, w, model, reports[0])
      case None => None
      case Some(v) =>
        match VerifyAll(o, w, model, reports[1..])
        case None => None
        case Some(rest) => Some([v] + rest)
  }

  function Find(o: Options, w: World, models: seq<Verified>): Option<Verified> {
    if models == [] then None
    else if Usable(o, w, models[0]) then Some(models[0])
    else Find(o, w, models[1..])
  }

  function GatewayStep(o: Options, w: World): Option<Verified> {
    match w.gateway
    case None => None
    case Some(report) =>
      if o.pinTls && !w.pinned then None
      else
        match w.gatewayCheck(report)
        case None => None
        case Some(v) =>
          if v.signer.algo != o.algo then None
          else if o.ohttp && !w.ohttpCheck(v.signer) then None
          else Some(v)
  }

  function ModelsStep(o: Options, w: World, model: string): Option<seq<Verified>> {
    match w.supported
    case None => None
    case Some(supported) =>
      if !supported then
        if o.Demands() then None else Some([])
      else
        match w.reports
        case None => None
        case Some(reports) => if reports == [] then None else VerifyAll(o, w, model, reports)
  }

  /** The Gateway is authenticated before anything else is sent to it. */
  function CreateSession(o: Options, w: World, model: string): Result<Session>
    requires !o.direct
  {
    match GatewayStep(o, w)
    case None => Err
    case Some(gateway) =>
      match ModelsStep(o, w, model)
      case None => Err
      case Some(models) =>
        var selected := Find(o, w, models);
        if models != [] && selected.None? then Err
        else Ok(Session(Some(gateway), models, selected))
  }

  lemma {:induction false} VerifyAllMeaning(o: Options, w: World, model: string, reports: seq<Report>)
    ensures match VerifyAll(o, w, model, reports)
            case Some(models) => AllVerified(o, w, model, reports, models)
            case None => exists i :: 0 <= i < |reports| && CheckReport(o, w, model, reports[i]).None?
  {
    if reports != [] {
      VerifyAllMeaning(o, w, model, reports[1..]);
      match CheckReport(o, w, model, reports[0])
      case None =>
      case Some(v) =>
        if VerifyAll(o, w, model, reports[1..]).None? {
          var i :| 0 <= i < |reports[1..]| && CheckReport(o, w, model, reports[1..][i]).None?;
          assert CheckReport(o, w, model, reports[i + 1]).None?;
        }
    }
  }

  /** Two lists of results for the same reports are the same list. */
  lemma VerifiedUnique(o: Options, w: World, model: string, reports: seq<Report>, a: seq<Verified>, b: seq<Verified>)
    requires AllVerified(o, w, model, reports, a) && AllVerified(o, w, model, reports, b)
    ensures a == b
  {
    forall i | 0 <= i < |a| ensures a[i] == b[i] {
      assert CheckReport(o, w, model, reports[i]) == Some(a[i]) == Some(b[i]);
    }
  }

  lemma {:induction false} FindMeaning(o: Options, w: World, models: seq<Verified>)
    ensures IsFirstUsable(o, w, models, Find(o, w, models))
  {
    if models != [] {
      if Usable(o, w, models[0]) {
        assert FirstUsableAt(o, w, models, 0);
      } else {
        FindMeaning(o, w, models[1..]);
        match Find(o, w, models[1..])
        case None =>
          forall i | 0 <= i < |models| ensures !Usable(o, w, models[i]) {
            if i > 0 {
              assert models[i] == models[1..][i - 1];
            }
          }
        case Some(v) =>
          var i :| FirstUsableAt(o, w, models[1..], i) && models[1..][i] == v;
          forall j | 0 <= j < i + 1 ensures !Usable(o, w, models[j]) {
            if j > 0 {
              assert models[j] == models[1..][j - 1];
            }
          }
          assert FirstUsableAt(o, w, models, i + 1);
      }
    }
  }

  lemma FirstUsableUnique(o: Options, w: World, models: seq<Verified>, a: Option<Verified>, b: Option<Verified>)
    requires IsFirstUsable(o, w, models, a) && IsFirstUsable(o, w, models, b)
    ensures a == b
  {
    if a.Some? && b.Some? {
      var i :| FirstUsableAt(o, w, models, i) && models[i] == a.value;
      var j :| FirstUsableAt(o, w, models, j) && models[j] == b.value;
      assert i == j;
    }
  }

  /** Rust's creation yields exactly the admitted session, and fails exactly when there is none. */
  lemma CreationAdmits(o: Options, w: World, model: string, s: Session)
    requires !o.direct
    ensures CreateSession(o, w, model) == Ok(s) <==> Admitted(o, w, model, s)
  {
    if w.supported == Some(true) && w.reports.Some? {
      var reports := w.reports.value;
      VerifyAllMeaning(o, w, model, reports);
      if VerifyAll(o, w, model, reports).Some? {
        var models := VerifyAll(o, w, model, reports).value;
        FindMeaning(o, w, models);
        if Admitted(o, w, model, s) {
          VerifiedUnique(o, w, model, reports, models, s.models);
          FirstUsableUnique(o, w, models, s.selected, Find(o, w, models));
        }
      } else {
        var i :| 0 <= i < |reports| && CheckReport(o, w, model, reports[i]).None?;
        Unverified(o, w, model, reports, i);
      }
    }
  }

  // ----- Go: one loop over the reports -----

  /** The loop of `createSession`: a report that does not verify ends it. */
  method GoVerifyReports(o: Options, w: World, model: string, reports: seq<Report>)
    returns (ok: bool, models: seq<Verified>, selected: Option<Verified>, ohttpSigner: Identity)
    ensures ok ==> AllVerified(o, w, model, reports, models)
    ensures ok ==> IsFirstUsable(o, w, models, selected)
    ensures ok && o.direct ==> ohttpSigner == ServingSigner(w, reports, models)
    ensures !ok ==> reports != [] && forall other :: !AllVerified(o, w, model, reports, other)
  {
    ok, models, selected, ohttpSigner := true, [], None, NOBODY;
    for i := 0 to |reports|
      invariant AllVerified(o, w, model, reports[..i], models)
      invariant IsFirstUsable(o, w, models, selected)
      invariant o.direct ==> ohttpSigner == ServingSigner(w, reports[..i], models)
    {
      var verified := CheckReport(o, w, model, reports[i]);
      if verified.None? {
        Unverified(o, w, model, reports, i);
        ok := false;
        return;
      }
      ghost var before := models;
      models := models + [verified.value];
      assert reports[..i + 1][..i] == reports[..i] && models[..i] == before;
      if o.direct && w.serving.Some? && w.sameReport(reports[i], w.serving.value) {
        ohttpSigner := verified.value.signer;
      }
      NextUsable(o, w, before, verified.value, selected);
      if selected.None? && Usable(o, w, verified.value) {
        selected := verified;
      }
    }
    assert reports[..|reports|] == reports;
  }

  /** Go's `createSession`. Either kind of client; a report's failure ends the loop. */
  method GoCreateSession(o: Options, w: World, model: string) returns (r: Result<Session>)
    ensures r.Ok? && !o.direct ==> Admitted(o, w, model, r.value)
    ensures r.Ok? && o.direct ==> DirectAdmitted(o, w, model, r.value)
    ensures r.Err? ==> forall s :: !Admitted(o, w, model, s) && !DirectAdmitted(o, w, model, s)
  {
    var gateway: Option<Verified> := None;
    var reports: seq<Report> := [];
    if o.direct {
      if w.reports.None? {
        return Err;
      }
      reports := w.reports.value;
    } else {
      if w.gateway.None? {
        return Err;
      }
      gateway := w.gatewayCheck(w.gateway.value);
      if gateway.None? || gateway.value.signer.algo != o.algo {
        return Err;
      }
      if o.pinTls && !w.pinned {
        return Err;
      }
      if o.ohttp && !w.ohttpCheck(gateway.value.signer) {
        return Err;
      }
      if w.supported.None? {
        return Err;
      }
      if w.supported.value {
        if w.reports.None? || w.reports.value == [] {
          return Err;
        }
        reports := w.reports.value;
      } else if o.Demands() {
        return Err;
      }
    }
    var verified, models, selected, ohttpSigner := GoVerifyReports(o, w, model, reports);
    if !verified {
      return Err;
    }
    if selected.None? && (models != [] || o.direct) {
      NoneUsable(o, w, model, reports, models);
      return Err;
    }
    if o.direct && o.ohttp && !w.ohttpCheck(ohttpSigner) {
      OnlyTheseModels(o, w, model, reports, models);
      return Err;
    }
    r := Ok(Session(gateway, models, selected));
  }

  lemma NextUsable(o: Options, w: World, models: seq<Verified>, v: Verified, selected: Option<Verified>)
    requires IsFirstUsable(o, w, models, selected)
    ensures IsFirstUsable(o, w, models + [v],
              if selected.None? && Usable(o, w, v) then Some(v) else selected)
  {
    var more := models + [v];
    if selected.Some? {
      var i :| FirstUsableAt(o, w, models, i) && models[i] == selected.value;
      assert FirstUsableAt(o, w, more, i);
    } else if Usable(o, w, v) {
      assert FirstUsableAt(o, w, more, |models|);
    }
  }

  lemma Unverified(o: Options, w: World, model: string, reports: seq<Report>, i: nat)
    requires i < |reports| && CheckReport(o, w, model, reports[i]).None?
    ensures forall models :: !AllVerified(o, w, model, reports, models)
  {
    var answer := CheckReport(o, w, model, reports[i]);
    forall models ensures !AllVerified(o, w, model, reports, models) {
      assert |models| == |reports| ==> answer != Some(models[i]);
    }
  }

  lemma OnlyTheseModels(o: Options, w: World, model: string, reports: seq<Report>, models: seq<Verified>)
    requires AllVerified(o, w, model, reports, models)
    ensures forall other :: AllVerified(o, w, model, reports, other) ==> other == models
  {
    forall other | AllVerified(o, w, model, reports, other) ensures other == models {
      VerifiedUnique(o, w, model, reports, models, other);
    }
  }

  lemma NoneUsable(o: Options, w: World, model: string, reports: seq<Report>, models: seq<Verified>)
    requires AllVerified(o, w, model, reports, models)
    requires IsFirstUsable(o, w, models, None)
    ensures forall other, s :: AllVerified(o, w, model, reports, other) && IsFirstUsable(o, w, other, s) ==> s == None
  {
    forall other, s | AllVerified(o, w, model, reports, other) && IsFirstUsable(o, w, other, s) ensures s == None {
      VerifiedUnique(o, w, model, reports, models, other);
      FirstUsableUnique(o, w, models, None, s);
    }
  }

  // ----- What admission is worth -----

  /**
   * The verified list is the report verifier's own, one result for each report and in their order;
   * and the configured deployment checks accepted every report for this very model.
   */
  lemma ListIsVerified(o: Options, w: World, model: string, s: Session)
    requires w.reports.Some? && AllVerified(o, w, model, w.reports.value, s.models)
    ensures |s.models| == |w.reports.value|
    ensures forall i :: 0 <= i < |s.models| ==> w.reportCheck(w.reports.value[i]) == Some(s.models[i])
    ensures o.deploymentPolicy ==> forall r :: r in w.reports.value ==> w.policyCheck(model, r)
    ensures o.deployment ==> forall r :: r in w.reports.value ==> w.deploymentCheck(r)
  {
    forall i | 0 <= i < |s.models| ensures w.reportCheck(w.reports.value[i]) == Some(s.models[i]) {
      assert CheckReport(o, w, model, w.reports.value[i]) == Some(s.models[i]);
    }
    forall r | r in w.reports.value
      ensures o.deploymentPolicy ==> w.policyCheck(model, r)
      ensures o.deployment ==> w.deploymentCheck(r)
    {
      var k :| 0 <= k < |w.reports.value| && w.reports.value[k] == r;
      assert CheckReport(o, w, model, r) == Some(s.models[k]);
    }
  }

  /** Whose key requests are encrypted to: the first in the list with a key of the client's algorithm. */
  ghost predicate FirstWithKey(algo: Algo, models: seq<Verified>, selected: Verified) {
    exists i :: && 0 <= i < |models| && models[i] == selected
                && selected.key.Some? && selected.signer.algo == algo
                && forall j :: 0 <= j < i ==> models[j].key.None? || models[j].signer.algo != algo
  }

  /**
   * A request may leave only under evidence: the Gateway's verifier accepted its report and its
   * signer uses the client's algorithm; a pinned connection and OHTTP evidence are there if asked
   * for; if any option demands model evidence there is a verified list with a selected key, the
   * first in it that fits; each of the list is what the verifier made of its report; and the
   * deployment checks accepted every report for this very model.
   */
  lemma AdmissionGuarantees(o: Options, w: World, model: string, s: Session)
    requires Admitted(o, w, model, s)
    ensures s.gateway.Some? && s.gateway.value.signer.algo == o.algo
    ensures w.gateway.Some? && w.gatewayCheck(w.gateway.value) == s.gateway
    ensures o.pinTls ==> w.pinned
    ensures o.ohttp ==> w.ohttpCheck(s.gateway.value.signer)
    ensures o.Demands() ==> s.models != []
    ensures s.models != [] <==> w.supported == Some(true)
    ensures s.models != [] <==> s.selected.Some?
    ensures s.selected.Some? ==> FirstWithKey(o.algo, s.models, s.selected.value)
    ensures s.models != [] ==>
              && w.reports.Some? && |s.models| == |w.reports.value|
              && (forall i :: 0 <= i < |s.models| ==> w.reportCheck(w.reports.value[i]) == Some(s.models[i]))
              && (o.deploymentPolicy ==> forall r :: r in w.reports.value ==> w.policyCheck(model, r))
              && (o.deployment ==> forall r :: r in w.reports.value ==> w.deploymentCheck(r))
  {
    if w.supported.value {
      var i :| FirstUsableAt(o, w, s.models, i) && s.models[i] == s.selected.value;
      ListIsVerified(o, w, model, s);
      assert FirstWithKey(o.algo, s.models, s.selected.value) by {
        forall j | 0 <= j < i ensures s.models[j].key.None? || s.models[j].signer.algo != o.algo {
          assert !Usable(o, w, s.models[j]);
        }
      }
    }
  }

  /** The signer of the last report that equals the serving machine's. */
  ghost predicate Serves(w: World, reports: seq<Report>, models: seq<Verified>, signer: Identity)
    requires |reports| == |models|
  {
    w.serving.Some? &&
    exists i :: && 0 <= i < |models| && models[i].signer == signer && w.sameReport(reports[i], w.serving.value)
                && forall j :: i < j < |models| ==> !w.sameReport(reports[j], w.serving.value)
  }

  predicate NoneServes(w: World, reports: seq<Report>) {
    w.serving.Some? ==> forall i :: 0 <= i < |reports| ==> !w.sameReport(reports[i], w.serving.value)
  }

  lemma {:induction false} ServingSignerServes(w: World, reports: seq<Report>, models: seq<Verified>)
    requires |reports| == |models|
    ensures Serves(w, reports, models, ServingSigner(w, reports, models))
            || (ServingSigner(w, reports, models) == NOBODY && NoneServes(w, reports))
  {
    if models != [] {
      var last := |models| - 1;
      var signer := ServingSigner(w, reports, models);
      if w.serving.Some? && w.sameReport(reports[last], w.serving.value) {
        assert models[last].signer == signer;
      } else {
        ServingSignerServes(w, reports[..last], models[..last]);
        assert forall i :: 0 <= i < last ==> reports[..last][i] == reports[i] && models[..last][i] == models[i];
      }
    }
  }

  /**
   * A direct client's session has no Gateway, always a verified list and a key from it; under OHTTP
   * the key is the serving machine's, and the evidence is checked for the signer of its report (or
   * for nobody, if its report is not in the list). The reports are verified as above.
   */
  lemma DirectAdmissionGuarantees(o: Options, w: World, model: string, s: Session)
    requires DirectAdmitted(o, w, model, s)
    ensures s.gateway == None && s.models != [] && s.selected.Some?
    ensures s.selected.value in s.models && s.selected.value.key.Some? && s.selected.value.signer.algo == o.algo
    ensures !o.ohttp ==> FirstWithKey(o.algo, s.models, s.selected.value)
    ensures o.ohttp ==>
              && w.serving.Some? && s.selected.value.signer.algo == w.serving.value.signer.algo
              && w.sameAddress(s.selected.value.signer.address, w.serving.value.signer.address)
    ensures w.reports.Some? && |s.models| == |w.reports.value|
    ensures o.ohttp ==>
              exists signer :: w.ohttpCheck(signer) && (Serves(w, w.reports.value, s.models, signer)
                                                         || (signer == NOBODY && NoneServes(w, w.reports.value)))
    ensures forall i :: 0 <= i < |s.models| ==> w.reportCheck(w.reports.value[i]) == Some(s.models[i])
    ensures o.deploymentPolicy ==> forall r :: r in w.reports.value ==> w.policyCheck(model, r)
    ensures o.deployment ==> forall r :: r in w.reports.value ==> w.deploymentCheck(r)
  {
    var i :| FirstUsableAt(o, w, s.models, i) && s.models[i] == s.selected.value;
    ListIsVerified(o, w, model, s);
    ServingSignerServes(w, w.reports.value, s.models);
    if !o.ohttp {
      assert FirstWithKey(o.algo, s.models, s.selected.value) by {
        forall j | 0 <= j < i ensures s.models[j].key.None? || s.models[j].signer.algo != o.algo {
          assert !Usable(o, w, s.models[j]);
        }
      }
    }
  }

  /** Every report verifies and passes the configured deployment checks for this model. */
  ghost predicate ReportsHold(o: Options, w: World, model: string) {
    && w.reports.Some? && w.reports.value != []
    && forall r :: r in w.reports.value ==>
         && w.reportCheck(r).Some?
         && (o.deployment ==> w.deploymentCheck(r))
         && (o.deploymentPolicy ==> w.policyCheck(model, r))
  }

  /** Some report verifies with a key of the client's algorithm, and of the serving machine where that matters. */
  ghost predicate SomeKey(o: Options, w: World) {
    w.reports.Some? && exists r :: r in w.reports.value && KeyOf(o, w, r)
  }

  predicate KeyOf(o: Options, w: World, r: Report) {
    && w.reportCheck(r).Some?
    && w.reportCheck(r).value.key.Some?
    && w.reportCheck(r).value.signer.algo == o.algo
    && (o.direct && o.ohttp ==>
          && w.serving.Some? && w.reportCheck(r).value.signer.algo == w.serving.value.signer.algo
          && w.sameAddress(w.reportCheck(r).value.signer.address, w.serving.value.signer.address))
  }

  lemma HoldingReportsVerify(o: Options, w: World, model: string) returns (models: seq<Verified>)
    requires ReportsHold(o, w, model)
    ensures AllVerified(o, w, model, w.reports.value, models)
  {
    var reports := w.reports.value;
    models := seq(|reports|, i requires 0 <= i < |reports| => w.reportCheck(reports[i]).value);
    forall i | 0 <= i < |models| ensures CheckReport(o, w, model, reports[i]) == Some(models[i]) {
      assert reports[i] in reports;
    }
  }

  lemma VerifiedReportsHold(o: Options, w: World, model: string, models: seq<Verified>)
    requires w.reports.Some? && w.reports.value != [] && AllVerified(o, w, model, w.reports.value, models)
    ensures ReportsHold(o, w, model)
  {
    forall r | r in w.reports.value
      ensures w.reportCheck(r).Some? && (o.deployment ==> w.deploymentCheck(r))
              && (o.deploymentPolicy ==> w.policyCheck(model, r))
    {
      var k :| 0 <= k < |w.reports.value| && w.reports.value[k] == r;
      assert CheckReport(o, w, model, r) == Some(models[k]);
    }
  }

  /**
   * When a session can be had at all: the Gateway proves itself, and the model either serves no
   * attestations and none are demanded, or all its reports hold and some key fits.
   */
  lemma AdmissibleExactly(o: Options, w: World, model: string)
    requires !o.direct
    ensures (exists s :: Admitted(o, w, model, s)) <==>
              && w.gateway.Some? && w.gatewayCheck(w.gateway.value).Some?
              && w.gatewayCheck(w.gateway.value).value.signer.algo == o.algo
              && (o.pinTls ==> w.pinned)
              && (o.ohttp ==> w.ohttpCheck(w.gatewayCheck(w.gateway.value).value.signer))
              && w.supported.Some?
              && if w.supported.value then ReportsHold(o, w, model) && SomeKey(o, w)
                 else !o.e2ee && !o.policy && !o.deployment && !o.deploymentPolicy
  {
    hide AllVerified, IsFirstUsable;
    if s :| Admitted(o, w, model, s) {
      if w.supported.value {
        VerifiedReportsHold(o, w, model, s.models);
        KeyFound(o, w, model, s.models, s.selected.value);
      }
    }
    if w.gateway.Some? && w.supported.Some? {
      var gateway := w.gatewayCheck(w.gateway.value);
      var models, selected := [], None;
      if w.supported.value && ReportsHold(o, w, model) && SomeKey(o, w) {
        models := HoldingReportsVerify(o, w, model);
        selected := Find(o, w, models);
        FindMeaning(o, w, models);
        KeySelected(o, w, model, models);
      }
      var s := Session(gateway, models, selected);
      if GatewayAdmitted(o, w, s) && (w.supported.value ==> s.selected.Some?) && (!w.supported.value ==> !o.Demands()) {
        assert Admitted(o, w, model, s);
      }
    }
  }

  /** The same for a direct client. */
  lemma DirectAdmissibleExactly(o: Options, w: World, model: string)
    requires o.direct
    ensures (exists s :: DirectAdmitted(o, w, model, s)) <==>
              && ReportsHold(o, w, model) && SomeKey(o, w)
              && (o.ohttp ==> exists models :: && AllVerified(o, w, model, w.reports.value, models)
                                               && w.ohttpCheck(ServingSigner(w, w.reports.value, models)))
  {
    hide IsFirstUsable, CheckReport;
    if s :| DirectAdmitted(o, w, model, s) {
      VerifiedReportsHold(o, w, model, s.models);
      KeyFound(o, w, model, s.models, s.selected.value);
    }
    if ReportsHold(o, w, model) && SomeKey(o, w) {
      var models := HoldingReportsVerify(o, w, model);
      FindMeaning(o, w, models);
      KeySelected(o, w, model, models);
      OnlyTheseModels(o, w, model, w.reports.value, models);
      var s := Session(None, models, Find(o, w, models));
      if o.ohttp ==> w.ohttpCheck(ServingSigner(w, w.reports.value, models)) {
        assert DirectAdmitted(o, w, model, s);
      }
    }
  }

  lemma KeyFound(o: Options, w: World, model: string, models: seq<Verified>, selected: Verified)
    requires w.reports.Some? && AllVerified(o, w, model, w.reports.value, models)
    requires IsFirstUsable(o, w, models, Some(selected))
    ensures SomeKey(o, w)
  {
    var i :| FirstUsableAt(o, w, models, i) && models[i] == selected;
    assert CheckReport(o, w, model, w.reports.value[i]) == Some(models[i]);
    assert KeyOf(o, w, w.reports.value[i]);
  }

  lemma KeySelected(o: Options, w: World, model: string, models: seq<Verified>)
    requires SomeKey(o, w) && AllVerified(o, w, model, w.reports.value, models)
    ensures Find(o, w, models).Some?
  {
    FindMeaning(o, w, models);
    var r :| r in w.reports.value && KeyOf(o, w, r);
    var k :| 0 <= k < |w.reports.value| && w.reports.value[k] == r;
    assert CheckReport(o, w, model, r) == Some(models[k]);
    assert Usable(o, w, models[k]);
  }
}
