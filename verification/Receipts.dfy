/**
 * Examining one captured response against its signature, as both clients do
 * (rs/src/inference.rs:759-813, go/client.go:725-761). The signature service and the signature
 * checks are the fields of `Service`; nothing is assumed about them.
 */
module Receipts {
  import opened Bytes
  import opened Wrappers
  import opened Admission

  datatype Captured = Captured(request: bytes, response: bytes, session: Session, gatewayOnly: bool)

  datatype Kind = Gateway | ProviderTee

  datatype Signature = Signature(kind: Kind, algo: Algo, text: string)

  /** What fetching a signature ends with. */
  datatype Fetched = Signed(signature: Signature) | Unavailable | Refused

  datatype Service = Service(
    fetch: string -> Fetched,
    gatewayCheck: (bytes, bytes, Signature, Verified) -> bool,
    modelCheck: (bytes, bytes, Signature, Verified) -> bool)

  /** Only `Retryable` may be asked again. */
  datatype Outcome =
    | Proved(id: string, signature: Signature, attestation: Verified)
    | Rejected
    | Retryable

  function Examine(v: Service, algo: Algo, id: string, c: Captured): Outcome {
    match v.fetch(id)
    case Unavailable => Retryable
    case Refused => Rejected
    case Signed(signature) =>
      if signature.algo != algo then Rejected
      else if c.gatewayOnly && signature.kind != Gateway then Rejected
      else
        var attestation := if signature.kind == Gateway then c.session.gateway else c.session.selected;
        if attestation.None? then Rejected
        else
          var valid := if signature.kind == Gateway
                       then v.gatewayCheck(c.request, c.response, signature, attestation.value)
                       else v.modelCheck(c.request, c.response, signature, attestation.value);
          if valid then Proved(id, signature, attestation.value) else Rejected
  }

  /** A proof is about these very bytes: the signature for this ID over them, by evidence of their session. */
  ghost predicate ProvesBytes(v: Service, algo: Algo, id: string, c: Captured, o: Outcome) {
    && o.Proved?
    && o.id == id
    && v.fetch(id) == Signed(o.signature)
    && o.signature.algo == algo
    && match o.signature.kind
       case Gateway =>
         c.session.gateway == Some(o.attestation)
         && v.gatewayCheck(c.request, c.response, o.signature, o.attestation)
       case ProviderTee =>
         c.session.selected == Some(o.attestation) && !c.gatewayOnly
         && v.modelCheck(c.request, c.response, o.signature, o.attestation)
  }

  /**
   * Examination proves a response exactly when some outcome proves its bytes, and then with that
   * outcome; it may be asked again exactly when the signature was not available; whatever else is
   * rejected for good.
   */
  lemma ExamineMeaning(v: Service, algo: Algo, id: string, c: Captured)
    ensures var outcome := Examine(v, algo, id, c);
            && (forall o :: ProvesBytes(v, algo, id, c, o) <==> outcome.Proved? && o == outcome)
            && (outcome == Retryable <==> v.fetch(id) == Unavailable)
            && (outcome == Rejected <==> v.fetch(id) != Unavailable && forall o :: !ProvesBytes(v, algo, id, c, o))
  {
    var outcome := Examine(v, algo, id, c);
    assert outcome.Proved? ==> ProvesBytes(v, algo, id, c, outcome);
    forall o | ProvesBytes(v, algo, id, c, o) ensures outcome == o {
      assert v.fetch(id) == Signed(o.signature);
    }
  }
}
