/** The parts of an inbound request the portfolio reads, and `get_client_ip`
    (portfolio/views.py:15-22). */
module Http {
  import opened Base
  import opened Text

  /** The request's session: absent when no session support is installed
      (reading it then raises), otherwise a possibly missing key. */
  datatype SessionState = NoSession | Session(key: Option<string>)

  /** A request: its HTTP method (`verb`), path and the `request.META` entries in use; a
      missing META entry is `None`. */
  datatype Request = Request(
    verb: string,
    path: string,
    forwardedFor: Option<string>,
    remoteAddr: Option<string>,
    userAgent: Option<string>,
    session: SessionState)

  /** The header value counts only when present and non-empty (Python
      truthiness of `x_forwarded_for`). */
  predicate HasForwardedFor(req: Request) {
    req.forwardedFor.Some? && |req.forwardedFor.value| > 0
  }

  /** `get_client_ip`: the first entry of `X-Forwarded-For` when that header is
      non-empty, otherwise `REMOTE_ADDR`, which may be missing. */
  function ClientIp(req: Request): (ip: Option<string>)
    ensures HasForwardedFor(req) ==>
      ip.Some? && ip.value <= req.forwardedFor.value && ',' !in ip.value
      && (ip.value == req.forwardedFor.value || req.forwardedFor.value[|ip.value|] == ',')
    ensures !HasForwardedFor(req) ==> ip == req.remoteAddr
  {
    if HasForwardedFor(req) then Some(BeforeFirstComma(req.forwardedFor.value))
    else req.remoteAddr
  }

  /** A forwarded header without a comma is taken whole; one that starts with a
      comma yields the empty address. */
  lemma ClientIpExamples(req: Request)
    ensures HasForwardedFor(req) && ',' !in req.forwardedFor.value
            ==> ClientIp(req) == req.forwardedFor
    ensures HasForwardedFor(req) && req.forwardedFor.value[0] == ','
            ==> ClientIp(req) == Some("")
  {
  }
}
