/** `VisitorTrackingMiddleware.__call__` (portfolio/middleware.py:7-28): run the
    downstream handler, then, for a non-admin path, try to append one visit
    record; any failure while doing so is swallowed, and the downstream
    response is returned untouched. */
module Middleware {
  import opened Base
  import opened Text
  import opened Http
  import opened Models

  const AdminPrefix: string := "/admin/"
  const MaxUserAgentLength: nat := 500

  /** The downstream handler: it answers the request and may itself change
      the visit log. */
  type Handler<R> = (Request, seq<Visit>) -> (R, seq<Visit>)

  predicate IsAdminPath(path: string) {
    StartsWith(path, AdminPrefix)
  }

  /** The record the middleware builds for `req` at instant `now`, or `None`
      when building or storing it must raise: reading the session of a request
      that has none, or writing a NULL address into the NOT NULL column. */
  function RecordFor(req: Request, now: Instant): (r: Option<Visit>)
    ensures r.Some? <==> ClientIp(req).Some? && req.session.Session?
    ensures r.Some? ==> r.value.ip == ClientIp(req).value
    ensures r.Some? ==> r.value.page == req.path && r.value.at == now
    ensures r.Some? ==> r.value.userAgent <= req.userAgent.GetOr("")
    ensures r.Some? ==> |r.value.userAgent| == if |req.userAgent.GetOr("")| < MaxUserAgentLength
                                                then |req.userAgent.GetOr("")| else MaxUserAgentLength
    ensures r.Some? && req.userAgent.None? ==> r.value.userAgent == ""
    ensures r.Some? ==> r.value.sessionKey == req.session.key.GetOr("")
  {
    var ip := if req.forwardedFor.Some? && req.forwardedFor.value != ""
              then Some(BeforeFirstComma(req.forwardedFor.value))
              else req.remoteAddr;
    match req.session
    case NoSession => None
    case Session(key) =>
      if ip.None? then None
      else Some(Visit(ip.value, Truncate(req.userAgent.GetOr(""), MaxUserAgentLength),
                      req.path, now, key.GetOr("")))
  }

  /** One call of the middleware. `now` is the instant the row is stamped, read
      after the handler returns; `insertSucceeds` is the database's answer to
      the insert for the failures the code cannot see (column length limits on
      some backends, a lost connection). */
  function Call<R>(getResponse: Handler<R>, req: Request, log: seq<Visit>,
                   now: Instant, insertSucceeds: bool): (r: (R, seq<Visit>))
    ensures r.0 == getResponse(req, log).0
    ensures var after := getResponse(req, log).1;
      r.1 == after || (RecordFor(req, now).Some? && r.1 == after + [RecordFor(req, now).value])
    ensures IsAdminPath(req.path) ==> r.1 == getResponse(req, log).1
    ensures !IsAdminPath(req.path) && RecordFor(req, now).Some? && insertSucceeds
            ==> r.1 == getResponse(req, log).1 + [RecordFor(req, now).value]
    ensures RecordFor(req, now).None? || !insertSucceeds ==> r.1 == getResponse(req, log).1
  {
    var (response, after) := getResponse(req, log);
    if IsAdminPath(req.path) then (response, after)
    else
      var record := RecordFor(req, now);
      if record.Some? && insertSucceeds then (response, after + [record.value])
      else (response, after)
  }

  /** The bare prefix `/admin` (no trailing slash) is not an admin path, so a
      request to it is tracked. */
  lemma AdminWithoutSlashIsTracked<R>(getResponse: Handler<R>, req: Request, log: seq<Visit>, now: Instant)
    requires req.path == "/admin"
    requires RecordFor(req, now).Some?
    ensures |Call(getResponse, req, log, now, true).1| == |getResponse(req, log).1| + 1
  {
    assert !IsAdminPath(req.path);
  }

  /** Visit records in the order they were created carry non-decreasing
      timestamps. */
  predicate Chronological(log: seq<Visit>) {
    forall i, j :: 0 <= i < j < |log| ==> log[i].at <= log[j].at
  }

  /** Stamping the new record with the current instant keeps the log in
      chronological order. */
  lemma CallKeepsChronological<R>(getResponse: Handler<R>, req: Request, log: seq<Visit>,
                                  now: Instant, insertSucceeds: bool)
    requires Chronological(getResponse(req, log).1)
    requires forall i :: 0 <= i < |getResponse(req, log).1| ==> getResponse(req, log).1[i].at <= now
    ensures Chronological(Call(getResponse, req, log, now, insertSucceeds).1)
  {
    var after := getResponse(req, log).1;
    var r := Call(getResponse, req, log, now, insertSucceeds).1;
    if r != after {
      assert r == after + [RecordFor(req, now).value];
      forall i, j | 0 <= i < j < |r|
        ensures r[i].at <= r[j].at
      {
        if j == |after| {
          assert r[i] == after[i];
        }
      }
    }
  }
}
