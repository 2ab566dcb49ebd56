/**
 The request gate in src/proxy.ts: API paths under the protected prefixes
 need a token the verifier accepts; every other path passes untouched.
 */
module Proxy {
  import opened Wrappers
  import opened Text
  import opened Http

  const ProtectedPrefixes: seq<string> := ["/api/projects", "/api/tasks"]

  /** `NextResponse.next()` or a plain-text rejection. */
  datatype Gate = Next | Reject(status: int, message: string)

  /** `protectedPaths.some((p) => pathname.startsWith(p))`. */
  predicate IsProtected(path: string) {
    exists k :: 0 <= k < |ProtectedPrefixes| && StartsWith(path, ProtectedPrefixes[k])
  }

  /** The bearer token as the proxy reads it: the first "Bearer " anywhere in
      the header is removed, not only a leading one. */
  function ProxyToken(authorization: Option<string>): (t: Option<string>)
    ensures authorization.None? <==> t.None?
    ensures authorization.Some? && StartsWith(authorization.value, "Bearer ")
            ==> t == Some(authorization.value[7..])
  {
    match authorization
    case None => None
    case Some(h) =>
      if StartsWith(h, "Bearer ") then ReplaceLeadingPrefix(h, "Bearer "); Some(ReplaceFirst(h, "Bearer ", ""))
      else Some(ReplaceFirst(h, "Bearer ", ""))
  }

  /** `jwt.verify(token, process.env.JWT_SECRET)` returns rather than
      throws. */
  predicate Verifies(token: string, env: Env) {
    JwtVerify(token, env).Valid?
  }

  function ProxyGate(path: string, authorization: Option<string>, env: Env): (g: Gate)
    ensures !IsProtected(path) ==> g == Next
    ensures IsProtected(path) && (ProxyToken(authorization).None? || ProxyToken(authorization) == Some(""))
            ==> g == Reject(401, "Unauthorized")
    ensures IsProtected(path) && ProxyToken(authorization).Some? && ProxyToken(authorization) != Some("")
            ==> (g == Next <==> Verifies(ProxyToken(authorization).value, env))
    ensures g.Reject? ==> g.status == 401 && (g.message == "Unauthorized" || g.message == "Invalid token")
  {
    if !IsProtected(path) then Next
    else match ProxyToken(authorization)
      case None => Reject(401, "Unauthorized")
      case Some(token) =>
        if token == "" then Reject(401, "Unauthorized")
        else if Verifies(token, env) then Next
        else Reject(401, "Invalid token")
  }

  /** The prefix test is plain `startsWith`: exactly the paths that begin with
      one of the two prefixes are gated, so "/api/projectsX" is gated and
      "/api/calendar" and "/api/events" are not. */
  lemma ProtectedPaths(path: string)
    ensures IsProtected(path) <==> StartsWith(path, "/api/projects") || StartsWith(path, "/api/tasks")
    ensures IsProtected("/api/projectsX") && IsProtected("/api/tasks/due")
    ensures !IsProtected("/api/calendar") && !IsProtected("/api/events")
  {
    assert StartsWith("/api/projectsX", ProtectedPrefixes[0]);
    assert StartsWith("/api/tasks/due", ProtectedPrefixes[1]);
    assert "/api/calendar"[..10][5] == 'c' && "/api/calendar"[..13][5] == 'c';
    assert "/api/events"[..10][5] == 'e' && "/api/events"[..11][5] == 'e';
  }

  /** Unlike the routes' own check, a header need not start with "Bearer ":
      a bare token passes the gate when the verifier accepts it. */
  lemma BareTokenPasses(path: string, token: string, env: Env)
    requires IsProtected(path) && token != ""
    requires forall j :: !OccursAt(token, "Bearer ", j)
    requires Verifies(token, env)
    ensures ProxyGate(path, Some(token), env) == Next
  {
  }
}
