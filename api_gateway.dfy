/** The API gateway (`API_GATEWAY/main.py`): every request under `/api/` is
    sent to the service whose route prefix the path starts with. Sending the
    request and streaming the answer back are I/O outside the model; the
    model builds the request the gateway sends, and the outcome of sending
    it is a parameter. */
module ApiGateway {
  import opened Common

  /** `SERVICE_ROUTES`, in its insertion order: route prefix and service URL. */
  type Routes = seq<(string, string)>

  /** The configured default. */
  const DEFAULT_ROUTES: Routes := [("/api/v1/auth", "http://localhost:8005")]

  /** The header the gateway adds, and the value used when the client
      address is unknown. */
  const FORWARDED_FOR := "X-Forwarded-For"
  const UNKNOWN_CLIENT := "unknown"

  /** `get_target_service`: the URL of the first route, in mapping order,
      whose prefix starts `path`; 404 when there is none. */
  function GetTargetService(routes: Routes, path: string): (r: Result<string>)
    ensures r.Err? <==> forall i :: 0 <= i < |routes| ==> !StartsWith(path, routes[i].0)
    ensures r.Err? ==> r.error == HttpError(NOT_FOUND)
    ensures r.Ok? ==> exists i :: && 0 <= i < |routes| && StartsWith(path, routes[i].0)
                                  && r.value == routes[i].1
                                  && forall j :: 0 <= j < i ==> !StartsWith(path, routes[j].0)
    decreases |routes|
  {
    if routes == [] then Err(HttpError(NOT_FOUND))
    else if StartsWith(path, routes[0].0) then
      Ok(routes[0].1)
    else
      var r := GetTargetService(routes[1..], path);
      assert forall i :: 1 <= i < |routes| ==> routes[i] == routes[1..][i - 1];
      if r.Ok? then
        var i :| && 0 <= i < |routes[1..]| && StartsWith(path, routes[1..][i].0)
                 && r.value == routes[1..][i].1
                 && forall j :: 0 <= j < i ==> !StartsWith(path, routes[1..][j].0);
        assert forall j :: 0 <= j < i + 1 ==> !StartsWith(path, routes[j].0) by {
          forall j | 0 <= j < i + 1 ensures !StartsWith(path, routes[j].0) {
            if j > 0 {
              assert routes[j] == routes[1..][j - 1];
            }
          }
        }
        r
      else r
  }

  /** Matching compares raw strings: a path that merely extends a prefix, such
      as `/api/v1/authx`, is sent to the service of `/api/v1/auth`. */
  lemma PrefixMatchIsRaw()
    ensures GetTargetService(DEFAULT_ROUTES, "/api/v1/authx") == Ok("http://localhost:8005")
  {
    assert StartsWith("/api/v1/authx", DEFAULT_ROUTES[0].0);
  }

  /** `api_gateway`: the path handed on keeps its `/api/` prefix. */
  function FullPath(path: string): (p: string)
    ensures StartsWith(p, "/api/") && p[|"/api/"|..] == path
  {
    "/api/" + path
  }

  /** Under the default routes, a path the gateway receives below `/api/` is
      routed exactly when it starts with `v1/auth`: the prefix is matched
      against the full path, `/api/` included. */
  lemma DefaultRoutesFullPath(path: string)
    ensures GetTargetService(DEFAULT_ROUTES, FullPath(path)).Ok? <==> StartsWith(path, "v1/auth")
  {
    var full := FullPath(path);
    var prefix := DEFAULT_ROUTES[0].0;
    assert prefix == "/api/" + "v1/auth";
    if StartsWith(path, "v1/auth") {
      assert full[..|prefix|] == "/api/" + path[..|"v1/auth"|];
    }
    if StartsWith(full, prefix) {
      assert path[..|"v1/auth"|] == full[..|prefix|][|"/api/"|..];
    }
  }

  /** The login path would find no service on its own, but is routed to the
      auth service once the gateway has put `/api/` back in front of it. */
  lemma LoginRoutedOnlyWithPrefix()
    ensures GetTargetService(DEFAULT_ROUTES, "v1/auth/login") == Err(HttpError(NOT_FOUND))
    ensures GetTargetService(DEFAULT_ROUTES, FullPath("v1/auth/login")) == Ok("http://localhost:8005")
  {
    var bare: string := "v1/auth/login";
    assert bare[..|DEFAULT_ROUTES[0].0|][0] == 'v' != DEFAULT_ROUTES[0].0[0];
    assert StartsWith(FullPath("v1/auth/login"), DEFAULT_ROUTES[0].0);
  }

  /** The request the gateway sends: the HTTP method, the service URL whose path
      is replaced by `path`, the query (dropped when empty), the headers and
      the body. */
  datatype Outgoing = Outgoing(
    verb: string,
    service: string,
    path: string,
    query: Option<string>,
    headers: map<string, string>,
    body: seq<bv8>)

  /** `proxy_request`: route the path, rewrite the headers and send. Any
      exception inside, the routing 404 included, and any failure to send
      (`sendFails`) is reported as 500. */
  method ProxyRequest(routes: Routes, verb: string, path: string, query: string,
                      headers: map<string, string>, client: Option<string>, body: seq<bv8>, sendFails: bool)
    returns (r: Result<Outgoing>)
    ensures r.Err? <==> GetTargetService(routes, path).Err? || sendFails
    ensures r.Err? ==> r.error == HttpError(INTERNAL_ERROR)
    ensures r.Ok? ==> && r.value.service == GetTargetService(routes, path).value
                      && r.value.path == path && r.value.verb == verb && r.value.body == body
                      && r.value.query == (if query == "" then None else Some(query))
    ensures r.Ok? ==> && "host" !in r.value.headers
                      && r.value.headers.Keys == headers.Keys - {"host"} + {FORWARDED_FOR}
                      && r.value.headers[FORWARDED_FOR] == client.GetOr(UNKNOWN_CLIENT)
                      && forall h :: h in headers && h != "host" && h != FORWARDED_FOR ==>
                           r.value.headers[h] == headers[h]
  {
    var target := GetTargetService(routes, path);
    if target.Err? {
      return Err(HttpError(INTERNAL_ERROR));
    }
    var outHeaders := headers;
    outHeaders := outHeaders - {"host"};
    outHeaders := outHeaders[FORWARDED_FOR := client.GetOr(UNKNOWN_CLIENT)];
    if sendFails {
      return Err(HttpError(INTERNAL_ERROR));
    }
    var q := if query == "" then None else Some(query);
    r := Ok(Outgoing(verb, target.value, path, q, outHeaders, body));
  }

  /** The methods the `/api/{path}` route accepts; FastAPI answers any other
      with 405. */
  const GATEWAY_METHODS := {"GET", "POST", "PUT", "DELETE", "PATCH", "OPTIONS", "HEAD"}
  const METHOD_NOT_ALLOWED := 405

  /** `api_gateway`: a request to `/api/{path}` with an accepted method is
      proxied with the full path, `/api/` included, so routing and the
      outgoing request both see `"/api/" + path`. */
  method Gateway(routes: Routes, verb: string, path: string, query: string,
                 headers: map<string, string>, client: Option<string>, body: seq<bv8>, sendFails: bool)
    returns (r: Result<Outgoing>)
    ensures verb !in GATEWAY_METHODS ==> r == Err(HttpError(METHOD_NOT_ALLOWED))
    ensures verb in GATEWAY_METHODS ==>
              (r.Err? <==> GetTargetService(routes, "/api/" + path).Err? || sendFails)
    ensures verb in GATEWAY_METHODS && r.Err? ==> r.error == HttpError(INTERNAL_ERROR)
    ensures r.Ok? ==> && r.value.service == GetTargetService(routes, "/api/" + path).value
                      && r.value.path == "/api/" + path && r.value.verb == verb
  {
    if verb !in GATEWAY_METHODS {
      return Err(HttpError(METHOD_NOT_ALLOWED));
    }
    r := ProxyRequest(routes, verb, FullPath(path), query, headers, client, body, sendFails);
  }
}
