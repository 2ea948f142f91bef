/** The HTTP client wrapper (`lcu-rs/src/lcu.rs`), as a pure request builder:
    each verb returns the request it would send (verb, URL, Authorization
    header, optional JSON body). Sending is a parameter: a `Server` answers
    the `k`-th request of a run with a status and a body, or with a transport
    failure. */
module Lcu {
  import opened Wrappers
  import opened Text
  import opened LcuErrors
  import opened JsonValue
  import opened Auth

  datatype Verb = GET | DELETE | POST | PUT | PATCH

  /** A request as the HTTP client would send it. `body` is the JSON value
      serialised as the request body, if any. */
  datatype Request = Request(verb: Verb, url: string, authorization: string, body: Option<Json>)

  /** The client: the port it talks to and the default Authorization header
      it attaches to every request. */
  datatype Client = Client(port: string, authorization: string)

  /** What came back for one request: a transport failure, or a status with
      the body, when the body is JSON. */
  datatype Response = TransportError | Reply(status: int, json: Option<Json>)

  /** The peer, answering the `k`-th request of a run. */
  type Server = (nat, Request) -> Response

  /** `StatusCode::is_success`: 200 to 299. */
  predicate IsSuccess(status: int) {
    200 <= status <= 299
  }

  /** `.send().await?`: a transport failure becomes `RequestError`. */
  function Send(server: Server, k: nat, req: Request): (r: Result<Response, ApiError>)
    ensures r.Failure? <==> server(k, req).TransportError?
    ensures r.Failure? ==> r.error == RequestError
    ensures r.Success? ==> r.value == server(k, req) && r.value.Reply?
  {
    match server(k, req)
    case TransportError => Failure(RequestError)
    case Reply(status, json) => Success(Reply(status, json))
  }

  const HEADER_PANIC: string := "unable to create header value from auth token"

  /** `Lcu::new`: discover the credential, then build the client with its
      port and with `basic_auth_token` as the Authorization header. The
      header check of `HeaderValue::from_str` never fails for that token. */
  function NewLcu(os: Os, procs: seq<Process>): (r: Result<Client, AuthFailure>)
    ensures r.Success? <==> NewAuth(os, procs).Success?
    ensures r.Failure? ==> r.error == NewAuth(os, procs).error
    ensures r.Success? ==> r.value.port == NewAuth(os, procs).value.Port()
    ensures r.Success? ==> r.value.authorization == BasicAuthToken(NewAuth(os, procs).value)
  {
    var auth :- NewAuth(os, procs);
    var token := BasicAuthToken(auth);
    BasicAuthTokenIsHeaderValue(auth);
    if !IsHeaderValue(token) then Failure(Panic(HEADER_PANIC))
    else Success(Client(auth.Port(), token))
  }

  /** Everything of a URL before the endpoint. */
  function UrlBase(port: string): string {
    "https://127.0.0.1:" + port + "/"
  }

  /** `Lcu::make_url`: the endpoint, with every leading `/` removed, after
      `https://127.0.0.1:<port>/`. What follows the base is a suffix of the
      endpoint that does not start with `/`, and only slashes were dropped. */
  function MakeUrl(c: Client, endpoint: string): (url: string)
    ensures var base := UrlBase(c.port);
      && |base| <= |url| && url[..|base|] == base
      && var path := url[|base|..];
      && |path| <= |endpoint| && path == endpoint[|endpoint| - |path|..]
      && (forall i :: 0 <= i < |endpoint| - |path| ==> endpoint[i] == '/')
      && (path == [] || path[0] != '/')
  {
    var base := UrlBase(c.port);
    var path := TrimStartMatches(endpoint, '/');
    assert (base + path)[|base|..] == path;
    base + path
  }

  /** Leading slashes do not matter: `x`, `/x` and `//x` give one URL. */
  lemma MakeUrlIgnoresLeadingSlash(c: Client, endpoint: string)
    ensures MakeUrl(c, "/" + endpoint) == MakeUrl(c, endpoint)
    ensures MakeUrl(c, "//" + endpoint) == MakeUrl(c, endpoint)
  {
    var path := TrimStartMatches(endpoint, '/');
    var d := |endpoint| - |path|;
    var one, two := "/" + endpoint, "//" + endpoint;
    assert one[d + 1..] == endpoint[d..] && two[d + 2..] == endpoint[d..];
    TrimStartMatchesOf(one, '/', d + 1);
    TrimStartMatchesOf(two, '/', d + 2);
  }

  /** An endpoint that does not start with `/` appears verbatim. */
  lemma MakeUrlVerbatim(c: Client, endpoint: string)
    requires endpoint == [] || endpoint[0] != '/'
    ensures MakeUrl(c, endpoint) == UrlBase(c.port) + endpoint
  {
  }

  /** `Lcu::get`: a GET to the endpoint on the client's port, with the
      client's Authorization header and no body. */
  function Get(c: Client, endpoint: string): (r: Request)
    ensures r.verb == GET && r.body == None && r.authorization == c.authorization
    ensures r.url == UrlBase(c.port) + TrimStartMatches(endpoint, '/')
  {
    Request(GET, MakeUrl(c, endpoint), c.authorization, None)
  }

  /** `Lcu::delete`: a DELETE to the endpoint on the client's port, with the
      client's Authorization header and no body. */
  function Delete(c: Client, endpoint: string): (r: Request)
    ensures r.verb == DELETE && r.body == None && r.authorization == c.authorization
    ensures r.url == UrlBase(c.port) + TrimStartMatches(endpoint, '/')
  {
    Request(DELETE, MakeUrl(c, endpoint), c.authorization, None)
  }

  /** `Lcu::post`: a POST to the endpoint on the client's port, with the
      client's Authorization header, and the body serialised as JSON. */
  function Post(c: Client, endpoint: string, body: Json): (r: Request)
    ensures r.verb == POST && r.body == Some(body) && r.authorization == c.authorization
    ensures r.url == UrlBase(c.port) + TrimStartMatches(endpoint, '/')
  {
    Request(POST, MakeUrl(c, endpoint), c.authorization, Some(body))
  }

  /** `Lcu::put`: a PUT to the endpoint on the client's port, with the
      client's Authorization header, and the body serialised as JSON. */
  function Put(c: Client, endpoint: string, body: Json): (r: Request)
    ensures r.verb == PUT && r.body == Some(body) && r.authorization == c.authorization
    ensures r.url == UrlBase(c.port) + TrimStartMatches(endpoint, '/')
  {
    Request(PUT, MakeUrl(c, endpoint), c.authorization, Some(body))
  }

  /** `Lcu::patch`: a PATCH to the endpoint on the client's port, with the
      client's Authorization header, and the body serialised as JSON. */
  function Patch(c: Client, endpoint: string, body: Json): (r: Request)
    ensures r.verb == PATCH && r.body == Some(body) && r.authorization == c.authorization
    ensures r.url == UrlBase(c.port) + TrimStartMatches(endpoint, '/')
  {
    Request(PATCH, MakeUrl(c, endpoint), c.authorization, Some(body))
  }

  /** The five verbs target the same URL and carry the client's
      Authorization header; only `post`, `put` and `patch` carry a body, and
      that body is the one given. */
  lemma VerbsAgree(c: Client, endpoint: string, body: Json)
    ensures var rs := [Get(c, endpoint), Delete(c, endpoint), Post(c, endpoint, body), Put(c, endpoint, body), Patch(c, endpoint, body)];
      && (forall i :: 0 <= i < |rs| ==> rs[i].url == MakeUrl(c, endpoint) && rs[i].authorization == c.authorization)
      && Get(c, endpoint).body == None && Delete(c, endpoint).body == None
      && Post(c, endpoint, body).body == Some(body)
      && Put(c, endpoint, body).body == Some(body)
      && Patch(c, endpoint, body).body == Some(body)
  {
  }

  /** `req` goes to the credential's port and carries its Basic
      Authorization header. */
  predicate SentWith(req: Request, auth: Auth) {
    req.authorization == BasicAuthToken(auth) && UrlBase(auth.port) <= req.url
  }

  /** The requests of a client built by `Lcu::new`, whatever the verb, go to
      the discovered port and carry the Basic credential of the discovered
      token. */
  lemma NewLcuRequests(os: Os, procs: seq<Process>, endpoint: string, body: Json)
    ensures NewLcu(os, procs).Success? ==>
      var auth := NewAuth(os, procs).value;
      var c := NewLcu(os, procs).value;
      && SentWith(Get(c, endpoint), auth) && SentWith(Delete(c, endpoint), auth)
      && SentWith(Post(c, endpoint, body), auth) && SentWith(Put(c, endpoint, body), auth)
      && SentWith(Patch(c, endpoint, body), auth)
  {
    if NewLcu(os, procs).Success? {
      CredentialRequests(NewLcu(os, procs).value, NewAuth(os, procs).value, endpoint, body);
    }
  }

  /** Every verb of a client built from a credential goes to the
      credential's port with its Basic Authorization header. */
  lemma CredentialRequests(c: Client, auth: Auth, endpoint: string, body: Json)
    requires c.port == auth.port && c.authorization == BasicAuthToken(auth)
    ensures && SentWith(Get(c, endpoint), auth) && SentWith(Delete(c, endpoint), auth)
            && SentWith(Post(c, endpoint, body), auth) && SentWith(Put(c, endpoint, body), auth)
            && SentWith(Patch(c, endpoint, body), auth)
  {
  }
}
