/**
 * The JSON-over-HTTPS transport (libonm/src/rest.rs): the client built from
 * a configured address, the request that `execute_request` sends, and the
 * typed helpers `get`, `list`, `put`, `post`, `delete` and `patch`, each of
 * which maps a body that will not encode or a response that will not decode
 * to `InvalidConfig`.
 *
 * The network is a parameter `io`: it receives the request that would go on
 * the wire and returns the response text or the message of the `reqwest`
 * error. JSON encoding and decoding are parameters too (`encode`, `decode`).
 */
module Rest {
  import opened Results
  import opened Text
  import Url

  datatype RestError =
    | Internal(msg: string)
    | Json(msg: string)
    | Http(msg: string)
    | NotFound(msg: string)
    | AuthFailure(msg: string)
    | InvalidConfig(msg: string)
  {
    /** The display text of the error, as its `#[error(...)]` format gives it. */
    function Message(): string
    {
      match this
      case Internal(m) => m
      case Json(m) => m
      case Http(m) => m
      case NotFound(m) => "'" + m + "' not found"
      case AuthFailure(m) => "failed to auth '" + m + "'"
      case InvalidConfig(m) => "invalid configuration '" + m + "'"
    }
  }

  /** The foreign errors the `From` impls convert, each with its display text. */
  datatype ForeignError = Reqwest(text: string) | SerdeJson(text: string) | Io(text: string)

  /** The three `From` impls for `RestError`. */
  function FromForeign(f: ForeignError): (e: RestError)
    ensures e.Json? <==> f.SerdeJson?
    ensures e.Http? <==> !f.SerdeJson?
    ensures e.Message() == f.text
  {
    match f
    case Reqwest(t) => Http(t)
    case SerdeJson(t) => Json(t)
    case Io(t) => Http(t)
  }

  datatype RestConfig = RestConfig(address: string, username: string, password: string)

  /** The stored fields of `RestClient`: `address` is `host:port`. */
  datatype RestClient = RestClient(address: string, user: string, password: string)

  const DefaultPort: u16 := 443

  /**
   * `RestClient::new`: parses the configured address as a URL and keeps
   * `host:port`, with port 443 when the URL gives none.
   */
  function NewClient(config: RestConfig, parse: Url.Parser): (r: Result<RestClient, RestError>)
    ensures r.Ok? <==> parse(config.address).Some? && parse(config.address).value.host.Some?
    ensures parse(config.address).None? ==> r == Err(InvalidConfig("invalid url"))
    ensures parse(config.address).Some? && parse(config.address).value.host.None? ==>
              r == Err(InvalidConfig("invalid host"))
    ensures r.Ok? ==> r.value.user == config.username && r.value.password == config.password
  {
    match parse(config.address)
    case None => Err(InvalidConfig("invalid url"))
    case Some(url) =>
      match url.host
      case None => Err(InvalidConfig("invalid host"))
      case Some(host) =>
        var port := if url.port.Some? then url.port.value else DefaultPort;
        Ok(RestClient(host + ":" + Decimal(port), config.username, config.password))
  }

  /**
   * The stored address splits back into the URL's host and its port: the
   * text behind the host's length is `:` and a decimal numeral that reads
   * back as the explicit port, or 443.
   */
  lemma NewClientAddress(config: RestConfig, parse: Url.Parser)
    requires NewClient(config, parse).Ok?
    ensures var url := parse(config.address).value;
            var a := NewClient(config, parse).value.address;
            var port := if url.port.Some? then url.port.value else 443;
            |url.host.value| < |a| && a[..|url.host.value|] == url.host.value
            && a[|url.host.value|] == ':'
            && FromStrRadix(a[|url.host.value| + 1..], 10) == Some(port)
  {
    var url := parse(config.address).value;
    var port := if url.port.Some? then url.port.value else DefaultPort;
    var h := url.host.value;
    var a := NewClient(config, parse).value.address;
    assert a == h + ":" + Decimal(port);
    assert a[|h| + 1..] == Decimal(port);
    FromStrRadixRender(port, 10);
  }

  datatype Method = GET | PUT | POST | DELETE | PATCH

  /** What goes on the wire: basic authentication with the stored credentials. */
  datatype Request = Request(verb: Method, url: string, body: string, user: string, password: string)

  /** The network: the response text, or the display text of a `reqwest` error. */
  type Io = Request -> Result<string, string>

  /** The fixed part of every URL the client requests: scheme, stored address, `/`. */
  function UrlBase(c: RestClient): string
  {
    "https://" + c.address + "/"
  }

  /**
   * The request `execute_request` builds: the URL is `https://`, the stored
   * address, `/`, and the path with every leading and trailing `/` removed;
   * a missing body is sent as the empty string.
   */
  function BuildRequest(c: RestClient, m: Method, path: string, data: Option<string>): (req: Request)
    ensures req.verb == m && req.user == c.user && req.password == c.password
    ensures data.None? ==> req.body == ""
    ensures data.Some? ==> req.body == data.value
  {
    Request(m, AppendTrimmed(UrlBase(c), path, '/'), if data.Some? then data.value else "", c.user, c.password)
  }

  /** The URL is the base followed by the path trimmed of `/` on both sides. */
  lemma BuildRequestUrl(c: RestClient, m: Method, path: string, data: Option<string>)
    ensures BuildRequest(c, m, path, data).url == "https://" + c.address + "/" + TrimMatches(path, '/')
    ensures StartsWith(BuildRequest(c, m, path, data).url, "https://" + c.address + "/")
  {
    AppendTrimmedIsTrimMatches(UrlBase(c), path, '/');
    var url := UrlBase(c) + TrimMatches(path, '/');
    assert url[..|UrlBase(c)|] == UrlBase(c);
  }

  /** Paths that differ only by a surrounding `/` give the same request. */
  lemma BuildRequestSlashes(c: RestClient, m: Method, path: string, data: Option<string>)
    ensures BuildRequest(c, m, "/" + path, data) == BuildRequest(c, m, path, data)
    ensures BuildRequest(c, m, path + "/", data) == BuildRequest(c, m, path, data)
  {
    BuildRequestUrl(c, m, path, data);
    BuildRequestUrl(c, m, "/" + path, data);
    BuildRequestUrl(c, m, path + "/", data);
    TrimMatchesLeading(path, '/');
    TrimMatchesTrailing(path, '/');
  }

  /**
   * `execute_request`: the request goes to the network; every failure there
   * surfaces through `From<reqwest::Error>`, so as `Http`.
   */
  function ExecuteRequest(c: RestClient, m: Method, path: string, data: Option<string>, io: Io): (r: Result<string, RestError>)
    ensures r.Ok? <==> io(BuildRequest(c, m, path, data)).Ok?
    ensures r.Ok? ==> r.value == io(BuildRequest(c, m, path, data)).value
    ensures r.Err? ==> r.error == Http(io(BuildRequest(c, m, path, data)).error)
  {
    io(BuildRequest(c, m, path, data)).MapErr((t: string) => FromForeign(Reqwest(t)))
  }

  /**
   * The shape shared by the body-less helpers `get`, `list` and `delete`:
   * execute, then decode; a response that does not decode is
   * `InvalidConfig("invalid response")`, never `Json`.
   */
  function Call<T>(c: RestClient, m: Method, path: string, data: Option<string>, io: Io,
                   decode: string -> Option<T>): (r: Result<T, RestError>)
    ensures var resp := io(BuildRequest(c, m, path, data));
            && (r.Ok? <==> resp.Ok? && decode(resp.value).Some?)
            && (r.Ok? ==> decode(resp.value) == Some(r.value))
            && (resp.Err? ==> r == Err(Http(resp.error)))
            && (resp.Ok? && decode(resp.value).None? ==> r == Err(InvalidConfig("invalid response")))
  {
    match ExecuteRequest(c, m, path, data, io)
    case Err(e) => Err(e)
    case Ok(resp) =>
      match decode(resp)
      case None => Err(InvalidConfig("invalid response"))
      case Some(v) => Ok(v)
  }

  /**
   * The shape shared by `put`, `post` and `patch`: a body that does not
   * encode is `InvalidConfig("invalid input")` and nothing is sent; otherwise
   * the encoded body is sent and the response decoded as in `Call`.
   */
  function Send<S, T>(c: RestClient, m: Method, path: string, o: S, encode: S -> Option<string>,
                      io: Io, decode: string -> Option<T>): (r: Result<T, RestError>)
    ensures encode(o).None? ==> r == Err(InvalidConfig("invalid input"))
    ensures encode(o).Some? ==> r == Call(c, m, path, Some(encode(o).value), io, decode)
  {
    match encode(o)
    case None => Err(InvalidConfig("invalid input"))
    case Some(input) => Call(c, m, path, Some(input), io, decode)
  }

  /** A body that does not encode fails the same whatever the network would answer. */
  lemma SendEncodeFailureSendsNothing<S, T>(c: RestClient, m: Method, path: string, o: S,
                                             encode: S -> Option<string>, io1: Io, io2: Io,
                                             decode: string -> Option<T>)
    requires encode(o).None?
    ensures Send(c, m, path, o, encode, io1, decode) == Send(c, m, path, o, encode, io2, decode)
  {
  }

  /**
   * The typed helpers produce only `Http` (from the network) and
   * `InvalidConfig` (from encoding or decoding); `NotFound`, `AuthFailure`,
   * `Json` and `Internal` never come out of them.
   */
  lemma SendErrorKinds<S, T>(c: RestClient, m: Method, path: string, o: S, encode: S -> Option<string>,
                             io: Io, decode: string -> Option<T>)
    ensures var r := Send(c, m, path, o, encode, io, decode);
            r.Err? ==> r.error.Http? || r.error in {InvalidConfig("invalid input"), InvalidConfig("invalid response")}
    ensures var r := Call(c, m, path, None, io, decode);
            r.Err? ==> r.error.Http? || r.error == InvalidConfig("invalid response")
  {
  }

  /**
   * What a typed helper makes of the network's response: the decoded value,
   * `Http` for a network failure, "invalid response" for text that does not
   * decode.
   */
  ghost predicate Decoded<T>(r: Result<T, RestError>, resp: Result<string, string>, decode: string -> Option<T>)
  {
    && (r.Ok? <==> resp.Ok? && decode(resp.value).Some?)
    && (r.Ok? ==> decode(resp.value) == Some(r.value))
    && (resp.Err? ==> r == Err(Http(resp.error)))
    && (resp.Ok? && decode(resp.value).None? ==> r == Err(InvalidConfig("invalid response")))
  }

  /** `get`: a body-less GET of `path`, its answer decoded. */
  function Get<T>(c: RestClient, path: string, io: Io, decode: string -> Option<T>): (r: Result<T, RestError>)
    ensures Decoded(r, io(BuildRequest(c, GET, path, None)), decode)
  {
    Call(c, GET, path, None, io, decode)
  }

  /** `list`: a body-less GET of `path`, its answer decoded as a list. */
  function List<T>(c: RestClient, path: string, io: Io, decode: string -> Option<seq<T>>): (r: Result<seq<T>, RestError>)
    ensures Decoded(r, io(BuildRequest(c, GET, path, None)), decode)
  {
    Call(c, GET, path, None, io, decode)
  }

  /** `delete`: a body-less DELETE of `path`, its answer decoded. */
  function Delete<T>(c: RestClient, path: string, io: Io, decode: string -> Option<T>): (r: Result<T, RestError>)
    ensures Decoded(r, io(BuildRequest(c, DELETE, path, None)), decode)
  {
    Call(c, DELETE, path, None, io, decode)
  }

  /** `put`: the encoded body is PUT to `path`; a body that does not encode is never sent. */
  function Put<S, T>(c: RestClient, path: string, o: S, encode: S -> Option<string>, io: Io,
                     decode: string -> Option<T>): (r: Result<T, RestError>)
    ensures encode(o).None? ==> r == Err(InvalidConfig("invalid input"))
    ensures encode(o).Some? ==> Decoded(r, io(BuildRequest(c, PUT, path, encode(o))), decode)
  {
    Send(c, PUT, path, o, encode, io, decode)
  }

  /** `post`: the encoded body is POSTed to `path`; a body that does not encode is never sent. */
  function Post<S, T>(c: RestClient, path: string, o: S, encode: S -> Option<string>, io: Io,
                      decode: string -> Option<T>): (r: Result<T, RestError>)
    ensures encode(o).None? ==> r == Err(InvalidConfig("invalid input"))
    ensures encode(o).Some? ==> Decoded(r, io(BuildRequest(c, POST, path, encode(o))), decode)
  {
    Send(c, POST, path, o, encode, io, decode)
  }

  /** `patch`: the encoded body is PATCHed to `path`; a body that does not encode is never sent. */
  function Patch<S, T>(c: RestClient, path: string, o: S, encode: S -> Option<string>, io: Io,
                       decode: string -> Option<T>): (r: Result<T, RestError>)
    ensures encode(o).None? ==> r == Err(InvalidConfig("invalid input"))
    ensures encode(o).Some? ==> Decoded(r, io(BuildRequest(c, PATCH, path, encode(o))), decode)
  {
    Send(c, PATCH, path, o, encode, io, decode)
  }
}
