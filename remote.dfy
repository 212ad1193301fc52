/**
 * A remote REST service seen through the transport, for the operations whose
 * point is the sequence of calls they make (the BMC bootstrap). The service's
 * answers are given up front as a function of the requests already received
 * and the new request, so an answer may depend on earlier requests (a password
 * change makes later logins work); `log` records every request sent.
 */
module Remote {
  import opened Results
  import opened Rest

  /** A service: its answer to a request, given the requests it received before. */
  type Service = (seq<Request>, Request) -> Result<string, string>

  /** The network as it stands after `history`: the service's answer to each new request. */
  function Answer(respond: Service, history: seq<Request>): Io
  {
    req => respond(history, req)
  }

  class Endpoint {
    /** Every request sent so far, oldest first. */
    var log: seq<Request>
    /** The service: its answer to a request, given the requests before it. */
    const respond: Service

    constructor (respond: Service)
      ensures log == [] && this.respond == respond
    {
      log := [];
      this.respond := respond;
    }

    /** `execute_request` followed by decoding, as `get`, `list` and `delete` do. */
    method Call<T>(c: RestClient, m: Method, path: string, data: Option<string>,
                   decode: string -> Option<T>) returns (r: Result<T, RestError>)
      modifies this
      ensures log == old(log) + [BuildRequest(c, m, path, data)]
      ensures r == Rest.Call(c, m, path, data, Answer(respond, old(log)), decode)
    {
      var req := BuildRequest(c, m, path, data);
      var resp := respond(log, req);
      log := log + [req];
      match resp
      case Err(t) =>
        r := Err(FromForeign(Reqwest(t)));
      case Ok(text) =>
        r := if decode(text).Some? then Ok(decode(text).value) else Err(InvalidConfig("invalid response"));
    }

    /** `put`, `post` and `patch`: nothing is sent when the body does not encode. */
    method Send<S, T>(c: RestClient, m: Method, path: string, o: S, encode: S -> Option<string>,
                      decode: string -> Option<T>) returns (r: Result<T, RestError>)
      modifies this
      ensures encode(o).None? ==> log == old(log)
      ensures encode(o).Some? ==> log == old(log) + [BuildRequest(c, m, path, Some(encode(o).value))]
      ensures r == Rest.Send(c, m, path, o, encode, Answer(respond, old(log)), decode)
    {
      var input := encode(o);
      if input.None? {
        return Err(InvalidConfig("invalid input"));
      }
      r := Call(c, m, path, Some(input.value), decode);
    }
  }
}
