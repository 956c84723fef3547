/** What the pipelines see of HTTP: a request (method, URL, headers and the
    extra arguments they pass to `requests`), a response (status code, raw
    text and what `.json()` makes of it), and a remote end that answers the
    requests sent to it in turn. */
module Http {
  import opened Py

  /** The keyword arguments passed through to `requests`: a JSON body, a
      form body (a `None` value is left out of the encoded form by
      `requests`, which is not modelled) and a timeout in seconds. */
  datatype Args = Args(json: Option<Record>, form: map<string, Option<string>>, timeout: Option<nat>)

  datatype Request = Request(verb: string, url: string, headers: map<string, string>, args: Args)

  /** What `response.json()` does: returns the decoded object, or raises
      with the given message. */
  datatype Body = Decoded(fields: Record) | Undecodable(error: string)

  datatype Response = Response(status: int, text: string, json: Body)

  /** The outcome of a call into `requests`: a response, or the exception
      raised by the transport. */
  type Reply = Result<Response>

  /** Whether a reply is a response with the given status code. */
  predicate HasStatus(reply: Reply, status: int)
  {
    reply.Ok? && reply.value.status == status
  }

  /** The headers both Salesforce helpers send: the bearer token, rendered
      as an f-string renders `str | None`, and the JSON content type. */
  function Headers(token: Option<string>): map<string, string>
  {
    map["Authorization" := "Bearer " + Show(token), "Content-Type" := "application/json"]
  }

  /** The remote end: a log of the requests sent so far and the answer it
      gives to the `n`-th request. */
  class Remote {
    var sent: seq<Request>
    const server: (nat, Request) -> Reply

    constructor (server: (nat, Request) -> Reply)
      ensures sent == [] && this.server == server
    {
      sent := [];
      this.server := server;
    }

    /** `requests.request(...)`: the request is logged and answered. */
    method Send(req: Request) returns (reply: Reply)
      modifies this
      ensures sent == old(sent) + [req]
      ensures reply == server(|old(sent)|, req)
    {
      reply := server(|sent|, req);
      sent := sent + [req];
    }
  }
}
