/** The authenticated request helper (salesforce_client.py): one request
    with the stored token and, when Salesforce answers 401, one refresh of
    the token and a single retry with the new one. */
module SalesforceClient {
  import opened Py
  import opened Http
  import opened OsEnv

  /** `refresh_salesforce_token`, seen from the helper: each call returns a
      new token or a falsy value. */
  class Refresher {
    var calls: nat
    const answer: nat -> Option<string>

    constructor (answer: nat -> Option<string>)
      ensures calls == 0 && this.answer == answer
    {
      calls := 0;
      this.answer := answer;
    }

    method Refresh() returns (token: Option<string>)
      modifies this
      ensures calls == old(calls) + 1 && token == answer(old(calls))
    {
      token := answer(calls);
      calls := calls + 1;
    }
  }

  /** One call of the helper as the remote end and the token store see it:
      the requests sent, the number of refreshes, the token stored (if
      any) and the reply handed back. */
  datatype Exchange = Exchange(requests: seq<Request>, refreshes: nat, stored: Option<string>, result: Reply)

  /** What `salesforce_request` does, given the remote end's answers (the
      `n`-th request sent is answered by `server(n, request)`) and the token
      the refresh would return. */
  function Protocol(server: (nat, Request) -> Reply, n: nat, refreshed: Option<string>,
                    verb: string, url: string, token: Option<string>, args: Args): (e: Exchange)
    // at most two requests and one refresh; the last reply is returned
    ensures 1 <= |e.requests| <= 2 && e.refreshes <= 1
    ensures e.result == server(n + |e.requests| - 1, e.requests[|e.requests| - 1])
    // every request goes to the same place with the same arguments
    ensures forall i :: 0 <= i < |e.requests| ==>
      e.requests[i].verb == verb && e.requests[i].url == url && e.requests[i].args == args
    ensures e.requests[0].headers == Headers(token)
    // no 401: the first reply, no refresh, nothing stored
    ensures !HasStatus(server(n, e.requests[0]), 401) ==>
      |e.requests| == 1 && e.refreshes == 0 && e.stored == None
    // a 401 always triggers exactly one refresh
    ensures HasStatus(server(n, e.requests[0]), 401) ==> e.refreshes == 1
    // a falsy refresh returns the 401 itself and stores nothing
    ensures HasStatus(server(n, e.requests[0]), 401) && !Truthy(refreshed) ==>
      |e.requests| == 1 && e.stored == None && HasStatus(e.result, 401)
    // the retry happens exactly when a 401 met a usable new token, which is
    // stored and sent
    ensures |e.requests| == 2 <==> HasStatus(server(n, e.requests[0]), 401) && Truthy(refreshed)
    ensures e.stored.Some? <==> |e.requests| == 2
    ensures |e.requests| == 2 ==>
      e.stored == refreshed && e.requests[1].headers == Headers(refreshed) &&
      e.requests[1].headers["Authorization"] == "Bearer " + refreshed.value
  {
    var first := Request(verb, url, Headers(token), args);
    var reply := server(n, first);
    if !HasStatus(reply, 401) then Exchange([first], 0, None, reply)
    else if !Truthy(refreshed) then Exchange([first], 1, None, reply)
    else
      var retry := Request(verb, url, Headers(refreshed), args);
      Exchange([first, retry], 1, refreshed, server(n + 1, retry))
  }

  /** `salesforce_request(method, endpoint, **kwargs)`. */
  method SalesforceRequest(env: Environment, remote: Remote, refresher: Refresher,
                           verb: string, endpoint: string, args: Args) returns (response: Reply)
    modifies env, remote, refresher
    ensures var e := Protocol(remote.server, |old(remote.sent)|, refresher.answer(old(refresher.calls)),
                              verb, Show(old(env.Getenv(InstanceKey))) + endpoint, old(env.Getenv(TokenKey)), args);
      remote.sent == old(remote.sent) + e.requests &&
      refresher.calls == old(refresher.calls) + e.refreshes &&
      env.vars == (if e.stored.Some? then old(env.vars)[TokenKey := e.stored.value] else old(env.vars)) &&
      response == e.result
  {
    var instanceUrl := env.Getenv(InstanceKey);
    var accessToken := env.Getenv(TokenKey);
    var headers := Headers(accessToken);
    var url := Show(instanceUrl) + endpoint;
    response := remote.Send(Request(verb, url, headers, args));
    if HasStatus(response, 401) {
      var newToken := refresher.Refresh();
      if !Truthy(newToken) {
        return;
      }
      env.Update(TokenKey, newToken.value);
      headers := headers["Authorization" := "Bearer " + newToken.value];
      assert headers == Headers(newToken);
      response := remote.Send(Request(verb, url, headers, args));
    }
  }
}
