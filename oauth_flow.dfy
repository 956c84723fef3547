/** The OAuth side (oauth_flow.py): the login link, the callback that trades
    an authorisation code for a token, and the token refresh that stores
    the new access token in the environment and in the .env file. */
module OAuthFlow {
  import opened Py
  import opened PyStr
  import opened Http
  import opened OsEnv

  /** The module-level settings read from the environment at import time. */
  datatype Settings = Settings(clientId: Option<string>, clientSecret: Option<string>,
                               redirectUri: Option<string>, authUrl: Option<string>, tokenUrl: Option<string>)

  /** The login link on the home page; an unset setting shows as None. */
  function AuthLink(s: Settings): string
  {
    Show(s.authUrl) + "?response_type=code&client_id=" + Show(s.clientId) + "&redirect_uri=" + Show(s.redirectUri)
  }

  /** The link reads, in order: the authorisation URL, the code response
      type and the client id, then the redirect URI; each setting can be
      read back from its own slice. */
  lemma AuthLinkParts(s: Settings)
    ensures var link, a, c, u := AuthLink(s), Show(s.authUrl), Show(s.clientId), Show(s.redirectUri);
      |link| == |a| + 30 + |c| + 14 + |u| &&
      link[..|a|] == a &&
      link[|a|..|a| + 30] == "?response_type=code&client_id=" &&
      link[|a| + 30..|a| + 30 + |c|] == c &&
      link[|a| + 30 + |c|..|a| + 44 + |c|] == "&redirect_uri=" &&
      link[|a| + 44 + |c|..] == u
  {
    Slices(Show(s.authUrl), "?response_type=code&client_id=", Show(s.clientId), "&redirect_uri=", Show(s.redirectUri));
  }

  /** Where each part of a five-part concatenation sits. */
  lemma Slices(a: string, q: string, c: string, r: string, u: string)
    requires |q| == 30 && |r| == 14
    ensures var link := a + q + c + r + u;
      |link| == |a| + 30 + |c| + 14 + |u| &&
      link[..|a|] == a &&
      link[|a|..|a| + 30] == q &&
      link[|a| + 30..|a| + 30 + |c|] == c &&
      link[|a| + 30 + |c|..|a| + 44 + |c|] == r &&
      link[|a| + 44 + |c|..] == u
  {
  }

  /** What the callback route answers with. */
  datatype Page =
    | Plain(text: string, status: int)   // a string and a status code
    | Json(fields: Record, status: int)  // `jsonify(result)`, with 200 unless given
    | ServerError(message: string)       // an uncaught exception: Flask's 500 page

  const NoCode := "Error: No code returned by Salesforce"

  /** The form posted to the token endpoint to trade a code. */
  function CodeExchange(s: Settings, code: string): Request
  {
    Request("POST", Show(s.tokenUrl), map[],
            Args(None, map["grant_type" := Some("authorization_code"), "code" := Some(code),
                           "client_id" := s.clientId, "client_secret" := s.clientSecret,
                           "redirect_uri" := s.redirectUri], None))
  }

  /** The page the callback serves once the token endpoint has answered. */
  function CallbackPage(reply: Reply): Page
  {
    match reply
    case Raised(message) => ServerError(message)
    case Ok(res) =>
      match res.json
      case Undecodable(error) => ServerError(error)
      case Decoded(fields) => if "error" in fields then Json(fields, 400) else Json(fields, 200)
  }

  /** Whether the callback saves the raw response text to token.json. */
  predicate Saves(reply: Reply)
  {
    reply.Ok? && reply.value.json.Decoded? && "error" !in reply.value.json.fields
  }

  /** An answer carrying an error key is passed on with status 400; the
      token is saved exactly when the page is a 200, and the page then
      shows the decoded answer; a reply that raises or does not decode
      ends in a server error. */
  lemma CallbackPageCases(reply: Reply)
    ensures Saves(reply) <==> CallbackPage(reply).Json? && CallbackPage(reply).status == 200
    ensures Saves(reply) ==> CallbackPage(reply) == Json(reply.value.json.fields, 200)
    ensures reply.Ok? && reply.value.json.Decoded? && "error" in reply.value.json.fields ==>
      CallbackPage(reply) == Json(reply.value.json.fields, 400)
    ensures CallbackPage(reply).ServerError? <==> reply.Raised? || reply.value.json.Undecodable?
  {
  }

  /** token.json. */
  class TokenFile {
    var contents: Option<string>

    constructor (contents: Option<string>)
      ensures this.contents == contents
    {
      this.contents := contents;
    }

    method Write(text: string)
      modifies this
      ensures contents == Some(text)
    {
      contents := Some(text);
    }
  }

  /** The `/callback` route, given the `code` query parameter. */
  method Callback(remote: Remote, tokenFile: TokenFile, s: Settings, code: Option<string>) returns (page: Page)
    modifies remote, tokenFile
    // without a code: a 400 before any exchange, nothing saved
    ensures !Truthy(code) ==>
      page == Plain(NoCode, 400) && remote.sent == old(remote.sent) && tokenFile.contents == old(tokenFile.contents)
    // with one: exactly one exchange, whose answer decides the page and the file
    ensures Truthy(code) ==>
      var req := CodeExchange(s, code.value);
      var reply := remote.server(|old(remote.sent)|, req);
      remote.sent == old(remote.sent) + [req] &&
      page == CallbackPage(reply) &&
      tokenFile.contents == if Saves(reply) then Some(reply.value.text) else old(tokenFile.contents)
  {
    if !Truthy(code) {
      return Plain(NoCode, 400);
    }
    var response := remote.Send(CodeExchange(s, code.value));
    if response.Raised? {
      return ServerError(response.message);
    }
    match response.value.json
    case Undecodable(error) =>
      page := ServerError(error);
    case Decoded(result) =>
      if "error" in result {
        return Json(result, 400);
      }
      tokenFile.Write(response.value.text);
      page := Json(result, 200);
  }

  const TokenLine := "SF_ACCESS_TOKEN="

  /** One line of the .env rewrite. */
  function RewriteLine(line: string, token: string): string
  {
    if StartsWith(line, TokenLine) then TokenLine + token + "\n" else line
  }

  /** The .env file after the rewrite: every line setting the access token
      is replaced, every other line is kept, and no line is added. */
  function RewriteEnv(lines: seq<string>, token: string): (out: seq<string>)
    ensures |out| == |lines|
    ensures forall i :: 0 <= i < |lines| ==> out[i] == RewriteLine(lines[i], token)
  {
    Map((line: string) => RewriteLine(line, token), lines)
  }

  /** A file without the key comes back as it was: the token is not
      appended. */
  lemma RewriteEnvWithoutKey(lines: seq<string>, token: string)
    requires forall i :: 0 <= i < |lines| ==> !StartsWith(lines[i], TokenLine)
    ensures RewriteEnv(lines, token) == lines
  {
    assert forall i :: 0 <= i < |lines| ==> RewriteEnv(lines, token)[i] == lines[i];
  }

  /** A rewritten line still starts with the key, so a second rewrite with
      the same token changes nothing. */
  lemma RewriteEnvIdempotent(lines: seq<string>, token: string)
    ensures RewriteEnv(RewriteEnv(lines, token), token) == RewriteEnv(lines, token)
  {
    var once := RewriteEnv(lines, token);
    forall i | 0 <= i < |lines|
      ensures RewriteLine(once[i], token) == once[i]
    {
      if StartsWith(lines[i], TokenLine) {
        assert (TokenLine + token + "\n")[..|TokenLine|] == TokenLine;
      }
    }
  }

  /** The .env file: its lines, or `None` when it cannot be read. */
  class EnvFile {
    var lines: Option<seq<string>>

    constructor (lines: Option<seq<string>>)
      ensures this.lines == lines
    {
      this.lines := lines;
    }

    method Write(newLines: seq<string>)
      modifies this
      ensures lines == Some(newLines)
    {
      lines := Some(newLines);
    }
  }

  /** The form posted to the token endpoint to refresh the token, from the
      environment at the time of the call. */
  function RefreshExchange(vars: map<string, string>): Request
  {
    Request("POST", Show(Get(vars, "SF_TOKEN_URL")), map[],
            Args(None, map["grant_type" := Some("refresh_token"), "client_id" := Get(vars, "SF_CLIENT_ID"),
                           "client_secret" := Get(vars, "SF_CLIENT_SECRET"),
                           "refresh_token" := Get(vars, "SF_REFRESH_TOKEN")], None))
  }

  /** The token, the environment and the .env file after a refresh. */
  datatype Refreshed = Refreshed(token: Option<string>, vars: map<string, string>, lines: Option<seq<string>>)

  /** What a refresh leaves behind once the token endpoint has answered:
      every exception (a failed post, an undecodable body, a missing
      access_token, an unreadable .env) is caught and yields `None`. */
  function RefreshOutcome(reply: Reply, vars: map<string, string>, lines: Option<seq<string>>): Refreshed
  {
    if !HasStatus(reply, 200) || reply.value.json.Undecodable? || "access_token" !in reply.value.json.fields
    then Refreshed(None, vars, lines)
    else
      var token := reply.value.json.fields["access_token"];
      var updated := vars[TokenKey := token];
      if lines.None? then Refreshed(None, updated, lines)
      else Refreshed(Some(token), updated, Some(RewriteEnv(lines.value, token)))
  }

  /** A token is returned only after a 200 whose body names it, and then it
      is in the environment and on every token line of the .env file. */
  lemma RefreshSucceeds(reply: Reply, vars: map<string, string>, lines: Option<seq<string>>)
    ensures var r := RefreshOutcome(reply, vars, lines);
      r.token.Some? <==> HasStatus(reply, 200) && reply.value.json.Decoded? &&
                         "access_token" in reply.value.json.fields && lines.Some?
    ensures var r := RefreshOutcome(reply, vars, lines);
      r.token.Some? ==>
        r.token.value == reply.value.json.fields["access_token"] &&
        r.vars == vars[TokenKey := r.token.value] &&
        r.lines == Some(RewriteEnv(lines.value, r.token.value))
  {
  }

  /** Any status other than 200, and any exception before the token is
      read, leaves everything as it was. */
  lemma RefreshFails(reply: Reply, vars: map<string, string>, lines: Option<seq<string>>)
    requires !HasStatus(reply, 200) || reply.value.json.Undecodable? || "access_token" !in reply.value.json.fields
    ensures RefreshOutcome(reply, vars, lines) == Refreshed(None, vars, lines)
  {
  }

  /** An unreadable .env file makes the refresh report failure although the
      new token is already in the environment. */
  lemma RefreshHalfDone(reply: Reply, vars: map<string, string>)
    requires HasStatus(reply, 200) && reply.value.json.Decoded? && "access_token" in reply.value.json.fields
    ensures var r := RefreshOutcome(reply, vars, None);
      r.token == None && r.vars[TokenKey] == reply.value.json.fields["access_token"] && r.lines == None
  {
  }

  /** `refresh_salesforce_token()`. */
  method RefreshSalesforceToken(remote: Remote, env: Environment, envFile: EnvFile) returns (token: Option<string>)
    modifies remote, env, envFile
    ensures var req := RefreshExchange(old(env.vars));
      var r := RefreshOutcome(remote.server(|old(remote.sent)|, req), old(env.vars), old(envFile.lines));
      remote.sent == old(remote.sent) + [req] &&
      token == r.token && env.vars == r.vars && envFile.lines == r.lines
  {
    var response := remote.Send(RefreshExchange(env.vars));
    if !HasStatus(response, 200) || response.value.json.Undecodable? {
      return None;
    }
    var respJson := response.value.json.fields;
    if "access_token" !in respJson {
      return None;
    }
    var newToken := respJson["access_token"];
    env.Update(TokenKey, newToken);
    if envFile.lines.None? {
      return None;
    }
    var lines := envFile.lines.value;
    var written: seq<string> := [];
    for i := 0 to |lines|
      modifies {}
      invariant written == RewriteEnv(lines[..i], newToken)
    {
      var line := lines[i];
      if StartsWith(line, TokenLine) {
        written := written + [TokenLine + newToken + "\n"];
      } else {
        written := written + [line];
      }
      MapSnoc((l: string) => RewriteLine(l, newToken), lines, i);
    }
    assert lines[..|lines|] == lines;
    envFile.Write(written);
    return Some(newToken);
  }

  /** Extending a prefix by one element maps that element at the end. */
  lemma MapSnoc<X, Y>(f: X -> Y, xs: seq<X>, i: nat)
    requires i < |xs|
    ensures Map(f, xs[..i + 1]) == Map(f, xs[..i]) + [f(xs[i])]
  {
    assert xs[..i + 1] == xs[..i] + [xs[i]];
    MapAppend(f, xs[..i], [xs[i]]);
  }
}
