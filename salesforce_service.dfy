/** The push step (salesforce_service.py): in mock mode the records are
    dumped to a timestamped file under cleaned/; otherwise each record is
    posted to the sObject endpoint and every post, failed or not, yields
    one result entry. */
module SalesforceService {
  import opened Py
  import opened PyStr
  import opened Http

  const Missing := "SF_ACCESS_TOKEN and SF_INSTANCE_URL must be set in the environment for non-mock mode."

  /** `MOCK`, from the setting of the MOCK variable. */
  function MockFlag(setting: Option<string>): bool
  {
    Lower(if setting.Some? then setting.value else "true") in {"1", "true", "yes"}
  }

  /** Mock mode is the default, and the setting is read without regard to
      case. */
  lemma MockFlagCases(s: string)
    ensures MockFlag(None)
    ensures MockFlag(Some(s)) == MockFlag(Some(Lower(s)))
  {
    LowerFacts("true");
    LowerFacts(s);
  }

  /** `API_VERSION`: the setting, or 64.0 when it is unset. */
  function ApiVersion(setting: Option<string>): (v: string)
    ensures setting == None ==> v == "64.0"
    ensures setting.Some? ==> v == setting.value
  {
    if setting.Some? then setting.value else "64.0"
  }

  /** The directory the mock mode writes into: whether it exists, and file
      name to the records dumped as JSON. Nothing in this module creates
      it. */
  class Folder {
    var present: bool
    var files: map<string, seq<Record>>

    constructor (present: bool, files: map<string, seq<Record>>)
      ensures this.present == present && this.files == files
    {
      this.present := present;
      this.files := files;
    }

    /** `open(path, "w")` and `json.dump`: the file is created or
        overwritten, unless the directory is missing, in which case `open`
        raises and nothing is written. */
    method Dump(path: string, records: seq<Record>) returns (r: Result<()>)
      modifies this
      ensures present == old(present)
      ensures old(present) ==> r == Ok(()) && files == old(files)[path := records]
      ensures !old(present) ==> r == Raised(NoSuchFile(path)) && files == old(files)
    {
      if !present {
        return Raised(NoSuchFile(path));
      }
      files := files[path := records];
      return Ok(());
    }
  }

  /** `str(e)` of the `FileNotFoundError` that `open` raises for a path whose
      directory does not exist. */
  function NoSuchFile(path: string): string
  {
    "[Errno 2] No such file or directory: '" + path + "'"
  }

  /** The output path for a UTC time stamp `%Y%m%d%H%M%S`. */
  function MockPath(stamp: string): string
  {
    "cleaned/cleaned_" + stamp + ".json"
  }

  /** Different time stamps name different files, and every name is a JSON
      file in cleaned/. */
  lemma MockPathInjective(a: string, b: string)
    ensures StartsWith(MockPath(a), "cleaned/cleaned_") && |MockPath(a)| == |a| + 21
    ensures MockPath(a) == MockPath(b) ==> a == b
  {
    if MockPath(a) == MockPath(b) {
      assert |a| == |b|;
      assert a == MockPath(a)[16..16 + |a|];
      assert b == MockPath(b)[16..16 + |b|];
    }
  }

  /** One `{"record": ..., "status": "mocked", "id": None}` entry. */
  datatype Detail = Detail(record: Option<string>, status: string, id: Option<string>)

  /** The details of a mock push: one per record, in order, naming the
      record by its Name (or `None`), marked mocked and without an id. */
  function MockDetails(records: seq<Record>): (ds: seq<Detail>)
    ensures |ds| == |records|
    ensures forall i :: 0 <= i < |records| ==>
      ds[i].record == Get(records[i], "Name") && ds[i].status == "mocked" && ds[i].id == None
  {
    Map((r: Record) => Detail(Get(r, "Name"), "mocked", None), records)
  }

  /** One entry of the results list. */
  datatype Entry =
    | Answered(statusCode: int, response: Record)  // `{"status_code", "response"}`: the body decoded
    | Unparsed(statusCode: int, text: string)      // `{"status_code", "text"}`: it did not
    | Error(error: string)                         // `{"error"}`: an exception was caught

  /** What `push_to_salesforce` returns. */
  datatype Pushed = Mocked(mockFile: string, details: seq<Detail>) | Results(entries: seq<Entry>)

  function SObjectUrl(instance: string, version: string): string
  {
    instance + "/services/data/v" + version + "/sobjects/Account"
  }

  /** The request sent for one record, with its 30-second timeout. */
  function SObjectPost(token: string, instance: string, version: string, record: Record): Request
  {
    Request("POST", SObjectUrl(instance, version), Headers(Some(token)), Args(Some(record), map[], Some(30)))
  }

  /** What `_post_to_sobject` returns, or raises, once its request has been
      answered. */
  function PostResult(reply: Reply): Result<Entry>
  {
    match reply
    case Raised(message) => Raised(message)
    case Ok(res) =>
      match res.json
      case Decoded(fields) => Ok(Answered(res.status, fields))
      case Undecodable(_) => Ok(Unparsed(res.status, res.text))
  }

  /** Every status code is passed through, 4xx and 5xx included; only an
      exception from the transport raises. */
  lemma PostResultCases(reply: Reply)
    ensures PostResult(reply).Raised? <==> reply.Raised?
    ensures PostResult(reply).Ok? ==>
      (!PostResult(reply).value.Error? && PostResult(reply).value.statusCode == reply.value.status)
    ensures PostResult(reply).Ok? && reply.value.json.Decoded? ==>
      PostResult(reply).value == Answered(reply.value.status, reply.value.json.fields)
    ensures PostResult(reply).Ok? && reply.value.json.Undecodable? ==>
      PostResult(reply).value == Unparsed(reply.value.status, reply.value.text)
  {
  }

  /** The `try`/`except` of the push loop. */
  function Catch(r: Result<Entry>): Entry
  {
    match r
    case Ok(e) => e
    case Raised(message) => Error(message)
  }

  /** The requests a non-mock push sends: none without credentials, else
      one per record, in order. */
  function SObjectPosts(token: Option<string>, instance: Option<string>, version: string,
                        records: seq<Record>): (rs: seq<Request>)
    ensures |rs| == if Truthy(token) && Truthy(instance) then |records| else 0
  {
    if records == [] || !Truthy(token) || !Truthy(instance) then []
    else
      var k := |records| - 1;
      SObjectPosts(token, instance, version, records[..k]) + [SObjectPost(token.value, instance.value, version, records[k])]
  }

  /** The results of a non-mock push, the first request being the `n`-th the
      remote end has seen. */
  function Entries(server: (nat, Request) -> Reply, n: nat, token: Option<string>, instance: Option<string>,
                   version: string, records: seq<Record>): (es: seq<Entry>)
    ensures |es| == |records|
  {
    if records == [] then []
    else
      var k := |records| - 1;
      var r := if Truthy(token) && Truthy(instance)
               then PostResult(server(n + k, SObjectPost(token.value, instance.value, version, records[k])))
               else Raised(Missing);
      Entries(server, n, token, instance, version, records[..k]) + [Catch(r)]
  }

  /** Without credentials every record gets the same error entry. */
  lemma {:induction false} EntriesWithoutCredentials(server: (nat, Request) -> Reply, n: nat, token: Option<string>,
                                                     instance: Option<string>, version: string, records: seq<Record>)
    requires !Truthy(token) || !Truthy(instance)
    ensures forall i :: 0 <= i < |records| ==> Entries(server, n, token, instance, version, records)[i] == Error(Missing)
  {
    if records != [] {
      EntriesWithoutCredentials(server, n, token, instance, version, records[..|records| - 1]);
    }
  }

  /** With credentials, entry `i` is the answer to the `i`-th request; it is
      an error entry exactly when that request raised. */
  lemma {:induction false} EntriesWithCredentials(server: (nat, Request) -> Reply, n: nat, token: Option<string>,
                                                  instance: Option<string>, version: string, records: seq<Record>)
    requires Truthy(token) && Truthy(instance)
    ensures forall i :: 0 <= i < |records| ==>
      var reply := server(n + i, SObjectPost(token.value, instance.value, version, records[i]));
      Entries(server, n, token, instance, version, records)[i] == Catch(PostResult(reply)) &&
      (Entries(server, n, token, instance, version, records)[i].Error? <==> reply.Raised?)
  {
    if records != [] {
      EntriesWithCredentials(server, n, token, instance, version, records[..|records| - 1]);
    }
  }

  /** `_post_to_sobject(record)`; the settings are parameters. */
  method PostToSObject(remote: Remote, token: Option<string>, instance: Option<string>, version: string,
                       record: Record) returns (r: Result<Entry>)
    modifies remote
    ensures !Truthy(token) || !Truthy(instance) ==> r == Raised(Missing) && remote.sent == old(remote.sent)
    ensures Truthy(token) && Truthy(instance) ==>
      var req := SObjectPost(token.value, instance.value, version, record);
      remote.sent == old(remote.sent) + [req] && r == PostResult(remote.server(|old(remote.sent)|, req))
  {
    if !Truthy(token) || !Truthy(instance) {
      return Raised(Missing);
    }
    var resp := remote.Send(SObjectPost(token.value, instance.value, version, record));
    if resp.Raised? {
      return Raised(resp.message);
    }
    match resp.value.json
    case Decoded(fields) => r := Ok(Answered(resp.value.status, fields));
    case Undecodable(_) => r := Ok(Unparsed(resp.value.status, resp.value.text));
  }

  /** `_mock_write(records)`: the records go to a new file under cleaned/;
      without that folder, `open` raises and the exception propagates. */
  method MockWrite(folder: Folder, stamp: string, records: seq<Record>) returns (out: Result<Pushed>)
    modifies folder
    ensures folder.present == old(folder.present)
    ensures old(folder.present) ==>
      out == Ok(Mocked(MockPath(stamp), MockDetails(records))) &&
      folder.files == old(folder.files)[MockPath(stamp) := records]
    ensures !old(folder.present) ==>
      out == Raised(NoSuchFile(MockPath(stamp))) && folder.files == old(folder.files)
  {
    var path := MockPath(stamp);
    var written := folder.Dump(path, records);
    if written.Raised? {
      return Raised(written.message);
    }
    return Ok(Mocked(path, MockDetails(records)));
  }

  /** `push_to_salesforce(records)`; the settings of MOCK, the credentials and
      the API version, read at import time, and the time stamp are
      parameters. */
  method PushToSalesforce(remote: Remote, folder: Folder, mockSetting: Option<string>, token: Option<string>,
                          instance: Option<string>, versionSetting: Option<string>, stamp: string,
                          records: seq<Record>) returns (out: Result<Pushed>)
    modifies remote, folder
    ensures folder.present == old(folder.present)
    ensures MockFlag(mockSetting) && old(folder.present) ==>
      out == Ok(Mocked(MockPath(stamp), MockDetails(records))) &&
      folder.files == old(folder.files)[MockPath(stamp) := records] && remote.sent == old(remote.sent)
    ensures MockFlag(mockSetting) && !old(folder.present) ==>
      out == Raised(NoSuchFile(MockPath(stamp))) &&
      folder.files == old(folder.files) && remote.sent == old(remote.sent)
    ensures !MockFlag(mockSetting) ==>
      var version := ApiVersion(versionSetting);
      out == Ok(Results(Entries(remote.server, |old(remote.sent)|, token, instance, version, records))) &&
      folder.files == old(folder.files) &&
      remote.sent == old(remote.sent) + SObjectPosts(token, instance, version, records)
  {
    if MockFlag(mockSetting) {
      out := MockWrite(folder, stamp, records);
      return;
    }
    var version := ApiVersion(versionSetting);
    var entries := PostEach(remote, token, instance, version, records);
    return Ok(Results(entries));
  }

  /** The non-mock branch of `push_to_salesforce`: each record is posted in
      turn and its result, or the exception it raised, is collected. */
  method PostEach(remote: Remote, token: Option<string>, instance: Option<string>, version: string,
                  records: seq<Record>) returns (entries: seq<Entry>)
    modifies remote
    ensures entries == Entries(remote.server, |old(remote.sent)|, token, instance, version, records)
    ensures remote.sent == old(remote.sent) + SObjectPosts(token, instance, version, records)
  {
    var n := |remote.sent|;
    ghost var server := remote.server;
    ghost var posted: seq<Request> := [];
    var results: seq<Entry> := [];
    for i := 0 to |records|
      modifies remote
      invariant remote.sent == old(remote.sent) + posted && remote.server == server
      invariant posted == SObjectPosts(token, instance, version, records[..i])
      invariant results == Entries(server, n, token, instance, version, records[..i])
    {
      PushStep(server, n, token, instance, version, records, i);
      var res := PostToSObject(remote, token, instance, version, records[i]);
      if Truthy(token) && Truthy(instance) {
        posted := posted + [SObjectPost(token.value, instance.value, version, records[i])];
      }
      results := results + [Catch(res)];
    }
    assert records[..|records|] == records;
    return results;
  }

  /** Extending the prefix of pushed records by one adds at most one request
      and exactly one entry at the end. */
  lemma PushStep(server: (nat, Request) -> Reply, n: nat, token: Option<string>, instance: Option<string>,
                 version: string, records: seq<Record>, i: nat)
    requires i < |records|
    ensures !Truthy(token) || !Truthy(instance) ==>
      SObjectPosts(token, instance, version, records[..i + 1]) == [] &&
      Entries(server, n, token, instance, version, records[..i + 1]) ==
        Entries(server, n, token, instance, version, records[..i]) + [Error(Missing)]
    ensures Truthy(token) && Truthy(instance) ==>
      var req := SObjectPost(token.value, instance.value, version, records[i]);
      SObjectPosts(token, instance, version, records[..i + 1]) == SObjectPosts(token, instance, version, records[..i]) + [req] &&
      Entries(server, n, token, instance, version, records[..i + 1]) ==
        Entries(server, n, token, instance, version, records[..i]) + [Catch(PostResult(server(n + i, req)))]
  {
    assert records[..i + 1][..i] == records[..i];
  }
}
