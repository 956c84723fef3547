/** The bulk uploader (salesforce_api.py): one POST per record to the
    Account endpoint, sorting each record into the successes or the
    failures. */
module SalesforceApi {
  import opened Py
  import opened Http

  const NotSet := "Salesforce environment variables not set."

  /** A `{"record": rec, "error": text}` entry of the failures. */
  datatype Failure = Failure(record: Record, error: string)

  /** What one iteration of the loop contributes. */
  datatype Outcome = Succeeded(body: Record) | Failed(failure: Failure)

  /** The `{"success": ..., "failed": ...}` dict returned. */
  datatype Upload = Upload(success: seq<Record>, failed: seq<Failure>)

  function AccountUrl(instance: string): string
  {
    instance + "/services/data/v61.0/sobjects/Account/"
  }

  /** The request sent for one record. */
  function Post(instance: string, token: string, rec: Record): Request
  {
    Request("POST", AccountUrl(instance), Headers(Some(token)), Args(Some(rec), map[], None))
  }

  /** How the loop body files one record, given the reply to its POST. */
  function Classify(rec: Record, reply: Reply): Outcome
  {
    match reply
    case Raised(message) => Failed(Failure(rec, message))
    case Ok(res) =>
      if res.status == 201 then
        match res.json
        case Decoded(fields) => Succeeded(fields)
        case Undecodable(error) => Failed(Failure(rec, error))
      else Failed(Failure(rec, res.text))
  }

  /** How each kind of reply is filed. */
  lemma ClassifyCases(rec: Record, reply: Reply, o: Outcome)
    requires o == Classify(rec, reply)
    // only a 201 whose body decodes is a success, and it keeps that body
    ensures o.Succeeded? <==> HasStatus(reply, 201) && reply.value.json.Decoded?
    ensures o.Succeeded? ==> o.body == reply.value.json.fields
    // every failure carries the record it is about
    ensures o.Failed? ==> o.failure.record == rec
    // a status other than 201 (200 included) fails with the response text
    ensures reply.Ok? && reply.value.status != 201 ==> o == Failed(Failure(rec, reply.value.text))
    // an exception, from the transport or from decoding, fails with its message
    ensures reply.Raised? ==> o == Failed(Failure(rec, reply.message))
    ensures HasStatus(reply, 201) && reply.value.json.Undecodable? ==>
      o == Failed(Failure(rec, reply.value.json.error))
  {
  }

  /** One `append` of the loop body: to the successes or to the failures. */
  function Add(u: Upload, o: Outcome): Upload
  {
    match o
    case Succeeded(body) => Upload(u.success + [body], u.failed)
    case Failed(f) => Upload(u.success, u.failed + [f])
  }

  /** The two lists built by appending the outcomes in order. */
  function Tally(outcomes: seq<Outcome>): (u: Upload)
    ensures |u.success| + |u.failed| == |outcomes|
    ensures |u.success| <= |outcomes| && |u.failed| <= |outcomes|
  {
    if outcomes == [] then Upload([], [])
    else Add(Tally(outcomes[..|outcomes| - 1]), outcomes[|outcomes| - 1])
  }

  /** The number of successful outcomes. */
  function Successes(outcomes: seq<Outcome>): nat
  {
    if outcomes == [] then 0
    else Successes(outcomes[..|outcomes| - 1]) + (if outcomes[|outcomes| - 1].Succeeded? then 1 else 0)
  }

  /** The success list holds exactly one body per successful outcome, and
      the failures all the rest. */
  lemma {:induction false} TallyCounts(outcomes: seq<Outcome>)
    ensures |Tally(outcomes).success| == Successes(outcomes)
    ensures |Tally(outcomes).failed| == |outcomes| - Successes(outcomes)
  {
    if outcomes != [] {
      TallyCounts(outcomes[..|outcomes| - 1]);
    }
  }

  /** Tallying a batch in two parts and concatenating the lists gives the
      tally of the whole batch: both lists keep the order of the records. */
  lemma {:induction false} TallyAppend(a: seq<Outcome>, b: seq<Outcome>)
    ensures Tally(a + b) == Upload(Tally(a).success + Tally(b).success, Tally(a).failed + Tally(b).failed)
  {
    if b == [] {
      assert a + b == a;
    } else {
      var c := a + b;
      assert c[..|c| - 1] == a + b[..|b| - 1];
      assert c[|c| - 1] == b[|b| - 1];
      TallyAppend(a, b[..|b| - 1]);
    }
  }

  /** A record that is posted and answered 201 with a body is uploaded. */
  lemma {:induction false} TallyAllSucceeded(outcomes: seq<Outcome>)
    requires forall i :: 0 <= i < |outcomes| ==> outcomes[i].Succeeded?
    ensures Tally(outcomes).failed == []
    ensures |Tally(outcomes).success| == |outcomes|
    ensures forall i :: 0 <= i < |outcomes| ==> Tally(outcomes).success[i] == outcomes[i].body
  {
    if outcomes != [] {
      TallyAllSucceeded(outcomes[..|outcomes| - 1]);
    }
  }

  /** The outcomes of posting `records` in turn, the first request being the
      `n`-th the remote end has seen. */
  function Outcomes(server: (nat, Request) -> Reply, n: nat, instance: string, token: string,
                    records: seq<Record>): (os: seq<Outcome>)
    ensures |os| == |records|
  {
    if records == [] then []
    else
      var k := |records| - 1;
      Outcomes(server, n, instance, token, records[..k]) + [Classify(records[k], server(n + k, Post(instance, token, records[k])))]
  }

  /** The requests sent for `records`, one per record, in order. */
  function Posts(instance: string, token: string, records: seq<Record>): (rs: seq<Request>)
    ensures |rs| == |records|
  {
    if records == [] then []
    else Posts(instance, token, records[..|records| - 1]) + [Post(instance, token, records[|records| - 1])]
  }

  /** `upload_to_salesforce(records)`; `instance` and `token` are the
      module-level settings read from the environment. */
  method UploadToSalesforce(remote: Remote, instance: Option<string>, token: Option<string>, records: seq<Record>)
    returns (r: Result<Upload>)
    modifies remote
    ensures !Truthy(instance) || !Truthy(token) ==> r == Raised(NotSet) && remote.sent == old(remote.sent)
    ensures Truthy(instance) && Truthy(token) ==>
      remote.sent == old(remote.sent) + Posts(instance.value, token.value, records) &&
      r == Ok(Tally(Outcomes(remote.server, |old(remote.sent)|, instance.value, token.value, records)))
  {
    if !Truthy(instance) || !Truthy(token) {
      return Raised(NotSet);
    }
    var n := |remote.sent|;
    var upload := Upload([], []);
    ghost var server := remote.server;
    ghost var posted: seq<Request> := [];
    ghost var outcomes: seq<Outcome> := [];
    for i := 0 to |records|
      invariant remote.sent == old(remote.sent) + posted && remote.server == server
      invariant posted == Posts(instance.value, token.value, records[..i])
      invariant outcomes == Outcomes(server, n, instance.value, token.value, records[..i])
      invariant upload == Tally(outcomes)
    {
      var req := Post(instance.value, token.value, records[i]);
      var res := remote.Send(req);
      assert res == server(n + i, req);
      var o := Classify(records[i], res);
      PrefixStep(server, n, instance.value, token.value, records, i);
      TallySnoc(outcomes, o);
      posted := posted + [req];
      outcomes := outcomes + [o];
      upload := Add(upload, o);
    }
    assert records[..|records|] == records;
    return Ok(upload);
  }

  /** One more outcome lands at the end of the list it belongs to. */
  lemma TallySnoc(outcomes: seq<Outcome>, o: Outcome)
    ensures Tally(outcomes + [o]) == Add(Tally(outcomes), o)
  {
    assert (outcomes + [o])[..|outcomes|] == outcomes;
  }

  /** Extending the prefix of posted records by one adds one request and one
      outcome at the end. */
  lemma PrefixStep(server: (nat, Request) -> Reply, n: nat, instance: string, token: string,
                   records: seq<Record>, i: nat)
    requires i < |records|
    ensures Posts(instance, token, records[..i + 1]) == Posts(instance, token, records[..i]) + [Post(instance, token, records[i])]
    ensures Outcomes(server, n, instance, token, records[..i + 1]) ==
      Outcomes(server, n, instance, token, records[..i]) + [Classify(records[i], server(n + i, Post(instance, token, records[i])))]
  {
    assert records[..i + 1][..i] == records[..i];
  }
}
