/** The borrow-request API route: `GET` lists every request and `POST`
    checks the status against the three request statuses and creates the
    record from the body's fields. */
module RequestsRoute {
  import opened Common
  import opened Records

  const InvalidStatusError := "Invalid request status"
  const CreateError := "Failed to create request"
  const FetchError := "Failed to fetch requests"

  /** The `RequestStatus` union. */
  datatype RequestStatus = Pending | Approved | Rejected
  {
    function Name(): string {
      match this
      case Pending => "pending"
      case Approved => "approved"
      case Rejected => "rejected"
    }
  }

  /** Membership in `['pending', 'approved', 'rejected']`, read as a status. */
  function ParseStatus(s: string): (r: Option<RequestStatus>)
    ensures r.Some? <==> s == "pending" || s == "approved" || s == "rejected"
    ensures r.Some? ==> r.value.Name() == s
  {
    if s == "pending" then Some(Pending)
    else if s == "approved" then Some(Approved)
    else if s == "rejected" then Some(Rejected)
    else None
  }

  /** Every status is accepted under its own name. */
  lemma ParseStatusName(st: RequestStatus)
    ensures ParseStatus(st.Name()) == Some(st)
  {
  }

  /** The JSON body; `status` may be missing. */
  datatype RequestBody = RequestBody(id: string, studentId: string, projectId: string,
                                     status: Option<string>)

  /** The response together with the request table afterwards. */
  datatype Outcome = Outcome(response: Response<Request>, requests: seq<Request>)

  predicate ValidStatus(status: Option<string>) {
    status.Some? && ParseStatus(status.value).Some?
  }

  /** `POST`. `body` is None when the body cannot be parsed as JSON;
      `createOk` says whether the store accepts the new row. */
  function Post(requests: seq<Request>, body: Option<RequestBody>, createOk: bool): (o: Outcome)
    ensures body.None? ==> o == Outcome(Fail(500, "Failed to create request"), requests)
    ensures body.Some? && !ValidStatus(body.value.status) ==>
      o == Outcome(Fail(400, "Invalid request status"), requests)
    ensures o.response.Ok? <==> body.Some? && ValidStatus(body.value.status) && createOk
    ensures o.response.Ok? ==>
      o.response.body.id == body.value.id && o.response.body.studentId == body.value.studentId
      && o.response.body.projectId == body.value.projectId
      && o.response.body.status == body.value.status.value
      && o.requests == requests + [o.response.body]
    ensures o.response.Fail? ==> o.requests == requests
  {
    if body.None? then Outcome(Fail(500, CreateError), requests)
    else if !ValidStatus(body.value.status) then Outcome(Fail(400, InvalidStatusError), requests)
    else if !createOk then Outcome(Fail(500, CreateError), requests)
    else
      var b := body.value;
      var record := Request(b.id, b.studentId, b.projectId, b.status.value);
      Outcome(Ok(record), requests + [record])
  }

  /** Every stored request carries one of the three statuses, as long as
      rows are only added through `POST`. */
  ghost predicate AllStatusesValid(requests: seq<Request>) {
    forall i :: 0 <= i < |requests| ==> ParseStatus(requests[i].status).Some?
  }

  lemma PostKeepsStatusesValid(requests: seq<Request>, body: Option<RequestBody>, createOk: bool)
    requires AllStatusesValid(requests)
    ensures AllStatusesValid(Post(requests, body, createOk).requests)
  {
  }

  /** `GET`. `requests` is None when the query throws. */
  function Get(requests: Option<seq<Request>>): (r: Response<seq<Request>>)
    ensures requests.None? ==> r == Fail(500, "Failed to fetch requests")
    ensures requests.Some? ==>
      r.Ok? && |r.body| == |requests.value|
      && forall i :: 0 <= i < |requests.value| ==> r.body[i] == requests.value[i]
  {
    if requests.None? then Fail(500, FetchError) else Ok(requests.value)
  }

  /** A created request is listed by the next `GET`, last. */
  lemma CreatedIsListed(requests: seq<Request>, body: RequestBody)
    requires ValidStatus(body.status)
    ensures var o := Post(requests, Some(body), true);
      Get(Some(o.requests)).Ok? && Get(Some(o.requests)).body[|requests|] == o.response.body
  {
  }

  /** The route has no duplicate check: two requests that differ only in
      their ids, by the same student for the same project, are both stored,
      leaving two pending requests for one student and one project. */
  lemma NoDuplicateCheck(requests: seq<Request>, firstId: string, secondId: string,
                         studentId: string, projectId: string)
    requires firstId != secondId
    ensures var first := Post(requests,
        Some(RequestBody(firstId, studentId, projectId, Some("pending"))), true);
      var second := Post(first.requests,
        Some(RequestBody(secondId, studentId, projectId, Some("pending"))), true);
      first.response.Ok? && second.response.Ok?
      && second.requests == requests + [Request(firstId, studentId, projectId, "pending"),
                                        Request(secondId, studentId, projectId, "pending")]
  {
    assert ValidStatus(Some("pending")) by {
      assert ParseStatus("pending") == Some(Pending);
    }
  }
}
