/**
 * What the client promises, stated over the specifications `Availability`
 * and `Assignment` that the methods of `MiraClient` are proved to meet.
 */
module MiraClientProperties {
  import opened Wrappers
  import opened Strings
  import opened MiraClient

  predicate ValidQuery(lib: Library, range: string, mask: string)
  {
    CheckIPAddress(lib, range) && CheckIPAddress(lib, mask)
  }

  // ---------------------------------------------------------------
  // The availability query
  // ---------------------------------------------------------------

  /** An invalid range, checked before the mask, or an invalid mask fails locally with no request. */
  lemma InvalidQueryMakesNoRequest(c: Client, q: RangeQuery, lib: Library, reply: HttpOutcome)
    requires !ValidQuery(lib, q.requestRange, q.requestMask)
    ensures Availability(c, q, lib, reply).sent == []
    ensures !CheckIPAddress(lib, q.requestRange)
            ==> Availability(c, q, lib, reply).result == Err(InvalidRange(q.requestRange))
    ensures CheckIPAddress(lib, q.requestRange)
            ==> Availability(c, q, lib, reply).result == Err(InvalidMask(q.requestMask))
  {
  }

  /** A failed exchange is passed up unchanged after the one GET; e.g. status 201 is an error too. */
  lemma TransportErrorPropagates(c: Client, q: RangeQuery, lib: Library, reply: HttpOutcome)
    requires ValidQuery(lib, q.requestRange, q.requestMask)
    requires DoRequest(reply).Err?
    ensures Availability(c, q, lib, reply) == Call(Err(DoRequest(reply).error), [Get(BaseURL, c.username, c.password)])
  {
  }

  /** A 200 body that does not decode fails with the decode error, after the one GET. */
  lemma DecodeFailureReported(c: Client, q: RangeQuery, lib: Library, reply: HttpOutcome)
    requires ValidQuery(lib, q.requestRange, q.requestMask)
    requires DoRequest(reply).Ok? && lib.unmarshal(DoRequest(reply).value).None?
    ensures Availability(c, q, lib, reply) == Call(Err(DecodeFailed), [Get(BaseURL, c.username, c.password)])
  {
  }

  /** A message other than "OK" is a failure even though the transport succeeded. */
  lemma NotOKMessageFails(c: Client, q: RangeQuery, lib: Library, reply: HttpOutcome, resp: AvailableSubnetsResponse)
    requires ValidQuery(lib, q.requestRange, q.requestMask)
    requires Decoded(lib, reply) == Some(resp) && resp.message != StatusOK
    ensures DoRequest(reply).Ok?
    ensures Availability(c, q, lib, reply).result == Err(StatusNotOK(resp.message))
  {
  }

  /** A payload element that is not an IP fails the call, reporting the first such element and its index. */
  lemma FirstInvalidElementReported(c: Client, q: RangeQuery, lib: Library, reply: HttpOutcome,
                                    resp: AvailableSubnetsResponse, bad: nat)
    requires ValidQuery(lib, q.requestRange, q.requestMask)
    requires Decoded(lib, reply) == Some(resp) && resp.message == StatusOK
    requires bad < |resp.payload| && !CheckIPAddress(lib, resp.payload[bad])
    ensures var r := Availability(c, q, lib, reply).result;
            && r.Err? && r.error.InvalidPayloadElement?
            && r.error.index <= bad
            && r.error.element == resp.payload[r.error.index]
            && !CheckIPAddress(lib, r.error.element)
            && forall k :: 0 <= k < r.error.index ==> CheckIPAddress(lib, resp.payload[k])
  {
  }

  /** The query succeeds exactly when the decoded response is "OK" with only IPs, and returns it unchanged. */
  lemma AvailabilitySucceedsIff(c: Client, q: RangeQuery, lib: Library, reply: HttpOutcome, resp: AvailableSubnetsResponse)
    requires Decoded(lib, reply) == Some(resp)
    ensures Availability(c, q, lib, reply).result.Ok?
            <==> && ValidQuery(lib, q.requestRange, q.requestMask)
                 && resp.message == StatusOK
                 && forall k :: 0 <= k < |resp.payload| ==> CheckIPAddress(lib, resp.payload[k])
    ensures Availability(c, q, lib, reply).result.Ok? ==> Availability(c, q, lib, reply).result.value == resp
  {
  }

  // ---------------------------------------------------------------
  // The assignment
  // ---------------------------------------------------------------

  /** Range and mask are validated before any query, range first. */
  lemma InvalidAssignmentMakesNoRequest(c: Client, input: AssignmentInput, lib: Library, service: Service)
    requires !ValidQuery(lib, input.requestRange, input.requestMask)
    ensures Assignment(c, input, lib, service).sent == []
    ensures !CheckIPAddress(lib, input.requestRange)
            ==> Assignment(c, input, lib, service).result == Err(InvalidRange(input.requestRange))
    ensures CheckIPAddress(lib, input.requestRange)
            ==> Assignment(c, input, lib, service).result == Err(InvalidMask(input.requestMask))
  {
  }

  /** Any failure of the availability query is the assignment's failure, and nothing is posted. */
  lemma AvailabilityErrorPropagates(c: Client, input: AssignmentInput, lib: Library, service: Service)
    requires ValidQuery(lib, input.requestRange, input.requestMask)
    requires Availability(c, RangeQuery(input.requestRange, input.requestMask), lib, service.getReply).result.Err?
    ensures var avail := Availability(c, RangeQuery(input.requestRange, input.requestMask), lib, service.getReply);
            Assignment(c, input, lib, service) == Call(Err(avail.result.error), avail.sent)
  {
  }

  /**
   * Exhaustion is its own error: `EmptyPayload` comes back exactly when the
   * query succeeded with no candidates, and then only the GET was sent.
   */
  lemma EmptyPayloadIsExhaustion(c: Client, input: AssignmentInput, lib: Library, service: Service)
    ensures var avail := Availability(c, RangeQuery(input.requestRange, input.requestMask), lib, service.getReply);
            Assignment(c, input, lib, service).result == Err(EmptyPayload)
            <==> && ValidQuery(lib, input.requestRange, input.requestMask)
                 && avail.result.Ok? && avail.result.value.payload == []
    ensures Assignment(c, input, lib, service).result == Err(EmptyPayload)
            ==> Assignment(c, input, lib, service).sent == [Get(BaseURL, c.username, c.password)]
  {
  }

  /** The defensive re-check of the chosen subnet (source line 341) never fires. */
  lemma ChosenSubnetRecheckNeverFails(c: Client, input: AssignmentInput, lib: Library, service: Service)
    ensures !Assignment(c, input, lib, service).result.Err?
            || !Assignment(c, input, lib, service).result.error.InvalidChosenSubnet?
  {
  }

  /**
   * The assignment succeeds exactly when the query does, the list is not
   * empty and the first candidate and the mask split into octets; it then
   * returns the first candidate, whatever the service answers to the POST.
   */
  lemma AssignmentSucceedsIff(c: Client, input: AssignmentInput, lib: Library, service: Service)
    ensures var avail := Availability(c, RangeQuery(input.requestRange, input.requestMask), lib, service.getReply);
            Assignment(c, input, lib, service).result.Ok?
            <==> && ValidQuery(lib, input.requestRange, input.requestMask)
                 && avail.result.Ok? && |avail.result.value.payload| > 0
                 && PostDataFor(input, avail.result.value.payload[0]).Ok?
    ensures var avail := Availability(c, RangeQuery(input.requestRange, input.requestMask), lib, service.getReply);
            Assignment(c, input, lib, service).result.Ok?
            ==> Assignment(c, input, lib, service).result.value == avail.result.value.payload[0]
  {
  }

  /**
   * Selection is deterministic: the result depends only on the range, the
   * mask and the answer to the GET, not on the other input fields and not on
   * the answer to the POST.
   */
  lemma ResultDependsOnlyOnQuery(c: Client, i1: AssignmentInput, i2: AssignmentInput, lib: Library, s1: Service, s2: Service)
    requires i1.requestRange == i2.requestRange && i1.requestMask == i2.requestMask
    requires s1.getReply == s2.getReply
    ensures Assignment(c, i1, lib, s1).result == Assignment(c, i2, lib, s2).result
  {
  }

  /**
   * The octets posted are the candidate's and the mask's: when each splits
   * into exactly four parts, joining the posted octets with "." gives them back.
   */
  lemma PostedOctetsRebuildAddresses(c: Client, input: AssignmentInput, lib: Library, service: Service)
    requires Assignment(c, input, lib, service).result.Ok?
    requires |Split(Assignment(c, input, lib, service).result.value, '.')| == 4
    requires |Split(input.requestMask, '.')| == 4
    ensures var call := Assignment(c, input, lib, service);
            && |call.sent| == 2 && call.sent[1].Post?
            && Join(IpOctets(call.sent[1].data), '.') == call.result.value
            && Join(NetmaskOctets(call.sent[1].data), '.') == input.requestMask
            && HasServiceConstants(call.sent[1].data)
            && call.sent[1].data.template == input.template
  {
    var call := Assignment(c, input, lib, service);
    var d := PostDataFor(input, call.result.value).value;
    var ip := Split(call.result.value, '.');
    var nm := Split(input.requestMask, '.');
    assert ip[..4] == ip && nm[..4] == nm;
    JoinSplit(call.result.value, '.');
    JoinSplit(input.requestMask, '.');
  }

  /** A string made of four separator-free parts joined by "." splits back into them. */
  lemma DottedSplit(a: string, b: string, c: string, d: string)
    requires Free(a, '.') && Free(b, '.') && Free(c, '.') && Free(d, '.')
    ensures Split(a + ['.'] + (b + ['.'] + (c + ['.'] + d)), '.') == [a, b, c, d]
  {
    SplitFree(d, '.');
    SplitAfterFreePrefix(c, d, '.');
    SplitAfterFreePrefix(b, c + ['.'] + d, '.');
    SplitAfterFreePrefix(a, b + ['.'] + (c + ['.'] + d), '.');
  }

  /** The two dotted strings of the example below, split on ".". */
  lemma ExampleSplits()
    ensures Split("10.0.0.5", '.') == ["10", "0", "0", "5"]
    ensures Split("255.255.255.224", '.') == ["255", "255", "255", "224"]
  {
    assert "10.0.0.5" == "10" + ['.'] + ("0" + ['.'] + ("0" + ['.'] + "5"));
    DottedSplit("10", "0", "0", "5");
    assert "255.255.255.224" == "255" + ['.'] + ("255" + ['.'] + ("255" + ['.'] + "224"));
    DottedSplit("255", "255", "255", "224");
  }

  /**
   * One free subnet "10.0.0.5" under mask "255.255.255.224" is posted as the
   * octets 10, 0, 0, 5 and 255, 255, 255, 224 and returned.
   */
  lemma SingleCandidateExample(c: Client, input: AssignmentInput, lib: Library, service: Service, body: Body)
    requires input.requestMask == "255.255.255.224"
    requires CheckIPAddress(lib, input.requestRange) && CheckIPAddress(lib, "255.255.255.224")
    requires CheckIPAddress(lib, "10.0.0.5")
    requires service.getReply == Exchanged(200, Some(body))
    requires lib.unmarshal(body) == Some(AvailableSubnetsResponse("OK", ["10.0.0.5"]))
    ensures var call := Assignment(c, input, lib, service);
            && call.result == Ok("10.0.0.5")
            && |call.sent| == 2 && call.sent[1].Post?
            && IpOctets(call.sent[1].data) == ["10", "0", "0", "5"]
            && NetmaskOctets(call.sent[1].data) == ["255", "255", "255", "224"]
  {
    ExampleSplits();
    var resp := AvailableSubnetsResponse("OK", ["10.0.0.5"]);
    assert FirstInvalid(lib, resp.payload) == None;
    var avail := Availability(c, RangeQuery(input.requestRange, input.requestMask), lib, service.getReply);
    assert avail.result == Ok(resp);
    var post := PostDataFor(input, "10.0.0.5");
    assert post.Ok?;
  }

  // ---------------------------------------------------------------
  // Octet indexing: the source as written, and the model
  // ---------------------------------------------------------------

  /**
   * As written, the octets of "::1" (which `net.ParseIP` accepts) are read
   * past the end of a one-element split: index 1 with length 1.
   */
  lemma Ipv6CandidateIndexesOutOfRange()
    ensures FourOctetsAsWritten("::1") == IndexOutOfRange(1, 1)
  {
  }

  /**
   * A first candidate, or a mask, with fewer than four "."-parts is reported
   * as a malformed address, the candidate before the mask, after the GET alone.
   */
  lemma MalformedAddressReported(c: Client, input: AssignmentInput, lib: Library, service: Service)
    requires ValidQuery(lib, input.requestRange, input.requestMask)
    requires var avail := Availability(c, RangeQuery(input.requestRange, input.requestMask), lib, service.getReply);
             avail.result.Ok? && |avail.result.value.payload| > 0
             && PostDataFor(input, avail.result.value.payload[0]).Err?
    ensures var chosen := Availability(c, RangeQuery(input.requestRange, input.requestMask), lib, service.getReply).result.value.payload[0];
            Assignment(c, input, lib, service)
            == Call(Err(MalformedAddress(if |Split(chosen, '.')| < 4 then chosen else input.requestMask)),
                    [Get(BaseURL, c.username, c.password)])
  {
  }

  /**
   * A service that offers "::1" drives the source into that indexing: the
   * query succeeds and "::1" is the chosen candidate. The model instead
   * reports it as a malformed address and posts nothing.
   */
  lemma Ipv6CandidateRejected(c: Client, input: AssignmentInput, lib: Library, service: Service, body: Body)
    requires ValidQuery(lib, input.requestRange, input.requestMask)
    requires CheckIPAddress(lib, "::1")
    requires service.getReply == Exchanged(200, Some(body))
    requires lib.unmarshal(body) == Some(AvailableSubnetsResponse("OK", ["::1"]))
    ensures Availability(c, RangeQuery(input.requestRange, input.requestMask), lib, service.getReply).result
            == Ok(AvailableSubnetsResponse("OK", ["::1"]))
    ensures FourOctetsAsWritten("::1").IndexOutOfRange?
    ensures Assignment(c, input, lib, service)
            == Call(Err(MalformedAddress("::1")), [Get(BaseURL, c.username, c.password)])
  {
  }
}
