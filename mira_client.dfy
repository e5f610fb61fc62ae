/**
 * The MIRA IPAM client (miraclient/mira_api_client.go): local validation,
 * classification of one HTTP exchange, the "available subnets" query and
 * the subnet assignment that picks the first free subnet and posts it.
 *
 * What the client cannot see is a parameter: `Library` stands for
 * `net.ParseIP` and `json.Unmarshal`, and the service's answer to each
 * request is an `HttpOutcome` value. The requests a call issues are
 * returned as a trace, so "no request was made" is a statement about it.
 */
module MiraClient {
  import opened Wrappers
  import opened Strings

  newtype byte = b: int | 0 <= b < 256

  /** A raw HTTP response body. */
  type Body = seq<byte>

  /** The package-level `baseURL`; every request goes to it. */
  const BaseURL: string := "http://10.156.0.3/"
  /** The 10-second timeout `NewClient` gives the HTTP client. */
  const TimeoutSeconds: nat := 10
  /** The one message value the service uses for success. */
  const StatusOK: string := "OK"
  /** The only HTTP status `doRequest` accepts (`http.StatusOK`). */
  const HttpOK: int := 200
  /** Fixed values the assignment record always carries. */
  const IpAddressSchema: int := 2
  const SubnetClassGCP: int := 38

  /** The `Client` struct; never changed after `NewClient`. */
  datatype Client = Client(username: string, password: string, userAgent: string,
                           url: string, timeoutSeconds: nat)

  datatype ConfigError = MissingCredentials | MissingUserAgent

  /** The collaborators the client calls but whose code is not modelled. */
  datatype Library = Library(
    /** `net.ParseIP(s) != nil` */
    parsesAsIP: string -> bool,
    /** `json.Unmarshal` into `AvailableSubnetsResponseFromMira`; None when it fails */
    unmarshal: Body -> Option<AvailableSubnetsResponse>)

  /** What `HTTPClient.Do` followed by `ioutil.ReadAll` produced. */
  datatype HttpOutcome =
    | ConnectionFailed                             // Do returned an error
    | Exchanged(status: int, body: Option<Body>)   // None: reading the body failed

  /** The service's answers to the GET and (when one is sent) the POST of an assignment. */
  datatype Service = Service(getReply: HttpOutcome, postReply: HttpOutcome)

  /** `RangeForAvailableMiraSubnetsQueryInput` */
  datatype RangeQuery = RangeQuery(requestRange: string, requestMask: string)

  /** `AvailableSubnetsResponseFromMira`: JSON keys `message` and `payload`. */
  datatype AvailableSubnetsResponse = AvailableSubnetsResponse(message: string, payload: seq<string>)

  /** `MiraSubnetAssignmentPostInput` */
  datatype AssignmentInput = AssignmentInput(
    requestRange: string, requestMask: string, addressID: string,
    comment: string, subnetName: string, template: string)

  /** `MiraSubnetAssignmentPostData`; field names are the JSON keys. */
  datatype AssignmentPostData = AssignmentPostData(
    addressID: string, alsoQip: bool, building: string, comments: string,
    dhcp: bool, dhcpServer: string, dhcpTemplate: string, floor: string,
    ip1: string, ip2: string, ip3: string, ip4: string,
    ipAddressSchema: int,
    netmask1: string, netmask2: string, netmask3: string, netmask4: string,
    range: string, recordId: string, room: string, subnetClass: int,
    subnetName: string, subnetNameChanged: bool, template: string, vlan: string)

  /** One outbound request, with the basic-auth pair it carries. */
  datatype Request =
    | Get(url: string, username: string, password: string)
    | Post(url: string, username: string, password: string, data: AssignmentPostData)

  datatype Error =
    | InvalidRange(range: string)                        // range fails checkIPAddress
    | InvalidMask(mask: string)                          // mask fails checkIPAddress
    | TransportFailed                                    // HTTPClient.Do error
    | BodyReadFailed                                     // ioutil.ReadAll error
    | BadStatus(code: int, body: Body)                   // any status but 200
    | DecodeFailed                                       // json.Unmarshal error
    | StatusNotOK(message: string)                       // message is not "OK"
    | InvalidPayloadElement(index: nat, element: string) // first payload entry that is not an IP
    | EmptyPayload                                       // no free subnet in the range
    | InvalidChosenSubnet(subnet: string)                // re-check of the chosen subnet
    | MalformedAddress(address: string)                  // fewer than four "."-separated parts

  /** A call's result together with the requests it issued, in order. */
  datatype Call<T> = Call(result: Result<T, Error>, sent: seq<Request>)

  /** `checkIPAddress`: whether `net.ParseIP` accepts the string. */
  function CheckIPAddress(lib: Library, s: string): (valid: bool)
    ensures valid <==> lib.parsesAsIP(s)
  {
    lib.parsesAsIP(s)
  }

  /**
   * `NewClient`, with the three environment variables as parameters:
   * credentials are checked before the user agent.
   */
  function NewClient(username: string, password: string, userAgent: string): (r: Result<Client, ConfigError>)
    ensures r.Ok? <==> username != "" && password != "" && userAgent != ""
    ensures (username == "" || password == "") ==> r == Err(MissingCredentials)
    ensures username != "" && password != "" && userAgent == "" ==> r == Err(MissingUserAgent)
    ensures r.Ok? ==> r.value.url == BaseURL && r.value.timeoutSeconds == TimeoutSeconds
                      && r.value.username == username && r.value.password == password
                      && r.value.userAgent == userAgent
  {
    if username == "" || password == "" then Err(MissingCredentials)
    else if userAgent == "" then Err(MissingUserAgent)
    else Ok(Client(username, password, userAgent, BaseURL, TimeoutSeconds))
  }

  /**
   * `doRequest` after the exchange: only status 200 yields the body; any other
   * status, 2xx included, is an error carrying code and body. A failed read of
   * the body is reported before the status is looked at.
   */
  function DoRequest(outcome: HttpOutcome): (r: Result<Body, Error>)
    ensures r.Ok? <==> outcome.Exchanged? && outcome.status == HttpOK && outcome.body.Some?
    ensures r.Ok? ==> r.value == outcome.body.value
    ensures outcome.ConnectionFailed? ==> r == Err(TransportFailed)
    ensures outcome.Exchanged? && outcome.body.None? ==> r == Err(BodyReadFailed)
    ensures outcome.Exchanged? && outcome.body.Some? && outcome.status != HttpOK
            ==> r == Err(BadStatus(outcome.status, outcome.body.value))
  {
    match outcome
    case ConnectionFailed => Err(TransportFailed)
    case Exchanged(status, body) =>
      if body.None? then Err(BodyReadFailed)
      else if status != HttpOK then Err(BadStatus(status, body.value))
      else Ok(body.value)
  }

  /** The index of the first element of `payload` that is not an IP address, if any. */
  function FirstInvalid(lib: Library, payload: seq<string>): (r: Option<nat>)
    ensures r.None? <==> forall k :: 0 <= k < |payload| ==> CheckIPAddress(lib, payload[k])
    ensures r.Some? ==> r.value < |payload| && !CheckIPAddress(lib, payload[r.value])
                        && forall k :: 0 <= k < r.value ==> CheckIPAddress(lib, payload[k])
    decreases |payload|
  {
    if payload == [] then None
    else if !CheckIPAddress(lib, payload[0]) then Some(0)
    else match FirstInvalid(lib, payload[1..])
      case None => None
      case Some(k) => Some(k + 1)
  }

  /** What an HTTP 200 body decodes to, for the availability query. */
  function Decoded(lib: Library, outcome: HttpOutcome): (d: Option<AvailableSubnetsResponse>)
    ensures d.Some? ==> DoRequest(outcome).Ok? && d == lib.unmarshal(DoRequest(outcome).value)
  {
    match DoRequest(outcome)
    case Ok(body) => lib.unmarshal(body)
    case Err(_) => None
  }

  /** Checking a decoded availability response (lines 198-220). */
  function CheckedResponse(lib: Library, resp: AvailableSubnetsResponse): (r: Result<AvailableSubnetsResponse, Error>)
    ensures r.Ok? <==> resp.message == StatusOK
                       && forall k :: 0 <= k < |resp.payload| ==> CheckIPAddress(lib, resp.payload[k])
    ensures r.Ok? ==> r.value == resp
  {
    if resp.message != StatusOK then Err(StatusNotOK(resp.message))
    else match FirstInvalid(lib, resp.payload)
      case Some(k) => Err(InvalidPayloadElement(k, resp.payload[k]))
      case None => Ok(resp)
  }

  /**
   * Specification of `GetAvailableSubnetsFromMiraRange`: the range, then the
   * mask, is validated locally; only then is one GET sent, and its answer is
   * classified, decoded and checked. A success is the decoded response itself.
   */
  function Availability(c: Client, q: RangeQuery, lib: Library, reply: HttpOutcome): (r: Call<AvailableSubnetsResponse>)
    ensures r.sent == [] <==> !CheckIPAddress(lib, q.requestRange) || !CheckIPAddress(lib, q.requestMask)
    ensures r.sent != [] ==> r.sent == [Get(BaseURL, c.username, c.password)]
    ensures r.result.Ok? ==> Decoded(lib, reply) == Some(r.result.value)
                             && r.result.value.message == StatusOK
                             && forall k :: 0 <= k < |r.result.value.payload| ==> CheckIPAddress(lib, r.result.value.payload[k])
  {
    if !CheckIPAddress(lib, q.requestRange) then Call(Err(InvalidRange(q.requestRange)), [])
    else if !CheckIPAddress(lib, q.requestMask) then Call(Err(InvalidMask(q.requestMask)), [])
    else
      var sent := [Get(BaseURL, c.username, c.password)];
      match DoRequest(reply)
      case Err(e) => Call(Err(e), sent)
      case Ok(body) =>
        match lib.unmarshal(body)
        case None => Call(Err(DecodeFailed), sent)
        case Some(resp) => Call(CheckedResponse(lib, resp), sent)
  }

  /** `GetAvailableSubnetsFromMiraRange`, step by step as in the source. */
  method GetAvailableSubnetsFromMiraRange(c: Client, q: RangeQuery, lib: Library, reply: HttpOutcome)
    returns (r: Result<AvailableSubnetsResponse, Error>, sent: seq<Request>)
    ensures Call(r, sent) == Availability(c, q, lib, reply)
  {
    if !CheckIPAddress(lib, q.requestRange) {
      return Err(InvalidRange(q.requestRange)), [];
    }
    if !CheckIPAddress(lib, q.requestMask) {
      return Err(InvalidMask(q.requestMask)), [];
    }
    sent := [Get(BaseURL, c.username, c.password)];
    var body := DoRequest(reply);
    if body.Err? {
      return Err(body.error), sent;
    }
    var decoded := lib.unmarshal(body.value);
    if decoded.None? {
      return Err(DecodeFailed), sent;
    }
    var resp := decoded.value;
    if resp.message != StatusOK {
      return Err(StatusNotOK(resp.message)), sent;
    }
    var i := 0;
    while i < |resp.payload|
      invariant 0 <= i <= |resp.payload|
      invariant forall k :: 0 <= k < i ==> CheckIPAddress(lib, resp.payload[k])
    {
      if !CheckIPAddress(lib, resp.payload[i]) {
        return Err(InvalidPayloadElement(i, resp.payload[i])), sent;
      }
      i := i + 1;
    }
    return Ok(resp), sent;
  }

  /**
   * Building the post record from the input and the chosen subnet (lines 350-385),
   * with the one deviation from the source: a candidate or mask that does not
   * split into at least four "."-separated parts is an error instead of an
   * out-of-range index. The candidate is looked at first, as Go evaluates
   * `ipoctets[...]` before `nmoctets[...]`.
   */
  function PostDataFor(input: AssignmentInput, chosen: string): (r: Result<AssignmentPostData, Error>)
    ensures r.Ok? <==> |Split(chosen, '.')| >= 4 && |Split(input.requestMask, '.')| >= 4
    ensures |Split(chosen, '.')| < 4 ==> r == Err(MalformedAddress(chosen))
    ensures |Split(chosen, '.')| >= 4 && |Split(input.requestMask, '.')| < 4
            ==> r == Err(MalformedAddress(input.requestMask))
    ensures r.Ok? ==> IpOctets(r.value) == Split(chosen, '.')[..4]
                      && NetmaskOctets(r.value) == Split(input.requestMask, '.')[..4]
    ensures r.Ok? ==> r.value.range == input.requestRange && r.value.addressID == input.addressID
                      && r.value.comments == input.comment && r.value.subnetName == input.subnetName
                      && r.value.template == input.template
    ensures r.Ok? ==> HasServiceConstants(r.value)
  {
    var ip := Split(chosen, '.');
    var nm := Split(input.requestMask, '.');
    if |ip| < 4 then Err(MalformedAddress(chosen))
    else if |nm| < 4 then Err(MalformedAddress(input.requestMask))
    else
      Ok(AssignmentPostData(
        addressID := input.addressID, alsoQip := false, building := "",
        comments := input.comment, dhcp := false, dhcpServer := "", dhcpTemplate := "",
        floor := "", ip1 := ip[0], ip2 := ip[1], ip3 := ip[2], ip4 := ip[3],
        ipAddressSchema := IpAddressSchema,
        netmask1 := nm[0], netmask2 := nm[1], netmask3 := nm[2], netmask4 := nm[3],
        range := input.requestRange, recordId := "", room := "",
        subnetClass := SubnetClassGCP, subnetName := input.subnetName,
        subnetNameChanged := false, template := input.template, vlan := ""))
  }

  /** Octet indexing as the source writes it: `parts[0]` .. `parts[3]` with no length check. */
  datatype OctetIndexing =
    | FourParts(octets: seq<string>)
    | IndexOutOfRange(index: nat, length: nat)   // Go panics: "index out of range [index] with length length"

  /**
   * `strings.Split(s, ".")` followed by reading elements 0 to 3 in order, as
   * lines 350-376 do; the first index past the end is where Go panics.
   */
  function FourOctetsAsWritten(s: string): (r: OctetIndexing)
    ensures r.IndexOutOfRange? <==> |Split(s, '.')| < 4
    ensures r.IndexOutOfRange? ==> r.index == r.length == |Split(s, '.')|
    ensures r.FourParts? ==> r.octets == Split(s, '.')[..4]
  {
    var parts := Split(s, '.');
    if |parts| < 4 then IndexOutOfRange(|parts|, |parts|)
    else FourParts([parts[0], parts[1], parts[2], parts[3]])
  }

  function IpOctets(d: AssignmentPostData): (octets: seq<string>)
    ensures |octets| == 4
  {
    [d.ip1, d.ip2, d.ip3, d.ip4]
  }

  function NetmaskOctets(d: AssignmentPostData): (octets: seq<string>)
    ensures |octets| == 4
  {
    [d.netmask1, d.netmask2, d.netmask3, d.netmask4]
  }

  /** The fields of the record that never depend on the input. */
  predicate HasServiceConstants(d: AssignmentPostData)
  {
    && d.ipAddressSchema == 2 && d.subnetClass == 38
    && !d.alsoQip && !d.dhcp && !d.subnetNameChanged
    && d.building == "" && d.dhcpServer == "" && d.dhcpTemplate == "" && d.floor == ""
    && d.recordId == "" && d.room == "" && d.vlan == ""
  }

  /**
   * Specification of `CreateMiraSubnetAssignment`: validate range and mask,
   * run the availability query, refuse an empty list, take the first
   * candidate, re-check it, build the record and POST it. The POST's answer
   * is ignored: once the record has been sent, the chosen subnet is returned.
   */
  function Assignment(c: Client, input: AssignmentInput, lib: Library, service: Service): (r: Call<string>)
    ensures r.result.Ok? ==>
              var avail := Availability(c, RangeQuery(input.requestRange, input.requestMask), lib, service.getReply);
              && avail.result.Ok? && |avail.result.value.payload| > 0
              && r.result.value == avail.result.value.payload[0]
              && PostDataFor(input, r.result.value).Ok?
              && r.sent == avail.sent + [Post(BaseURL, c.username, c.password, PostDataFor(input, r.result.value).value)]
    ensures r.result.Err? ==> forall k :: 0 <= k < |r.sent| ==> r.sent[k].Get?
  {
    if !CheckIPAddress(lib, input.requestRange) then Call(Err(InvalidRange(input.requestRange)), [])
    else if !CheckIPAddress(lib, input.requestMask) then Call(Err(InvalidMask(input.requestMask)), [])
    else
      var avail := Availability(c, RangeQuery(input.requestRange, input.requestMask), lib, service.getReply);
      match avail.result
      case Err(e) => Call(Err(e), avail.sent)
      case Ok(resp) =>
        if |resp.payload| == 0 then Call(Err(EmptyPayload), avail.sent)
        else
          var chosen := resp.payload[0];
          if !CheckIPAddress(lib, chosen) then Call(Err(InvalidChosenSubnet(chosen)), avail.sent)
          else match PostDataFor(input, chosen)
            case Err(e) => Call(Err(e), avail.sent)
            case Ok(data) => Call(Ok(chosen), avail.sent + [Post(BaseURL, c.username, c.password, data)])
  }

  /** `CreateMiraSubnetAssignment`, step by step as in the source. */
  method CreateMiraSubnetAssignment(c: Client, input: AssignmentInput, lib: Library, service: Service)
    returns (r: Result<string, Error>, sent: seq<Request>)
    ensures Call(r, sent) == Assignment(c, input, lib, service)
  {
    if !CheckIPAddress(lib, input.requestRange) {
      return Err(InvalidRange(input.requestRange)), [];
    }
    if !CheckIPAddress(lib, input.requestMask) {
      return Err(InvalidMask(input.requestMask)), [];
    }
    var query := RangeQuery(input.requestRange, input.requestMask);
    var avail;
    avail, sent := GetAvailableSubnetsFromMiraRange(c, query, lib, service.getReply);
    if avail.Err? {
      return Err(avail.error), sent;
    }
    var freeSubnets := avail.value.payload;
    if |freeSubnets| == 0 {
      return Err(EmptyPayload), sent;
    }
    var chosen := freeSubnets[0];
    // The source re-checks the candidate here (line 341); the query already
    // validated every element, so that check cannot fail.
    assert CheckIPAddress(lib, chosen);
    var data := PostDataFor(input, chosen);
    if data.Err? {
      return Err(data.error), sent;
    }
    sent := sent + [Post(BaseURL, c.username, c.password, data.value)];
    // The outcome of the POST is discarded (lines 411-417).
    var _ := DoRequest(service.postReply);
    return Ok(chosen), sent;
  }
}
