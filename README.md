# MIRA subnet allocation: a Dafny model

This project models the decision logic of a Terraform provider that hands IPv4
subnet allocation to the MIRA IPAM service. It covers two parts:

- **The client** (`miraclient/mira_api_client.go`), in `mira_client.dfy`:
  - it validates a range and a mask;
  - it sends one GET and classifies the HTTP outcome (`doRequest`);
  - it checks the decoded "available subnets" response (`message` must be
    `"OK"`, every `payload` entry must be an IP);
  - it takes the first candidate, splits it and the mask into octets,
    builds the fixed-shape assignment record and POSTs it;
  - it returns the chosen subnet whatever the POST's answer.
- **The lifecycle hooks** of the `mira_allocated_subnet` resource
  (`internal/provider/resource_mira_allocated_subnet.go`), in
  `allocated_subnet.dfy`. Terraform's `schema.ResourceData` is a class with
  an attribute map and an ID. Create and Read change it only through `Set`
  and `SetId`. Update and Delete return fixed errors and cannot change it.

Code the model cannot see is represented by inputs:

- `net.ParseIP` and `json.Unmarshal` are the two fields of `Library`.
- The service's answer to each request is an `HttpOutcome`: a connection
  error, or a status and a body whose read may have failed.
- Every call returns the list of requests it sent, with their basic-auth
  pair and, for the POST, the record. Statements such as "no request is
  made" or "no POST is sent" are statements about that list.

The client's pipelines have two forms:

- the specification functions `Availability` and `Assignment`;
- the methods `GetAvailableSubnetsFromMiraRange` and
  `CreateMiraSubnetAssignment`, written step by step like the Go code (the
  payload check is the same `for` loop with an early return) and proved equal
  to the specifications.

The lemmas in `mira_client_properties.dfy` state the client's promises about
the specifications. `strings.dfy` models Go's `strings.Split`/`strings.Join`
and proves that they invert each other. The octet and resource-ID
properties rest on those lemmas.

Behaviour of the source that the model reproduces:

- The GET goes to the bare `baseURL`. Range and mask are validated but never
  transmitted: the parameterised URL is commented out at lines 152-153.
- `doRequest` reads the body before looking at the status, so a failed read
  hides the status. Every status other than 200 is an error, 2xx ones too.
- The re-check of the chosen subnet (lines 340-343) is kept in the
  specification and proved never to fail.
- Create records the mask `"255.255.255.224"` whatever mask was requested.
- Read overwrites the assigned subnet with the requested range and the mask
  with the requested mask (`CreateThenRead`).

Choices in the code a reader might not expect:

- Any status other than 200 is an error, other 2xx codes included.
- A candidate with more than four "."-parts contributes its first four
  parts; with fewer than four parts the code panics on an index out of
  range, where the model reports `MalformedAddress` (see Findings).
- Update and Delete return the code's own two strings.

## Model

| member | source | states |
|---|---|---|
| `MiraClient.CheckIPAddress` | miraclient/mira_api_client.go:72-78 | true exactly when the abstract `net.ParseIP` accepts the string |
| `MiraClient.NewClient` | miraclient/mira_api_client.go:37-65 | succeeds exactly when username, password and user agent are all non-empty; missing credentials are reported first, a missing user agent only when both credentials are present; the client gets `baseURL` and the 10-second timeout |
| `MiraClient.DoRequest` | miraclient/mira_api_client.go:86-108 | returns the body exactly when the exchange completed with status 200 and the body was read; a connection error, a failed read, or any other status (with its code and body) are errors |
| `MiraClient.FirstInvalid` | miraclient/mira_api_client.go:207-213 | finds no index exactly when every payload element is an IP; otherwise finds the least index whose element is not an IP |
| `MiraClient.CheckedResponse` | miraclient/mira_api_client.go:198-220 | accepts a decoded response exactly when its message is "OK" and every payload element is an IP, and then returns it unchanged |
| `MiraClient.Availability` | miraclient/mira_api_client.go:131-221 | sends no request exactly when range or mask is invalid, otherwise exactly one GET to `baseURL` with the client's credentials; a success is the decoded response, with message "OK" and only IPs in its payload |
| `MiraClient.GetAvailableSubnetsFromMiraRange` | miraclient/mira_api_client.go:131-221 | the step-by-step query, including the payload loop with early return, yields exactly the result and requests of `Availability` |
| `MiraClient.PostDataFor` | miraclient/mira_api_client.go:349-385 | builds a record exactly when candidate and mask each split into at least four "."-parts (the candidate's malformed-address error first, then the mask's); its octets are the first four parts of each; range, addressID, comment, subnet name and template are copied verbatim; schema 2, class 38, false flags and empty placeholders |
| `MiraClient.FourOctetsAsWritten` | miraclient/mira_api_client.go:350-376 | the source's unchecked indexing `parts[0..3]`: goes out of range exactly when the split has fewer than four parts, at index = length |
| `MiraClient.Assignment` | miraclient/mira_api_client.go:272-418 | a success is the first candidate of a successful query, sent as a POST of its record after the GET; a failure never includes a POST |
| `MiraClient.CreateMiraSubnetAssignment` | miraclient/mira_api_client.go:272-418 | the step-by-step assignment yields exactly the result and requests of `Assignment`; the POST's outcome is discarded |
| `MiraClientProperties.InvalidQueryMakesNoRequest` | miraclient/mira_api_client.go:137-145 | an invalid range is reported before the mask is looked at, an invalid mask next; neither sends a request |
| `MiraClientProperties.TransportErrorPropagates` | miraclient/mira_api_client.go:175-179 | with valid inputs, a failed exchange is the query's error, after exactly one GET |
| `MiraClientProperties.DecodeFailureReported` | miraclient/mira_api_client.go:185-192 | with valid inputs, a 200 body that does not decode fails with the decode error after exactly one GET |
| `MiraClientProperties.NotOKMessageFails` | miraclient/mira_api_client.go:198-206 | a body that arrived with status 200 and decodes with a message other than "OK" still fails, with that message |
| `MiraClientProperties.FirstInvalidElementReported` | miraclient/mira_api_client.go:207-213 | if any payload element is not an IP, the query fails naming the first such element and its index |
| `MiraClientProperties.AvailabilitySucceedsIff` | miraclient/mira_api_client.go:186-220 | the query succeeds exactly when range and mask are valid, the message is "OK" and every element is an IP; it then returns the decoded response unchanged, same elements in the same order |
| `MiraClientProperties.InvalidAssignmentMakesNoRequest` | miraclient/mira_api_client.go:291-299 | the assignment rejects an invalid range, then an invalid mask, before any query |
| `MiraClientProperties.AvailabilityErrorPropagates` | miraclient/mira_api_client.go:311-315 | any error of the query is the assignment's error, with only the query's requests sent |
| `MiraClientProperties.EmptyPayloadIsExhaustion` | miraclient/mira_api_client.go:321-327 | the empty-list error comes back exactly when the query succeeded with no candidates, and then only the GET was sent |
| `MiraClientProperties.ChosenSubnetRecheckNeverFails` | miraclient/mira_api_client.go:340-343 | the defensive re-check of the chosen subnet never rejects it |
| `MiraClientProperties.AssignmentSucceedsIff` | miraclient/mira_api_client.go:337-417 | the assignment succeeds exactly when the query succeeds with a non-empty list whose first element and the mask split into octets, and it returns that first element |
| `MiraClientProperties.ResultDependsOnlyOnQuery` | miraclient/mira_api_client.go:337-417 | the result depends only on range, mask and the answer to the GET: not on location, comment, name, template, nor on the answer to the POST, so selection is deterministic |
| `MiraClientProperties.PostedOctetsRebuildAddresses` | miraclient/mira_api_client.go:349-385 | when candidate and mask have four parts, the posted ip1..ip4 and netmask1..netmask4 joined by "." are the candidate and the mask; the record carries the fixed constants and the caller's template |
| `MiraClientProperties.DottedSplit` | miraclient/mira_api_client.go:350-351 | four dot-free parts joined with "." split back into those four parts |
| `MiraClientProperties.ExampleSplits` | miraclient/mira_api_client.go:350-351 | "10.0.0.5" and "255.255.255.224" split into their four octets |
| `MiraClientProperties.SingleCandidateExample` | miraclient/mira_api_client.go:337-385 | a single candidate "10.0.0.5" under mask "255.255.255.224" is returned and posted as octets 10,0,0,5 and 255,255,255,224 |
| `MiraClientProperties.MalformedAddressReported` | miraclient/mira_api_client.go:337-376 | with a valid query whose first candidate or mask has fewer than four "."-parts, the assignment fails with `MalformedAddress` naming the candidate when it is the short one and the mask otherwise, after the GET alone and without a POST |
| `MiraClientProperties.Ipv6CandidateIndexesOutOfRange` | miraclient/mira_api_client.go:350-376 | as written, the octets of "::1" are read at index 1 of a split of length 1 |
| `MiraClientProperties.Ipv6CandidateRejected` | miraclient/mira_api_client.go:337-376 | a service offering "::1" (which an accepting `net.ParseIP` lets through) makes "::1" the chosen candidate; the model reports it as malformed and posts nothing |
| `Strings.Split` | miraclient/mira_api_client.go:350-351 | `strings.Split` on one character always yields at least one part |
| `Strings.SplitPiecesAreFree` | miraclient/mira_api_client.go:350-351 | no part of a split contains the separator |
| `Strings.JoinSplit` | miraclient/mira_api_client.go:350-351 | joining the parts of a split gives back the string |
| `Strings.SplitJoin` | miraclient/mira_api_client.go:350-351 | splitting a join of separator-free parts gives back the parts |
| `AllocatedSubnet.Lookup` | internal/provider/resource_mira_allocated_subnet.go:203-208 | `data.Get(k).(string)` on the attribute map: the stored value when the key is set, "" otherwise |
| `AllocatedSubnet.ResourceData.Get` | internal/provider/resource_mira_allocated_subnet.go:203-208 | reads an attribute, "" when it is not set |
| `AllocatedSubnet.ResourceData.Set` | internal/provider/resource_mira_allocated_subnet.go:246-253 | updates one attribute and nothing else |
| `AllocatedSubnet.ResourceData.SetId` | internal/provider/resource_mira_allocated_subnet.go:260 | updates the ID and nothing else |
| `AllocatedSubnet.ResourceId` | internal/provider/resource_mira_allocated_subnet.go:260 | the ID is the subnet, then one "-", then the mask |
| `AllocatedSubnet.AssignmentInputOf` | internal/provider/resource_mira_allocated_subnet.go:203-227 | each of the six client inputs is the attribute of the same name (requestrange, requestmask, addressid, comment, subnetname, template), "" when unset |
| `AllocatedSubnet.ComputedFieldsKeepInput` | internal/provider/resource_mira_allocated_subnet.go:203-253 | writing miraassignedsubnet and miraassignedsubnetmask never changes the client input read from the six configured attributes |
| `AllocatedSubnet.ResourceIdParses` | internal/provider/resource_mira_allocated_subnet.go:260 | the ID `subnet-mask` splits on "-" back into subnet and mask when neither contains "-" |
| `AllocatedSubnet.Create` | internal/provider/resource_mira_allocated_subnet.go:186-267 | passes requestrange, requestmask, addressid, comment, subnetname and template unchanged to the client; on a client error returns it and changes neither attribute nor ID; on success sets miraassignedsubnet to the chosen subnet, miraassignedsubnetmask to "255.255.255.224" and the ID to `chosen-255.255.255.224`, nothing else |
| `AllocatedSubnet.Read` | internal/provider/resource_mira_allocated_subnet.go:273-344 | without any client call, sets miraassignedsubnet to requestrange, miraassignedsubnetmask to requestmask and the ID to `requestrange-requestmask`, and never fails |
| `AllocatedSubnet.Update` | internal/provider/resource_mira_allocated_subnet.go:346-351 | always returns the single error "not implemented, you must contact the CNE Team to change an allocation" and changes nothing |
| `AllocatedSubnet.Delete` | internal/provider/resource_mira_allocated_subnet.go:353-358 | always returns the single error "not implemented, you must contact the CNE team to remove your allocation" and changes nothing |
| `AllocatedSubnet.CreateThenRead` | internal/provider/resource_mira_allocated_subnet.go:237-337 | after a successful Create, a Read leaves the requested range and mask, not the chosen subnet and fixed mask, in the computed fields and the ID |
| `AllocatedSubnet.ReadTwice` | internal/provider/resource_mira_allocated_subnet.go:320-337 | a second Read leaves the data as the first one did |

## Left out

- `net.ParseIP` (used by `checkIPAddress`) is an abstract predicate, `Library.parsesAsIP`. Its IPv4/IPv6 grammar is not modelled, and nothing here claims to be equivalent to Go's parser.
- `json.Unmarshal` is an abstract function, `Library.unmarshal`. A decode failure is the `DecodeFailed` error.
- `json.Marshal` of the assignment record is not modelled: the request list carries the record itself. Its error branch (lines 386-389) is left out because marshalling a struct of strings, ints and bools does not fail.
- `http.NewRequest` errors are left out: the method and URL are constant. Also left out are the `Content-Type` header, the encoding of the basic-auth header (the pair is kept on each request), `res.Body.Close`, and how the 10-second timeout is enforced (it is kept only as a configuration value).
- The user agent is stored in the client but, as in the source, not attached to any request.
- `NewClient` gets the three environment values as parameters; `os.Getenv` is I/O.
- `GetMiraSubnetRecordFromIPAddress` (lines 450-504) is not modelled: it is a bare GET and decode with no checks.
- The resource schema (internal/provider/resource_mira_allocated_subnet.go:18-180), `provider.go`, the data source and the two skipped test files are not modelled.
- `AllocatedSubnet.ResourceData.Set` never fails. The source's Create returns early on a `data.Set` error (lines 246-253) and Read ignores such errors. With the schema's string attributes and constant keys that error does not occur, so those branches are not modelled.
- The text of the client's error messages is not modelled; they are the variants of `MiraClient.Error`. Only the two fixed Update/Delete strings are kept exactly.
- `ctx`, logging and the `meta` type assertion are left out.
- Two concurrent assignments can race between the read and the write. Concurrency is left out; the remote service arbitrates.

## Findings

| source | as written | input that shows it | evidently intended | confidence | as-written member | corrected member |
|---|---|---|---|---|---|---|
| miraclient/mira_api_client.go:350-376 | the octets are read as `ipoctets[0..3]` and `nmoctets[0..3]` with no check of the split's length | a reply `{"message":"OK","payload":["::1"]}` with a valid range and mask. `net.ParseIP` accepts "::1", so it passes both IP checks; it splits into one part, and index 1 is out of range | report a malformed address and send no POST | not executed | `MiraClient.FourOctetsAsWritten` | `MiraClient.PostDataFor` |

`MiraClientProperties.Ipv6CandidateIndexesOutOfRange` gives the out-of-range index for "::1".
`MiraClientProperties.Ipv6CandidateRejected` shows that a service offering "::1" leads the source to that indexing. It also shows that the corrected assignment fails with `MalformedAddress("::1")` after the GET alone. A mask accepted by `net.ParseIP` without three dots, such as "ffff:ffff::", fails in the same way. The rest of the model uses the corrected `PostDataFor`.
