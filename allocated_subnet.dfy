/**
 * The `mira_allocated_subnet` resource's lifecycle hooks
 * (internal/provider/resource_mira_allocated_subnet.go). Terraform's
 * `schema.ResourceData` is a class holding the attribute map and the ID;
 * the hooks change it only through `Set` and `SetId`, as the source does.
 */
module AllocatedSubnet {
  import opened Strings
  import opened MiraClient

  // Attribute names of the resource schema.
  const RequestRangeKey: string := "requestrange"
  const RequestMaskKey: string := "requestmask"
  const AddressIdKey: string := "addressid"
  const CommentKey: string := "comment"
  const SubnetNameKey: string := "subnetname"
  const TemplateKey: string := "template"
  const AssignedSubnetKey: string := "miraassignedsubnet"
  const AssignedSubnetMaskKey: string := "miraassignedsubnetmask"

  /** The mask Create records for every assignment, whatever was requested. */
  const AssignedMask: string := "255.255.255.224"

  const UpdateNotImplemented: string := "not implemented, you must contact the CNE Team to change an allocation"
  const DeleteNotImplemented: string := "not implemented, you must contact the CNE team to remove your allocation"

  /** One entry of `diag.Diagnostics`; a hook succeeds when it returns none. */
  datatype Diagnostic =
    | ClientFailure(error: Error)       // diag.FromErr(err)
    | NotImplemented(summary: string)   // diag.Errorf(...)

  /**
   * `data.Get(key).(string)`: an attribute that is not set reads as "".
   * A function of the map alone, so that contracts can apply it to `old(...)` state.
   */
  function Lookup(attributes: map<string, string>, key: string): (v: string)
    ensures key in attributes ==> v == attributes[key]
    ensures key !in attributes ==> v == ""
  {
    if key in attributes then attributes[key] else ""
  }

  /** `schema.ResourceData`, reduced to string attributes and the resource ID. */
  class ResourceData {
    var attributes: map<string, string>
    var id: string

    constructor (attributes: map<string, string>)
      ensures this.attributes == attributes && id == ""
    {
      this.attributes := attributes;
      id := "";
    }

    function Get(key: string): (v: string)
      reads this
      ensures v == Lookup(attributes, key)
    {
      Lookup(attributes, key)
    }

    method Set(key: string, value: string)
      modifies this
      ensures attributes == old(attributes)[key := value] && id == old(id)
    {
      attributes := attributes[key := value];
    }

    method SetId(value: string)
      modifies this
      ensures id == value && attributes == old(attributes)
    {
      id := value;
    }
  }

  /** The resource ID: `<subnet>-<mask>`. */
  function ResourceId(subnet: string, mask: string): (id: string)
    ensures |id| == |subnet| + 1 + |mask|
    ensures id[..|subnet|] == subnet && id[|subnet|] == '-' && id[|subnet| + 1..] == mask
  {
    subnet + "-" + mask
  }

  /** The ID is a composite key: when neither part contains "-", splitting it on "-" gives both back. */
  lemma ResourceIdParses(subnet: string, mask: string)
    requires Free(subnet, '-') && Free(mask, '-')
    ensures Split(ResourceId(subnet, mask), '-') == [subnet, mask]
  {
    SplitFree(mask, '-');
    SplitAfterFreePrefix(subnet, mask, '-');
  }

  /** The client input Create builds from the six configured attributes. */
  function AssignmentInputOf(attributes: map<string, string>): (input: AssignmentInput)
    ensures input.requestRange == Lookup(attributes, RequestRangeKey)
    ensures input.requestMask == Lookup(attributes, RequestMaskKey)
    ensures input.addressID == Lookup(attributes, AddressIdKey)
    ensures input.comment == Lookup(attributes, CommentKey)
    ensures input.subnetName == Lookup(attributes, SubnetNameKey)
    ensures input.template == Lookup(attributes, TemplateKey)
  {
    AssignmentInput(
      requestRange := Lookup(attributes, RequestRangeKey),
      requestMask := Lookup(attributes, RequestMaskKey),
      addressID := Lookup(attributes, AddressIdKey),
      comment := Lookup(attributes, CommentKey),
      subnetName := Lookup(attributes, SubnetNameKey),
      template := Lookup(attributes, TemplateKey))
  }

  /**
   * The computed attributes Create and Read write are not among the six the
   * client input is read from, so writing them never changes that input.
   */
  lemma ComputedFieldsKeepInput(attributes: map<string, string>, subnet: string, mask: string)
    ensures AssignmentInputOf(attributes[AssignedSubnetKey := subnet][AssignedSubnetMaskKey := mask])
            == AssignmentInputOf(attributes)
  {
  }

  /**
   * `resourceMiraAllocatedSubnetCreate`: hands the six attributes unchanged to
   * the client; on failure returns the client's error and leaves the data
   * alone; on success records the chosen subnet, the fixed mask and the ID.
   * `sent` is what the client sent to the service.
   */
  method Create(data: ResourceData, client: Client, lib: Library, service: Service)
    returns (diags: seq<Diagnostic>, sent: seq<Request>)
    modifies data
    ensures var call := Assignment(client, AssignmentInputOf(old(data.attributes)), lib, service);
            && sent == call.sent
            && (call.result.Err? ==>
                  && diags == [ClientFailure(call.result.error)]
                  && data.attributes == old(data.attributes) && data.id == old(data.id))
            && (call.result.Ok? ==>
                  && diags == []
                  && data.attributes == old(data.attributes)[AssignedSubnetKey := call.result.value]
                                                            [AssignedSubnetMaskKey := AssignedMask]
                  && data.id == ResourceId(call.result.value, AssignedMask))
  {
    var input := AssignmentInput(
      requestRange := data.Get(RequestRangeKey),
      requestMask := data.Get(RequestMaskKey),
      addressID := data.Get(AddressIdKey),
      comment := data.Get(CommentKey),
      subnetName := data.Get(SubnetNameKey),
      template := data.Get(TemplateKey));
    var chosen;
    chosen, sent := CreateMiraSubnetAssignment(client, input, lib, service);
    if chosen.Err? {
      return [ClientFailure(chosen.error)], sent;
    }
    data.Set(AssignedSubnetKey, chosen.value);
    data.Set(AssignedSubnetMaskKey, AssignedMask);
    data.SetId(ResourceId(chosen.value, AssignedMask));
    return [], sent;
  }

  /**
   * `resourceMiraAllocatedSubnetRead`: makes no client call (it takes no
   * client), echoes the requested range and mask into the computed fields,
   * sets the ID from them and never fails.
   */
  method Read(data: ResourceData) returns (diags: seq<Diagnostic>)
    modifies data
    ensures diags == []
    ensures var range, mask := Lookup(old(data.attributes), RequestRangeKey), Lookup(old(data.attributes), RequestMaskKey);
            && data.attributes == old(data.attributes)[AssignedSubnetKey := range][AssignedSubnetMaskKey := mask]
            && data.id == ResourceId(range, mask)
  {
    var requestRange := data.Get(RequestRangeKey);
    var requestMask := data.Get(RequestMaskKey);
    data.Set(AssignedSubnetKey, requestRange);
    data.Set(AssignedSubnetMaskKey, requestMask);
    data.SetId(ResourceId(requestRange, requestMask));
    return [];
  }

  /** `resourceMiraAllocatedSubnetUpdate`: always the same error; the data cannot change (no modifies). */
  method Update(data: ResourceData) returns (diags: seq<Diagnostic>)
    ensures diags == [NotImplemented(UpdateNotImplemented)]
  {
    return [NotImplemented(UpdateNotImplemented)];
  }

  /** `resourceMiraAllocatedSubnetDelete`: always the same error; the data cannot change (no modifies). */
  method Delete(data: ResourceData) returns (diags: seq<Diagnostic>)
    ensures diags == [NotImplemented(DeleteNotImplemented)]
  {
    return [NotImplemented(DeleteNotImplemented)];
  }

  /**
   * A refresh after a successful create: Read replaces the chosen subnet
   * with the requested range and the fixed mask with the requested mask, so
   * the recorded assignment and ID no longer name the subnet that was chosen
   * (unless the two happen to coincide).
   */
  method CreateThenRead(data: ResourceData, client: Client, lib: Library, service: Service)
    returns (created: seq<Diagnostic>, refreshed: seq<Diagnostic>)
    modifies data
    ensures var input := AssignmentInputOf(old(data.attributes));
            Assignment(client, input, lib, service).result.Ok? ==>
              && created == [] && refreshed == []
              && Lookup(data.attributes, AssignedSubnetKey) == input.requestRange
              && Lookup(data.attributes, AssignedSubnetMaskKey) == input.requestMask
              && data.id == ResourceId(input.requestRange, input.requestMask)
  {
    var sent;
    created, sent := Create(data, client, lib, service);
    refreshed := Read(data);
  }

  /** Read is idempotent: a second refresh leaves the data as the first one left it. */
  method ReadTwice(data: ResourceData) returns (first: seq<Diagnostic>, second: seq<Diagnostic>)
    modifies data
    ensures first == [] && second == []
    ensures var range, mask := Lookup(old(data.attributes), RequestRangeKey), Lookup(old(data.attributes), RequestMaskKey);
            && data.attributes == old(data.attributes)[AssignedSubnetKey := range][AssignedSubnetMaskKey := mask]
            && data.id == ResourceId(range, mask)
  {
    first := Read(data);
    second := Read(data);
  }
}
