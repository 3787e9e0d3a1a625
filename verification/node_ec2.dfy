/** `src/node/ec2.rs`: an EC2 instance as a cluster node, and its fallible
    construction from the SDK's instance record. */
module Ec2Node {
  import opened Wrappers
  import opened Ec2Api
  import opened Errors

  /** An instance with an identifier and, possibly, a parsed public address. */
  datatype EC2 = EC2(instanceId: string, publicIpAddress: Option<IpAddr>)

  /** `Node::id` */
  function Id(n: EC2): string
  {
    n.instanceId
  }

  /** `Node::public_ip` */
  function PublicIp(n: EC2): Option<IpAddr>
  {
    n.publicIpAddress
  }

  /** `TryFrom<Instance> for EC2`. `parse` is `str::parse::<IpAddr>`, which
      may fail. The identifier is checked before the address is parsed. */
  function TryFromInstance(inst: Instance, parse: string -> Option<IpAddr>): (r: Result<EC2, Error>)
    ensures inst.instanceId.None? ==> r == Failure(InstanceIdRequired)
    ensures r.Success? <==>
              inst.instanceId.Some? &&
              (inst.publicIpAddress.None? || parse(inst.publicIpAddress.value).Some?)
    ensures inst.instanceId.Some? && inst.publicIpAddress.Some? && parse(inst.publicIpAddress.value).None? ==>
              r == Failure(AddrParse(inst.publicIpAddress.value))
    ensures r.Success? ==> Id(r.value) == inst.instanceId.value
    ensures r.Success? ==>
              PublicIp(r.value) == if inst.publicIpAddress.None? then None else parse(inst.publicIpAddress.value)
  {
    match inst.instanceId
    case None => Failure(InstanceIdRequired)
    case Some(id) =>
      match inst.publicIpAddress
      case None => Success(EC2(id, None))
      case Some(text) =>
        match parse(text)
        case None => Failure(AddrParse(text))
        case Some(ip) => Success(EC2(id, Some(ip)))
  }

  /** An instance record describing `n`, its address printed by `render`. */
  function ToInstance(n: EC2, render: IpAddr -> string, tags: Option<seq<Tag>>): (inst: Instance)
  {
    Instance(Some(n.instanceId), MapOption(n.publicIpAddress, render), tags)
  }

  /** Converting the record of a node gives the node back, whatever its
      tags, provided parsing reads back what printing wrote. */
  lemma InstanceRoundTrip(n: EC2, render: IpAddr -> string, parse: string -> Option<IpAddr>, tags: Option<seq<Tag>>)
    requires n.publicIpAddress.Some? ==> parse(render(n.publicIpAddress.value)) == n.publicIpAddress
    ensures TryFromInstance(ToInstance(n, render, tags), parse) == Success(n)
  {
  }
}
