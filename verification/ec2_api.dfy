/** The slice of the EC2 SDK's data model (`aws_sdk_ec2::model`) and of
    `std::net::IpAddr` that the fleet core reads. Only the fields the core
    touches are kept. */
module Ec2Api {
  import opened Wrappers

  /** An address as `std::net::IpAddr` holds it; parsing and printing are
      standard-library conversions passed to the model as parameters. */
  datatype IpAddr = V4(octets: seq<int>) | V6(segments: seq<int>)

  /** `model::Tag`: both fields are optional in the SDK. */
  datatype Tag = Tag(key: Option<string>, value: Option<string>)

  /** `model::Instance`: identifier, public address text and tag list. */
  datatype Instance = Instance(
    instanceId: Option<string>,
    publicIpAddress: Option<string>,
    tags: Option<seq<Tag>>)

  /** `model::Reservation` */
  datatype Reservation = Reservation(instances: Option<seq<Instance>>)

  /** One page of `DescribeInstances`. */
  datatype DescribeInstancesOutput = DescribeInstancesOutput(
    reservations: Option<seq<Reservation>>,
    nextToken: Option<string>)

  /** `model::Filter` as built by `Filter::builder().name(..).values(..)`. */
  datatype Filter = Filter(name: string, values: seq<string>)

  /** The instances of a list of reservations, reservation by reservation;
      a reservation without an instance list contributes none
      (`unwrap_or_default`). */
  function ReservationInstances(rs: seq<Reservation>): seq<Instance>
    decreases |rs|
  {
    if |rs| == 0 then []
    else
      (match rs[0].instances case None => [] case Some(insts) => insts)
      + ReservationInstances(rs[1..])
  }

  /** Every instance of one page, in the order the nested loops visit them. */
  function PageInstances(page: DescribeInstancesOutput): seq<Instance>
  {
    match page.reservations
    case None => []
    case Some(rs) => ReservationInstances(rs)
  }
}
