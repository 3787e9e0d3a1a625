/** `src/node.rs`: node roles and the role-partitioned node set. */
module Nodes {
  import opened Ec2Node

  /** The role discovery assigns to an instance. */
  datatype NodeCategory = Master | Worker

  /** Discovered nodes, masters and workers each in discovery order. */
  datatype ClusterNodes<T> = ClusterNodes(master: seq<T>, worker: seq<T>)

  /** `ClusterNodes::len` */
  function Len<T>(c: ClusterNodes<T>): nat
  {
    |c.master| + |c.worker|
  }

  /** The ids of a node list, as `iter().map(|node| node.id())` yields them. */
  function Ids(nodes: seq<EC2>): seq<string>
    decreases |nodes|
  {
    if |nodes| == 0 then [] else [Id(nodes[0])] + Ids(nodes[1..])
  }

  /** `ClusterNodes::node_ids`: master ids chained with worker ids. */
  function NodeIds(c: ClusterNodes<EC2>): seq<string>
  {
    Ids(c.master) + Ids(c.worker)
  }

  /** The mapped iterator yields one id per node, in list order. */
  lemma {:induction false} IdsPointwise(nodes: seq<EC2>)
    ensures |Ids(nodes)| == |nodes|
    ensures forall i :: 0 <= i < |nodes| ==> Ids(nodes)[i] == Id(nodes[i])
    decreases |nodes|
  {
    if |nodes| > 0 {
      IdsPointwise(nodes[1..]);
      forall i | 0 <= i < |nodes|
        ensures Ids(nodes)[i] == Id(nodes[i])
      {
        if i > 0 {
          assert Ids(nodes)[i] == Ids(nodes[1..])[i - 1];
        }
      }
    }
  }

  /** `node_ids` yields `len` ids: every master's id in list order, then
      every worker's id in list order. */
  lemma NodeIdsOrder(c: ClusterNodes<EC2>)
    ensures |NodeIds(c)| == Len(c)
    ensures forall i :: 0 <= i < |c.master| ==> NodeIds(c)[i] == Id(c.master[i])
    ensures forall j :: 0 <= j < |c.worker| ==> NodeIds(c)[|c.master| + j] == Id(c.worker[j])
  {
    IdsPointwise(c.master);
    IdsPointwise(c.worker);
  }

  /** `node_ids` is empty exactly when both role lists are. */
  lemma NodeIdsEmpty(c: ClusterNodes<EC2>)
    ensures |NodeIds(c)| == 0 <==> c.master == [] && c.worker == []
  {
    NodeIdsOrder(c);
  }
}
