/** `src/usecase/ec2.rs`: discovery followed by batch start/stop, and the
    provisioning fan-out. Spawning is modelled by its ordered task list; the
    sequential `await??` over the handles is a fold over the tasks'
    outcomes, given in spawn order. The ssh connection and the provisioner
    are parameters. */
module UsecaseEc2 {
  import opened Wrappers
  import opened Ec2Api
  import opened Errors
  import opened AwsTags
  import opened Ec2Node
  import opened Nodes
  import opened AwsOperator

  // ---------------------------------------------------------------------
  // start_instances / stop_instances

  /** The requests sent by discovery and by the state change, and what was
      returned. */
  datatype FleetStateRun = FleetStateRun(
    queries: seq<Query>,
    calls: seq<StateRequest>,
    result: Result<ClusterNodes<EC2>, Error>)

  /** `collect`, then `change_instances_state` on what was collected. */
  function ChangeFleetState(spec: AwsTagSpec, parse: string -> Option<IpAddr>, responses: seq<Response>,
                            change: ChangeInstanceState, send: Result<(), string>): (r: FleetStateRun)
    requires HasLastPage(responses)
    ensures var l := ListNodes(spec, parse, responses);
            && r.queries == l.queries
            && (l.outcome.Failure? ==> r.calls == [] && r.result == Failure(l.outcome.error))
            && (l.outcome.Success? ==>
                  var c := l.outcome.value;
                  && |r.calls| <= 1
                  && (r.calls == [] <==> c.master == [] && c.worker == [])
                  && (forall i :: 0 <= i < |r.calls| ==> r.calls[i] == StateRequest(change, NodeIds(c)))
                  && (r.result.Success? <==> r.calls == [] || send.Success?)
                  && (r.result.Success? ==> r.result.value == c))
  {
    var l := ListNodes(spec, parse, responses);
    match l.outcome
    case Failure(e) => FleetStateRun(l.queries, [], Failure(e))
    case Success(c) =>
      var s := ChangeInstancesState(c, change, send);
      match s.result
      case Failure(e) => FleetStateRun(l.queries, s.calls, Failure(e))
      case Success(_) => FleetStateRun(l.queries, s.calls, Success(c))
  }

  /** `start_instances` */
  function StartInstances(spec: AwsTagSpec, parse: string -> Option<IpAddr>, responses: seq<Response>,
                          send: Result<(), string>): (r: FleetStateRun)
    requires HasLastPage(responses)
    ensures forall i :: 0 <= i < |r.calls| ==> r.calls[i].change == Start
    ensures ListNodes(spec, parse, responses).outcome.Failure? ==> r.calls == [] && r.result.Failure?
  {
    ChangeFleetState(spec, parse, responses, Start, send)
  }

  /** `stop_instances` */
  function StopInstances(spec: AwsTagSpec, parse: string -> Option<IpAddr>, responses: seq<Response>,
                         send: Result<(), string>): (r: FleetStateRun)
    requires HasLastPage(responses)
    ensures forall i :: 0 <= i < |r.calls| ==> r.calls[i].change == Stop
    ensures ListNodes(spec, parse, responses).outcome.Failure? ==> r.calls == [] && r.result.Failure?
  {
    ChangeFleetState(spec, parse, responses, Stop, send)
  }

  // ---------------------------------------------------------------------
  // Task list

  /** One spawned `provision_node` task: a node and its role. */
  datatype Task = Task(role: NodeCategory, node: EC2)

  /** One task per node of a list, in list order. */
  function Spawn(role: NodeCategory, nodes: seq<EC2>): seq<Task>
    decreases |nodes|
  {
    if |nodes| == 0 then [] else [Task(role, nodes[0])] + Spawn(role, nodes[1..])
  }

  /** The handles of `provision`: masters first, then workers. */
  function Tasks(c: ClusterNodes<EC2>): seq<Task>
  {
    Spawn(Master, c.master) + Spawn(Worker, c.worker)
  }

  lemma {:induction false} SpawnPointwise(role: NodeCategory, nodes: seq<EC2>)
    ensures |Spawn(role, nodes)| == |nodes|
    ensures forall i :: 0 <= i < |nodes| ==> Spawn(role, nodes)[i] == Task(role, nodes[i])
    decreases |nodes|
  {
    if |nodes| > 0 {
      SpawnPointwise(role, nodes[1..]);
      forall i | 0 <= i < |nodes|
        ensures Spawn(role, nodes)[i] == Task(role, nodes[i])
      {
        if i > 0 {
          assert Spawn(role, nodes)[i] == Spawn(role, nodes[1..])[i - 1];
        }
      }
    }
  }

  /** There are `len()` tasks; the i-th master is the i-th task, with role
      Master; the j-th worker follows all masters, with role Worker. */
  lemma TasksShape(c: ClusterNodes<EC2>)
    ensures |Tasks(c)| == Len(c)
    ensures forall i :: 0 <= i < |c.master| ==> Tasks(c)[i] == Task(Master, c.master[i])
    ensures forall j :: 0 <= j < |c.worker| ==> Tasks(c)[|c.master| + j] == Task(Worker, c.worker[j])
  {
    SpawnPointwise(Master, c.master);
    SpawnPointwise(Worker, c.worker);
  }

  // ---------------------------------------------------------------------
  // Join

  /** What awaiting a handle gives: the task panicked or was cancelled (the
      `JoinError`), or it completed with its own result. */
  datatype TaskOutcome = Panicked(reason: string) | Completed(result: Result<(), Error>)

  predicate Succeeded(o: TaskOutcome)
  {
    o.Completed? && o.result.Success?
  }

  /** The error `provision.await??` propagates for an unsuccessful task. */
  function FailureOf(o: TaskOutcome): Error
    requires !Succeeded(o)
  {
    if o.Panicked? then TaskJoin(o.reason) else o.result.error
  }

  /** How many handles were awaited, and the result. */
  datatype Joined = Joined(awaited: nat, result: Result<(), Error>)

  /** The join loop of `provision`: await handles in spawn order and return
      at the first one that is not a successful completion. */
  function JoinAll(outcomes: seq<TaskOutcome>): (j: Joined)
    ensures j.result.Success? <==> forall i :: 0 <= i < |outcomes| ==> Succeeded(outcomes[i])
    ensures j.result.Success? ==> j.awaited == |outcomes|
    ensures j.result.Failure? ==>
              && 1 <= j.awaited <= |outcomes|
              && !Succeeded(outcomes[j.awaited - 1])
              && (forall i :: 0 <= i < j.awaited - 1 ==> Succeeded(outcomes[i]))
              && j.result.error == FailureOf(outcomes[j.awaited - 1])
    decreases |outcomes|
  {
    if |outcomes| == 0 then Joined(0, Success(()))
    else if !Succeeded(outcomes[0]) then Joined(1, Failure(FailureOf(outcomes[0])))
    else
      var rest := JoinAll(outcomes[1..]);
      assert forall i :: 1 <= i < |outcomes| ==> outcomes[i] == outcomes[1..][i - 1];
      Joined(rest.awaited + 1, rest.result)
  }

  /** Outcomes after the first failure are never looked at. */
  lemma {:induction false} JoinStopsAtFirstFailure(done: seq<TaskOutcome>, failed: TaskOutcome, later: seq<TaskOutcome>)
    requires forall i :: 0 <= i < |done| ==> Succeeded(done[i])
    requires !Succeeded(failed)
    ensures JoinAll(done + [failed] + later) == Joined(|done| + 1, Failure(FailureOf(failed)))
    decreases |done|
  {
    var all := done + [failed] + later;
    if |done| == 0 {
      assert all[0] == failed;
    } else {
      assert all[0] == done[0];
      assert all[1..] == done[1..] + [failed] + later;
      JoinStopsAtFirstFailure(done[1..], failed, later);
    }
  }

  // ---------------------------------------------------------------------
  // provision / provision_node

  /** The requests of discovery, the tasks spawned, how many were awaited,
      and the result. */
  datatype ProvisionRun = ProvisionRun(queries: seq<Query>, tasks: seq<Task>, awaited: nat, result: Result<(), Error>)

  /** `provision`: discover, spawn one task per node (masters first), then
      join in spawn order. `run(i, t)` is the outcome of the task `t`
      spawned `i`-th, so two tasks for equal nodes may still end
      differently. */
  function Provision(spec: AwsTagSpec, parse: string -> Option<IpAddr>, responses: seq<Response>,
                     run: (nat, Task) -> TaskOutcome): (r: ProvisionRun)
    requires HasLastPage(responses)
    ensures var l := ListNodes(spec, parse, responses);
            && r.queries == l.queries
            && (l.outcome.Failure? ==> r.tasks == [] && r.awaited == 0 && r.result == Failure(l.outcome.error))
            && (l.outcome.Success? ==> r.tasks == Tasks(l.outcome.value))
            && (r.result.Success? <==>
                  l.outcome.Success? && forall i :: 0 <= i < |r.tasks| ==> Succeeded(run(i, r.tasks[i])))
            && (l.outcome.Success? && r.result.Failure? ==>
                  && 1 <= r.awaited <= |r.tasks|
                  && !Succeeded(run(r.awaited - 1, r.tasks[r.awaited - 1]))
                  && (forall i :: 0 <= i < r.awaited - 1 ==> Succeeded(run(i, r.tasks[i])))
                  && r.result.error == FailureOf(run(r.awaited - 1, r.tasks[r.awaited - 1])))
  {
    var l := ListNodes(spec, parse, responses);
    match l.outcome
    case Failure(e) => ProvisionRun(l.queries, [], 0, Failure(e))
    case Success(c) =>
      var tasks := Tasks(c);
      var outcomes := seq(|tasks|, i requires 0 <= i < |tasks| => run(i, tasks[i]));
      var j := JoinAll(outcomes);
      assert forall i :: 0 <= i < |tasks| ==> outcomes[i] == run(i, tasks[i]);
      ProvisionRun(l.queries, tasks, j.awaited, j.result)
  }

  /** The ssh destination `user@host`. */
  datatype Endpoint = Endpoint(user: string, host: string)

  /** An open session, known only by its destination. */
  datatype Session = Session(endpoint: Endpoint)

  /** Where `provision_node` tried to connect, if anywhere, and its result. */
  datatype NodeRun = NodeRun(connectAttempt: Option<Endpoint>, result: Result<(), Error>)

  /** `provision_node`: a node without public address fails, naming its
      id, before any connection; otherwise connect to the printed address
      (`render` is `IpAddr::to_string`) and hand the session to the
      provisioner. */
  function ProvisionNode(user: string, role: NodeCategory, node: EC2, render: IpAddr -> string,
                         connect: Endpoint -> Result<Session, Error>,
                         provisioner: (NodeCategory, string, Session) -> Result<(), Error>): (r: NodeRun)
    ensures PublicIp(node).None? <==> r.connectAttempt.None?
    ensures PublicIp(node).None? ==> r.result == Failure(NoPublicIp(Id(node)))
    ensures PublicIp(node).Some? ==> r.connectAttempt == Some(Endpoint(user, render(PublicIp(node).value)))
    ensures r.connectAttempt.Some? && connect(r.connectAttempt.value).Failure? ==>
              r.result == Failure(connect(r.connectAttempt.value).error)
    ensures r.result.Success? <==>
              && r.connectAttempt.Some?
              && connect(r.connectAttempt.value).Success?
              && provisioner(role, Id(node), connect(r.connectAttempt.value).value).Success?
  {
    match PublicIp(node)
    case None => NodeRun(None, Failure(NoPublicIp(Id(node))))
    case Some(ip) =>
      var endpoint := Endpoint(user, render(ip));
      match connect(endpoint)
      case Failure(e) => NodeRun(Some(endpoint), Failure(e))
      case Success(session) => NodeRun(Some(endpoint), provisioner(role, Id(node), session))
  }

  /** The message of the precondition error names the instance. */
  lemma NoPublicIpNamesInstance(id: string)
    ensures var m := Message(NoPublicIp(id));
            |m| >= 13 + |id| && m[13..13 + |id|] == id
  {
  }

  /** A spawned `provision_node` task that does not panic. */
  function NodeTask(user: string, render: IpAddr -> string,
                    connect: Endpoint -> Result<Session, Error>,
                    provisioner: (NodeCategory, string, Session) -> Result<(), Error>): (nat, Task) -> TaskOutcome
  {
    (_: nat, t: Task) => Completed(ProvisionNode(user, t.role, t.node, render, connect, provisioner).result)
  }

  /** Provisioning the fleet succeeds only if every discovered node, master
      or worker, has a public address. */
  lemma ProvisionNeedsPublicIps(spec: AwsTagSpec, parse: string -> Option<IpAddr>, responses: seq<Response>,
                                user: string, render: IpAddr -> string,
                                connect: Endpoint -> Result<Session, Error>,
                                provisioner: (NodeCategory, string, Session) -> Result<(), Error>)
    requires HasLastPage(responses)
    requires Provision(spec, parse, responses, NodeTask(user, render, connect, provisioner)).result.Success?
    ensures var c := ListNodes(spec, parse, responses).outcome.value;
            && (forall i :: 0 <= i < |c.master| ==> PublicIp(c.master[i]).Some?)
            && (forall j :: 0 <= j < |c.worker| ==> PublicIp(c.worker[j]).Some?)
  {
    var run := NodeTask(user, render, connect, provisioner);
    var r := Provision(spec, parse, responses, run);
    var c := ListNodes(spec, parse, responses).outcome.value;
    TasksShape(c);
    forall i | 0 <= i < |c.master|
      ensures PublicIp(c.master[i]).Some?
    {
      assert Succeeded(run(i, r.tasks[i]));
    }
    forall j | 0 <= j < |c.worker|
      ensures PublicIp(c.worker[j]).Some?
    {
      assert Succeeded(run(|c.master| + j, r.tasks[|c.master| + j]));
    }
  }
}
