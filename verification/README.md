# kubeprovision fleet core in Dafny

This project models the decision logic of `kubeprovision`, a tool that finds
tagged EC2 instances, sorts them into Kubernetes master and worker nodes,
starts or stops them, and provisions each one over ssh. The model covers which
nodes exist, what role each has, what is sent to the EC2 API or to a remote
shell, and how results combine. Everything that performs I/O is a parameter or
given data:

- The answers to successive `DescribeInstances` requests are a finite sequence
  of responses (a page or an SDK error). The requests the loop would send are
  recorded in a `Listing`.
- The start/stop call's outcome is a parameter. The requests are recorded.
- The ssh session is a function from an `Invocation` (program and argv) to an
  `ExecOutput` (transport failure, or exit status plus stderr bytes).
- `str::parse::<IpAddr>`, `IpAddr::to_string` and `String::from_utf8_lossy`
  are function parameters. Parsing may fail; decoding is total.
- Each spawned provisioning task is given by its outcome. The ssh connect and
  the provisioner are parameters of `ProvisionNode`.

Modules follow the source files:

| module | file |
|---|---|
| `Wrappers`, `Text` | `Option`/`Result`; `to_ascii_lowercase`, `join`, `{:20}` padding |
| `Ec2Api` | the SDK records the core reads (`Tag`, `Instance`, `Reservation`, `DescribeInstancesOutput`, `Filter`) and `IpAddr` |
| `Errors` | the `anyhow` errors as one datatype, plus `ProvisionError` and `RemoteCommandExecuteError` |
| `AwsTags` | `src/operator/aws.rs`: `AwsTag`, its filter, its equality with an instance tag, `AwsTagSpec` |
| `AwsOperator` | `src/operator/aws.rs`: `categorize`, `list_nodes`, `change_instances_state`, `start_nodes`, `stop_nodes`, and the tag-spec part of `from_config` |
| `Ec2Node` | `src/node/ec2.rs` |
| `Nodes` | `src/node.rs` |
| `RemoteCommand` | `src/provision/remote_command.rs` |
| `ConfigProvider`, `ConfigAws`, `Config` | `src/config/provider.rs`, `src/config/aws.rs`, `src/config.rs` |
| `UsecaseEc2` | `src/usecase/ec2.rs` |

`AwsTags` is separate from `AwsOperator` because in Rust `config.rs` and
`operator/aws.rs` depend on each other, and Dafny modules cannot form a cycle.

`AwsTag::key` and `AwsTag::value` are `AwsTags.KeyTag` and `AwsTags.WithValue`.
Their combined effect is stated by `ConfigAws.ToAwsTag`. `ClusterNodes::len`
is `Nodes.Len`, and `collect` is `AwsOperator.ListNodes`. The other Rust items
map as follows:
- `PartialEq<Tag> for AwsTag` (src/operator/aws.rs:41-45) is `AwsTags.Matches`.
- `categorize` (src/operator/aws.rs:117-128) is `AwsOperator.Categorize`, whose
  tag loop is `AwsOperator.FirstCategory`.
- The inner instance loop of `list_nodes` (src/operator/aws.rs:93-103) is
  `AwsOperator.CollectInstances`, and the outer page loop (:83-109) is
  `AwsOperator.Paginate`.
- `ClusterNodes::node_ids` (src/node.rs:25-30) is `Nodes.NodeIds`.
- `Provider::from_str` (src/config/provider.rs:12-17) is `ConfigProvider.FromStr`.
- The log strings built in `execute` (src/provision/remote_command.rs:48, 53,
  58) are `RemoteCommand.Descriptor`, and `Display for
  RemoteCommandExecuteError` (:21-25) is `RemoteCommand.Display`.
- The two spawn loops of `provision` (src/usecase/ec2.rs:34-49) are
  `UsecaseEc2.Tasks`.

`node_ids` and `len`
are pure functions of an immutable value, so they leave the `ClusterNodes`
unchanged by construction.

Discovery is characterised exactly:
- which requests are sent, and that each carries the previous page's token;
- when the loop stops;
- on success, the master list is the conversion, in page order, of every
  instance read that is categorised master; likewise for workers;
- on failure, which response caused it: the failed request, or the first
  categorised instance that does not convert.

`list_nodes` removes no duplicates. When the instances read carry distinct
ids, no id is both a master and a worker (`AwsOperator.ListNodesDisjoint`).
Two records with the same id, one tagged master and one tagged worker, put that
id in both lists (`AwsOperator.ListNodesCanRepeatId`).

Uncategorised instances are never converted, so a malformed record among them
is ignored.

Four points about the code that shape the model:
- The join in `provision` (src/usecase/ec2.rs:51-53) returns at the first
  failing handle in spawn order and does not await the rest.
  `UsecaseEc2.JoinAll` and `JoinStopsAtFirstFailure` state this.
- `NodeRole`, used in src/usecase/ec2.rs, is not defined in src/node.rs, so
  the model uses `NodeCategory` from src/node.rs for the roles.
- src/cli/exec.rs:7 calls `usecase::ec2::exec`, which src/usecase/ec2.rs does
  not define, so it is not modelled.
- src/usecase/ec2.rs:66 calls `Session::connect`, but src/ssh.rs defines a free
  `connect` that returns an `openssh::Session`, and no `Session` type. The
  model is unaffected: connecting is the `connect` parameter of
  `UsecaseEc2.ProvisionNode`.

A key-only `AwsTag` (`AwsTag::key(k)` with no value) becomes a `tag-key`
filter, which selects any tag with key `k`. Its equality with an instance tag
holds only when that tag has no value. So as a filter it would let through
instances that it then never matches (`AwsTags.KeyOnlyFilterIsWider`). In
src/, an `AwsTag` is built only by `From<TagConfig>` (src/config/aws.rs:43),
which always sets a value, so no code path builds a key-only tag.

EC2 reads `*` and `?` in a filter value as wildcards and `\` as an escape,
while the tag comparison is exact. The two agree only for values without
those characters (`AwsTags.ValuedFilterAgreesWithMatches`). A configured
value such as `k8s-*` makes the filter select tags it does not compare equal
to (`AwsTags.WildcardValueIsWider`). In the code, filters are built only from
the inventory tag and comparisons only use the master and worker tags. So a
wildcard in the inventory value widens the query, and nothing else.

## Model

| member | source | states |
|---|---|---|
| AwsTags.ToFilter | src/operator/aws.rs:16-26 | a tag with a value becomes filter `tag:<key>` with exactly `[value]`; a key-only tag becomes `tag-key` with exactly `[key]` |
| AwsTags.ValuedFilterAgreesWithMatches | src/operator/aws.rs:16-45 | for a tag whose value has no `*`, `?` or `\`, the filter selects an instance (with EC2's wildcard reading of filter values) exactly when one of its tags compares equal to the tag |
| AwsTags.WildcardValueIsWider | src/operator/aws.rs:16-45 | the tag `role=k8s-*` as a filter selects an instance tagged `role=k8s-master`, which does not compare equal to it |
| AwsTags.KeyOnlyMatchesOnlyValueless | src/operator/aws.rs:41-45 | a key-only tag equals an instance tag iff that tag has the key and no value |
| AwsTags.KeyOnlyFilterCoversMatches | src/operator/aws.rs:16-45 | a key-only tag whose key has no `\` escape or wildcard: its `tag-key` filter selects every instance holding a tag equal to it |
| AwsTags.KeyOnlyFilterIsWider | src/operator/aws.rs:16-45 | for any key without wildcards or escapes and any value, a tag with that key and value passes the key-only tag's filter but does not equal the key-only tag |
| Ec2Node.TryFromInstance | src/node/ec2.rs:21-39 | no id fails with "instance id required", even when the address is also malformed; an id without address converts with no public IP; an unparsable address fails; on success `id()` is the record's id and `public_ip()` the parsed address |
| Ec2Node.InstanceRoundTrip | src/node/ec2.rs:11-39 | converting the record of a node gives that node back, whatever its tags, when parsing reads back printed addresses |
| Nodes.NodeIdsOrder | src/node.rs:24-37 | `node_ids` yields `len` ids: each master's id in list order, then each worker's id in list order |
| Nodes.NodeIdsEmpty | src/node.rs:24-31 | `node_ids` is empty iff both lists are empty |
| ConfigProvider.FromStrAccepts | src/config/provider.rs:10-18 | the parser accepts exactly "aws" in any ASCII letter case, giving `Aws`; anything else is rejected with "unsupported provider: " followed by the original input |
| ConfigProvider.FromStrCaseInsensitive | src/config/provider.rs:12-16 | a string and its ASCII-lowercase form are both accepted or both rejected, and an accepted one gives the same provider |
| ConfigProvider.FromStrDoesNotTrim | src/config/provider.rs:12-16 | surrounding whitespace is not trimmed: " aws" and "aws\n" are rejected |
| ConfigProvider.DeserializeProvider | src/config/provider.rs:20-29 | succeeds iff the string deserializes and spells "aws" in some case; a deserializer error passes through; a bad string gives `invalid_value` quoting the string and the parser's message |
| ConfigAws.ToAwsTag | src/config/aws.rs:41-45 | the tag keeps the configured key and always has the configured value |
| ConfigAws.ConfigTagFilter | src/config/aws.rs:41-45 | a configured tag always becomes a `tag:<key>` filter on `[value]`, never `tag-key` |
| ConfigAws.ConfigTagMatches | src/config/aws.rs:41-45 | a configured tag equals an instance tag iff its key and value are both the configured strings |
| Config.AwsTagSpecOf | src/config.rs:24-30 | absent iff the `aws` section is; otherwise the node, master and worker tags are `aws.ec2.node.tag`, `.master.tag` and `.worker.tag`, each with its value |
| AwsOperator.TagSpecFromConfig | src/operator/aws.rs:60-65 | fails with "aws config not found" iff the `aws` section is absent; otherwise the inventory, master and worker tags are the configured keys, each with its configured value |
| AwsOperator.ConfiguredSpecSemantics | src/operator/aws.rs:60-65 | with an `aws` section, discovery filters on `tag:<key>` with the configured inventory value, and an instance tag counts as master (worker) exactly when its key and value are the configured master (worker) strings |
| AwsOperator.FirstCategorySpec | src/operator/aws.rs:117-128 | no category iff no tag matches either filter; otherwise the first matching tag decides, Master if it matches the master filter, else Worker |
| AwsOperator.CategorizeNone | src/operator/aws.rs:117-128 | an instance without tags, or with no tag matching either filter, has no category |
| AwsOperator.TieBreakIsMaster | src/operator/aws.rs:119-125 | a first deciding tag that matches both filters gives Master |
| AwsOperator.EarlierWorkerTagWins | src/operator/aws.rs:119-125 | a worker-matching tag listed before a master-matching tag gives Worker |
| AwsOperator.SelectedExact | src/operator/aws.rs:93-103 | an instance is selected for a category iff it occurs in the input with that category |
| AwsOperator.SelectedPartition | src/operator/aws.rs:93-103 | the master, worker and uncategorised selections together are a permutation of the input |
| AwsOperator.CollectInstancesSpec | src/operator/aws.rs:93-103 | one page succeeds iff every categorised instance converts; then each role list is extended by the conversions of that role's instances in order; otherwise the error is that of the first categorised instance that fails |
| AwsOperator.PaginateQueries | src/operator/aws.rs:82-109 | each request is answered by the next response; every follow-up request carries the token of a clean page before it, and the last response read is never a clean page with a token, so the loop continues exactly after such pages |
| AwsOperator.PaginateOutcome | src/operator/aws.rs:79-115 | the loop succeeds on a clean page without token, having appended the conversions of every page read; it fails with the failed request's error or the page's first conversion error |
| AwsOperator.ListNodesQueries | src/operator/aws.rs:79-115 | the first request has no token and every request uses the inventory filter and page size 1000; every follow-up request comes after a clean page with a token and carries that token, and the last response read is never such a page |
| AwsOperator.ListNodesOutcome | src/operator/aws.rs:79-115 | success iff the last response read is a clean page without token; masters and workers are then the in-order conversions of the instances read with that category; otherwise the last response read holds the error |
| AwsOperator.PaginateOutcomeBadPage | src/operator/aws.rs:93-106 | a page whose categorized instance fails to convert ends the loop with that instance's error |
| AwsOperator.PaginateOutcomeLastPage | src/operator/aws.rs:93-114 | a clean page without token ends the loop with the conversions that page added |
| AwsOperator.ListNodesPartition | src/operator/aws.rs:93-114 | every listed master and worker converts from an instance read with that category; listed plus uncategorised instances account for every instance read; uncategorised ones appear in neither list |
| AwsOperator.ListNodesDisjoint | src/operator/aws.rs:93-114 | when the instances read carry distinct ids, no listed master has the id of a listed worker |
| AwsOperator.ListNodesCanRepeatId | src/operator/aws.rs:93-114 | two records with id `i-1`, tagged master and worker, on one last page yield `i-1` in both lists, as nothing removes duplicates |
| AwsOperator.ChangeInstancesState | src/operator/aws.rs:146-172 | no request and `Ok` iff both lists are empty; otherwise exactly one request with `node_ids()` in order, whose outcome decides the result |
| AwsOperator.StartNodes | src/operator/aws.rs:137-140 | every request sent is a start request; an error comes only from the API call |
| AwsOperator.StopNodes | src/operator/aws.rs:141-144 | every request sent is a stop request; an error comes only from the API call |
| RemoteCommand.InvocationOf | src/provision/remote_command.rs:46-62 | `Bash(s)` runs `bash` with argv exactly `["-c", s]`; `Sudo(args)` runs `sudo` with `args` verbatim; `Executable(c, args)` runs `c` with `args` verbatim |
| RemoteCommand.DescriptorDescribesInvocation | src/provision/remote_command.rs:46-62 | the logged descriptor is the command line of what is run followed only by padding spaces; for `Bash` it is exactly `bash -c <script>`; argument lists are padded to at least 20 characters and never truncated |
| RemoteCommand.Execute | src/provision/remote_command.rs:45-74 | a transport failure is an ssh error before any exit status is read; success iff the exit succeeded, with no data; a failed exit gives `RemoteCommand` with the descriptor and decoded stderr |
| RemoteCommand.FailureDisplaysCommand | src/provision/remote_command.rs:21-72 | a failed command's error displays as its descriptor followed by ": " and the decoded stderr; the descriptor is the command line followed only by padding spaces |
| UsecaseEc2.ChangeFleetState | src/usecase/ec2.rs:15-29 | a discovery error is returned with no state request; otherwise at most one request with the collected ids, and on success the collected `ClusterNodes` are returned unchanged |
| UsecaseEc2.StartInstances | src/usecase/ec2.rs:15-21 | only start requests are sent, none after a discovery error |
| UsecaseEc2.StopInstances | src/usecase/ec2.rs:23-29 | only stop requests are sent, none after a discovery error |
| UsecaseEc2.TasksShape | src/usecase/ec2.rs:34-49 | there are `len()` tasks; each master gets one task with role Master, in order, before every worker's task with role Worker |
| UsecaseEc2.JoinAll | src/usecase/ec2.rs:51-55 | `Ok` iff every task completed with `Ok`; otherwise the result is the first failure in spawn order (a join error or the task's error), and no handle after it is awaited |
| UsecaseEc2.JoinStopsAtFirstFailure | src/usecase/ec2.rs:51-53 | outcomes queued after the first failure do not affect the result |
| UsecaseEc2.Provision | src/usecase/ec2.rs:31-56 | a discovery error aborts before any task is created; otherwise the tasks are the role-paired node list and the result is `Ok` iff every task succeeds, else the first failure in spawn order; each task's outcome depends on its spawn position as well as its node |
| UsecaseEc2.ProvisionNode | src/usecase/ec2.rs:58-70 | a node without public IP fails with an error naming its id and no connection is attempted; otherwise it connects to `user@<ip>` and succeeds iff the connection and the provisioner succeed |
| UsecaseEc2.NoPublicIpNamesInstance | src/usecase/ec2.rs:60-65 | the precondition error's message contains the instance id |
| UsecaseEc2.ProvisionNeedsPublicIps | src/usecase/ec2.rs:31-70 | provisioning the fleet succeeds only if every discovered master and worker has a public IP |

## Left out

- EC2 SDK calls and `aws_config::load_from_env` (`AwsOperator::new`, the
  `send()` calls): network I/O. Responses are given data; requests are
  recorded.
- The ssh transport (`src/ssh.rs`, `openssh::Session`): opaque remote I/O.
  It is an abstract executor or connect function.
- `src/provision/provisioner.rs`: one `swapoff` call whose only logic is
  logging. Its result is a parameter of `UsecaseEc2.ProvisionNode`.
  `ProvisionError` is imported from that module
  (src/provision/remote_command.rs:6) but not defined in src/provision/provisioner.rs.
  The model has its two constructors as used at src/provision/remote_command.rs:64
  (`ProvisionError::ssh`, passed to `map_err`) and :70 (`ProvisionError::RemoteCommand`).
- tokio spawning and scheduling: concurrency is out of scope. Tasks are an
  ordered list, and the join is a fold over their outcomes in spawn order.
- `Config::from_path`, YAML and serde plumbing: file I/O. `DeserializeProvider`
  takes the string deserializer's result as input.
- The CLI (`src/cli.rs`, `src/cli/*.rs`, `src/main.rs`): argument parsing
  and dispatch.
- `IpAddr` parsing and printing, and `from_utf8_lossy`: standard-library
  conversions, passed as function parameters.
- `tracing` log output: it has no result value. The descriptor that is
  logged is modelled.
- AwsTags.ValuedFilterAgreesWithMatches: holds only for filter values without `*`, `?` or `\`. With such characters EC2's reading of the filter is wider than the tag comparison, as `AwsTags.WildcardValueIsWider` shows. The `tag:K` filter name is compared exactly, and filter names other than the two `ToFilter` produces are outside the model.
- AwsOperator.ListNodes: modelled only for providers that eventually answer
  with an error or a page without token (`HasLastPage`). Against a provider
  that returns tokens forever, the Rust loop does not terminate.
- AwsOperator.CollectInstances: walks each page's instances as one flattened
  sequence (`PageInstances`). This is the order the nested reservation and
  instance loops visit them.
- ConfigProvider.FromStrCaseInsensitive: states equal acceptance and equal
  providers only. Rejection messages differ, because they quote the input.
