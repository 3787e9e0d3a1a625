/** `src/operator/aws.rs` (behaviour): tag-based categorization, paginated
    node discovery and batch start/stop. The EC2 client is not called: the
    answers to successive `DescribeInstances` requests are given as a finite
    sequence, and the requests the loop would send are recorded. */
module AwsOperator {
  import opened Wrappers
  import opened Ec2Api
  import opened Errors
  import opened AwsTags
  import opened Ec2Node
  import opened Nodes
  import Config
  import ConfigAws

  /** `AwsOperator::from_config`, without the client construction: the tag
      spec of the configuration, or "aws config not found". */
  function TagSpecFromConfig(config: Config.Config): (r: Result<AwsTagSpec, Error>)
    ensures r.Failure? <==> config.aws.None?
    ensures r.Failure? ==> r.error == AwsConfigNotFound
    ensures r.Success? ==>
              var node := config.aws.value.ec2.node;
              && r.value.node == AwsTag(node.tag.key, Some(node.tag.value))
              && r.value.masterNode == AwsTag(node.master.tag.key, Some(node.master.tag.value))
              && r.value.workerNode == AwsTag(node.worker.tag.key, Some(node.worker.tag.value))
  {
    match Config.AwsTagSpecOf(config)
    case None => Failure(AwsConfigNotFound)
    case Some(spec) => Success(spec)
  }

  /** What a configured operator looks for: discovery filters on the
      configured inventory tag and value, and an instance tag is taken as a
      master (worker) tag exactly when its key and value are the configured
      master (worker) strings. */
  lemma ConfiguredSpecSemantics(config: Config.Config, tag: Tag)
    requires config.aws.Some?
    ensures var node := config.aws.value.ec2.node;
            var r := TagSpecFromConfig(config);
            && r.Success?
            && ToFilter(r.value.node) == Filter("tag:" + node.tag.key, [node.tag.value])
            && (Matches(r.value.masterNode, tag) <==> tag.key == Some(node.master.tag.key) && tag.value == Some(node.master.tag.value))
            && (Matches(r.value.workerNode, tag) <==> tag.key == Some(node.worker.tag.key) && tag.value == Some(node.worker.tag.value))
  {
    var node := config.aws.value.ec2.node;
    ConfigAws.ConfigTagFilter(node.tag);
    ConfigAws.ConfigTagMatches(node.master.tag, tag);
    ConfigAws.ConfigTagMatches(node.worker.tag, tag);
  }

  // ---------------------------------------------------------------------
  // Categorization

  /** A tag that matches the master tag or the worker tag decides the
      instance's category. */
  predicate Decisive(spec: AwsTagSpec, tag: Tag)
  {
    Matches(spec.masterNode, tag) || Matches(spec.workerNode, tag)
  }

  /** `tags[i]` is the first deciding tag of the list. */
  predicate DecidedAt(spec: AwsTagSpec, tags: seq<Tag>, i: int)
  {
    && 0 <= i < |tags|
    && Decisive(spec, tags[i])
    && forall j :: 0 <= j < i ==> !Decisive(spec, tags[j])
  }

  /** The loop of `categorize` over a tag list. */
  function FirstCategory(spec: AwsTagSpec, tags: seq<Tag>): Option<NodeCategory>
    decreases |tags|
  {
    if |tags| == 0 then None
    else if Matches(spec.masterNode, tags[0]) then Some(Master)
    else if Matches(spec.workerNode, tags[0]) then Some(Worker)
    else FirstCategory(spec, tags[1..])
  }

  /** The first tag matching either filter decides, the master filter being
      tried first on it; with no such tag there is no category. */
  lemma {:induction false} FirstCategorySpec(spec: AwsTagSpec, tags: seq<Tag>)
    ensures FirstCategory(spec, tags).None? <==> forall i :: 0 <= i < |tags| ==> !Decisive(spec, tags[i])
    ensures FirstCategory(spec, tags).Some? ==> exists i :: DecidedAt(spec, tags, i)
    ensures forall i :: DecidedAt(spec, tags, i) ==>
              FirstCategory(spec, tags) == Some(if Matches(spec.masterNode, tags[i]) then Master else Worker)
    decreases |tags|
  {
    if |tags| > 0 {
      if Decisive(spec, tags[0]) {
        assert DecidedAt(spec, tags, 0);
      } else {
        FirstCategorySpec(spec, tags[1..]);
        assert forall i :: DecidedAt(spec, tags, i) ==> i > 0 && DecidedAt(spec, tags[1..], i - 1);
        assert forall i :: DecidedAt(spec, tags[1..], i) ==> DecidedAt(spec, tags, i + 1);
      }
    }
  }

  /** `categorize`: an instance without a tag list has no category. */
  function Categorize(spec: AwsTagSpec, inst: Instance): Option<NodeCategory>
  {
    match inst.tags
    case None => None
    case Some(tags) => FirstCategory(spec, tags)
  }

  /** An instance has no category exactly when it has no tag list or none
      of its tags matches either filter. */
  lemma CategorizeNone(spec: AwsTagSpec, inst: Instance)
    ensures Categorize(spec, inst).None? <==>
              inst.tags.None? || forall i :: 0 <= i < |inst.tags.value| ==> !Decisive(spec, inst.tags.value[i])
  {
    if inst.tags.Some? {
      FirstCategorySpec(spec, inst.tags.value);
    }
  }

  /** A tag matching both filters, if it is the first deciding tag, makes
      the instance a master. */
  lemma TieBreakIsMaster(spec: AwsTagSpec, inst: Instance, i: int)
    requires inst.tags.Some? && DecidedAt(spec, inst.tags.value, i)
    requires Matches(spec.masterNode, inst.tags.value[i]) && Matches(spec.workerNode, inst.tags.value[i])
    ensures Categorize(spec, inst) == Some(Master)
  {
    FirstCategorySpec(spec, inst.tags.value);
  }

  /** Tag order beats role order: a worker tag listed before a master tag
      makes the instance a worker. */
  lemma EarlierWorkerTagWins(spec: AwsTagSpec, w: Tag, m: Tag, rest: seq<Tag>)
    requires Matches(spec.workerNode, w) && !Matches(spec.masterNode, w)
    requires Matches(spec.masterNode, m)
    ensures Categorize(spec, Instance(None, None, Some([w, m] + rest))) == Some(Worker)
  {
    assert DecidedAt(spec, [w, m] + rest, 0);
  }

  // ---------------------------------------------------------------------
  // Selection of instances by category

  /** The instances of `insts` whose category is `c`, in order. */
  function Selected(spec: AwsTagSpec, insts: seq<Instance>, c: Option<NodeCategory>): seq<Instance>
    decreases |insts|
  {
    if |insts| == 0 then []
    else (if Categorize(spec, insts[0]) == c then [insts[0]] else []) + Selected(spec, insts[1..], c)
  }

  lemma {:induction false} SelectedAppend(spec: AwsTagSpec, a: seq<Instance>, b: seq<Instance>, c: Option<NodeCategory>)
    ensures Selected(spec, a + b, c) == Selected(spec, a, c) + Selected(spec, b, c)
    decreases |a|
  {
    if |a| > 0 {
      assert (a + b)[0] == a[0];
      assert (a + b)[1..] == a[1..] + b;
      SelectedAppend(spec, a[1..], b, c);
    } else {
      assert a + b == b;
    }
  }

  /** An instance is selected for `c` exactly when it occurs in the input
      with category `c`. */
  lemma {:induction false} SelectedExact(spec: AwsTagSpec, insts: seq<Instance>, c: Option<NodeCategory>)
    ensures forall x :: x in Selected(spec, insts, c) <==> x in insts && Categorize(spec, x) == c
    decreases |insts|
  {
    if |insts| > 0 {
      SelectedExact(spec, insts[1..], c);
      assert insts == [insts[0]] + insts[1..];
    }
  }

  /** The three selections partition the input: together they hold every
      instance exactly as often as the input does. */
  lemma {:induction false} SelectedPartition(spec: AwsTagSpec, insts: seq<Instance>)
    ensures multiset(Selected(spec, insts, Some(Master)))
          + multiset(Selected(spec, insts, Some(Worker)))
          + multiset(Selected(spec, insts, None))
         == multiset(insts)
    decreases |insts|
  {
    if |insts| > 0 {
      var x, rest := insts[0], insts[1..];
      SelectedPartition(spec, rest);
      assert multiset(insts) == multiset{x} + multiset(rest) by {
        assert insts == [x] + rest;
      }
      SelectedStep(spec, insts);
    }
  }

  /** One step of the partition: the first instance goes to exactly one of
      the three selections. */
  lemma SelectedStep(spec: AwsTagSpec, insts: seq<Instance>)
    requires |insts| > 0
    ensures multiset(Selected(spec, insts, Some(Master)))
          + multiset(Selected(spec, insts, Some(Worker)))
          + multiset(Selected(spec, insts, None))
         == multiset{insts[0]}
          + multiset(Selected(spec, insts[1..], Some(Master)))
          + multiset(Selected(spec, insts[1..], Some(Worker)))
          + multiset(Selected(spec, insts[1..], None))
  {
    var x, rest := insts[0], insts[1..];
    var m, w, u := Selected(spec, rest, Some(Master)), Selected(spec, rest, Some(Worker)), Selected(spec, rest, None);
    var one := multiset{x};
    match Categorize(spec, x)
    case None =>
      assert Selected(spec, insts, Some(Master)) == m;
      assert Selected(spec, insts, Some(Worker)) == w;
      assert Selected(spec, insts, None) == [x] + u;
      assert multiset(m) + multiset(w) + (one + multiset(u)) == one + multiset(m) + multiset(w) + multiset(u);
    case Some(Master) =>
      assert Selected(spec, insts, Some(Master)) == [x] + m;
      assert Selected(spec, insts, Some(Worker)) == w;
      assert Selected(spec, insts, None) == u;
    case Some(Worker) =>
      assert Selected(spec, insts, Some(Master)) == m;
      assert Selected(spec, insts, Some(Worker)) == [x] + w;
      assert Selected(spec, insts, None) == u;
      assert multiset(m) + (one + multiset(w)) + multiset(u) == one + multiset(m) + multiset(w) + multiset(u);
  }

  // ---------------------------------------------------------------------
  // Folding one page's instances into the node lists

  /** `nodes` are the conversions of `sources`, one for one. */
  predicate Converts(parse: string -> Option<IpAddr>, sources: seq<Instance>, nodes: seq<EC2>)
  {
    && |sources| == |nodes|
    && forall k :: 0 <= k < |nodes| ==> TryFromInstance(sources[k], parse) == Success(nodes[k])
  }

  /** `whole` is `prefix` followed by the conversions of `sources`. */
  predicate Extends(prefix: seq<EC2>, whole: seq<EC2>, parse: string -> Option<IpAddr>, sources: seq<Instance>)
  {
    && |prefix| <= |whole|
    && whole[..|prefix|] == prefix
    && Converts(parse, sources, whole[|prefix|..])
  }

  /** Every categorized instance converts. */
  predicate Clean(spec: AwsTagSpec, parse: string -> Option<IpAddr>, insts: seq<Instance>)
  {
    forall k :: 0 <= k < |insts| && Categorize(spec, insts[k]).Some? ==> TryFromInstance(insts[k], parse).Success?
  }

  /** `insts[k]` is the first categorized instance that fails conversion. */
  predicate FailsFirstAt(spec: AwsTagSpec, parse: string -> Option<IpAddr>, insts: seq<Instance>, k: int)
  {
    && 0 <= k < |insts|
    && Categorize(spec, insts[k]).Some?
    && TryFromInstance(insts[k], parse).Failure?
    && Clean(spec, parse, insts[..k])
  }

  function Push(acc: ClusterNodes<EC2>, c: NodeCategory, node: EC2): ClusterNodes<EC2>
  {
    match c
    case Master => acc.(master := acc.master + [node])
    case Worker => acc.(worker := acc.worker + [node])
  }

  /** The inner loops of `list_nodes` over one page: categorize each
      instance; skip it if uncategorized, otherwise convert it (aborting on
      failure) and push it onto its role's list. */
  function CollectInstances(spec: AwsTagSpec, parse: string -> Option<IpAddr>, insts: seq<Instance>, acc: ClusterNodes<EC2>)
    : Result<ClusterNodes<EC2>, Error>
    decreases |insts|
  {
    if |insts| == 0 then Success(acc)
    else
      match Categorize(spec, insts[0])
      case None => CollectInstances(spec, parse, insts[1..], acc)
      case Some(c) =>
        match TryFromInstance(insts[0], parse)
        case Failure(e) => Failure(e)
        case Success(node) => CollectInstances(spec, parse, insts[1..], Push(acc, c, node))
  }

  lemma CleanCons(spec: AwsTagSpec, parse: string -> Option<IpAddr>, insts: seq<Instance>)
    requires |insts| > 0
    ensures Clean(spec, parse, insts) <==>
              (Categorize(spec, insts[0]).Some? ==> TryFromInstance(insts[0], parse).Success?)
              && Clean(spec, parse, insts[1..])
  {
    if Clean(spec, parse, insts[1..]) && (Categorize(spec, insts[0]).Some? ==> TryFromInstance(insts[0], parse).Success?) {
      forall k | 0 <= k < |insts| && Categorize(spec, insts[k]).Some?
        ensures TryFromInstance(insts[k], parse).Success?
      {
        if k > 0 { assert insts[k] == insts[1..][k - 1]; }
      }
    }
  }

  lemma FailsFirstShift(spec: AwsTagSpec, parse: string -> Option<IpAddr>, insts: seq<Instance>, k: int)
    requires |insts| > 0
    requires Categorize(spec, insts[0]).Some? ==> TryFromInstance(insts[0], parse).Success?
    requires FailsFirstAt(spec, parse, insts[1..], k)
    ensures FailsFirstAt(spec, parse, insts, k + 1)
  {
    var pre := insts[..k + 1];
    assert pre[0] == insts[0];
    assert pre[1..] == insts[1..][..k];
    CleanCons(spec, parse, pre);
  }

  lemma ExtendsEmpty(prefix: seq<EC2>, parse: string -> Option<IpAddr>)
    ensures Extends(prefix, prefix, parse, [])
  {
  }

  lemma ExtendsCons(prefix: seq<EC2>, node: EC2, whole: seq<EC2>, parse: string -> Option<IpAddr>,
                    x: Instance, sources: seq<Instance>)
    requires TryFromInstance(x, parse) == Success(node)
    requires Extends(prefix + [node], whole, parse, sources)
    ensures Extends(prefix, whole, parse, [x] + sources)
  {
    var p := prefix + [node];
    assert whole[..|prefix|] == whole[..|p|][..|prefix|];
    assert whole[|prefix|..] == [node] + whole[|p|..] by {
      assert whole[|prefix|] == whole[..|p|][|prefix|] == node;
    }
  }

  lemma ExtendsTrans(p: seq<EC2>, m: seq<EC2>, w: seq<EC2>, parse: string -> Option<IpAddr>,
                     s1: seq<Instance>, s2: seq<Instance>)
    requires Extends(p, m, parse, s1)
    requires Extends(m, w, parse, s2)
    ensures Extends(p, w, parse, s1 + s2)
  {
    assert w[..|p|] == w[..|m|][..|p|];
    assert w[|p|..] == m[|p|..] + w[|m|..] by {
      assert w[|p|..] == w[..|m|][|p|..] + w[|m|..];
    }
    var tail := w[|p|..];
    forall k | 0 <= k < |tail|
      ensures TryFromInstance((s1 + s2)[k], parse) == Success(tail[k])
    {
      if k < |s1| {
        assert tail[k] == m[|p|..][k];
      } else {
        assert tail[k] == w[|m|..][k - |s1|];
      }
    }
  }

  /** What folding one page does: it succeeds exactly when every
      categorized instance converts; then each role list is extended by the
      conversions of that role's instances, in page order; otherwise it
      fails with the error of the first categorized instance that does not
      convert. Uncategorized instances are never converted. */
  lemma {:induction false} CollectInstancesSpec(spec: AwsTagSpec, parse: string -> Option<IpAddr>,
                                                 insts: seq<Instance>, acc: ClusterNodes<EC2>)
    ensures var r := CollectInstances(spec, parse, insts, acc);
            && (r.Success? <==> Clean(spec, parse, insts))
            && (r.Success? ==>
                  && Extends(acc.master, r.value.master, parse, Selected(spec, insts, Some(Master)))
                  && Extends(acc.worker, r.value.worker, parse, Selected(spec, insts, Some(Worker))))
            && (r.Failure? ==>
                  exists k :: FailsFirstAt(spec, parse, insts, k) && r.error == TryFromInstance(insts[k], parse).error)
    decreases |insts|
  {
    var r := CollectInstances(spec, parse, insts, acc);
    if |insts| == 0 {
      ExtendsEmpty(acc.master, parse);
      ExtendsEmpty(acc.worker, parse);
    } else {
      var x := insts[0];
      var rest := insts[1..];
      CleanCons(spec, parse, insts);
      match Categorize(spec, x)
      case None =>
        CollectInstancesSpec(spec, parse, rest, acc);
        assert Selected(spec, insts, Some(Master)) == Selected(spec, rest, Some(Master));
        assert Selected(spec, insts, Some(Worker)) == Selected(spec, rest, Some(Worker));
        if r.Failure? {
          var k :| FailsFirstAt(spec, parse, rest, k) && r.error == TryFromInstance(rest[k], parse).error;
          FailsFirstShift(spec, parse, insts, k);
          assert rest[k] == insts[k + 1];
        }
      case Some(c) =>
        match TryFromInstance(x, parse)
        case Failure(e) =>
          assert FailsFirstAt(spec, parse, insts, 0);
        case Success(node) =>
          var acc' := Push(acc, c, node);
          CollectInstancesSpec(spec, parse, rest, acc');
          if r.Success? {
            if c == Master {
              assert Selected(spec, insts, Some(Master)) == [x] + Selected(spec, rest, Some(Master));
              assert Selected(spec, insts, Some(Worker)) == Selected(spec, rest, Some(Worker));
              ExtendsCons(acc.master, node, r.value.master, parse, x, Selected(spec, rest, Some(Master)));
            } else {
              assert Selected(spec, insts, Some(Worker)) == [x] + Selected(spec, rest, Some(Worker));
              assert Selected(spec, insts, Some(Master)) == Selected(spec, rest, Some(Master));
              ExtendsCons(acc.worker, node, r.value.worker, parse, x, Selected(spec, rest, Some(Worker)));
            }
          } else {
            var k :| FailsFirstAt(spec, parse, rest, k) && r.error == TryFromInstance(rest[k], parse).error;
            FailsFirstShift(spec, parse, insts, k);
            assert rest[k] == insts[k + 1];
          }
    }
  }

  // ---------------------------------------------------------------------
  // Paginated discovery

  /** The page size `list_nodes` asks for. */
  const MaxResults: int := 1000

  /** One `DescribeInstances` request: the inventory filter, the page size
      and the continuation token. */
  datatype Query = Query(filter: Filter, maxResults: int, nextToken: Option<string>)

  /** The answer to one request: a page, or the SDK's error. */
  type Response = Result<DescribeInstancesOutput, string>

  /** The requests `list_nodes` sent, in order, and what it returned. */
  datatype Listing = Listing(queries: seq<Query>, outcome: Result<ClusterNodes<EC2>, Error>)

  /** A response after which the loop does not query again. */
  predicate Stops(r: Response)
  {
    r.Failure? || r.value.nextToken.None?
  }

  /** The provider eventually answers with an error or a last page. */
  predicate HasLastPage(responses: seq<Response>)
  {
    exists i :: 0 <= i < |responses| && Stops(responses[i])
  }

  lemma HasLastPageTail(responses: seq<Response>)
    requires HasLastPage(responses) && !Stops(responses[0])
    ensures HasLastPage(responses[1..])
  {
    var i :| 0 <= i < |responses| && Stops(responses[i]);
    assert responses[1..][i - 1] == responses[i];
  }

  /** The loop of `list_nodes` from the request carrying `token`, with the
      node lists built so far in `acc`. `responses[0]` answers that
      request. */
  function Paginate(spec: AwsTagSpec, parse: string -> Option<IpAddr>, responses: seq<Response>,
                    token: Option<string>, acc: ClusterNodes<EC2>): (l: Listing)
    requires HasLastPage(responses)
    ensures 1 <= |l.queries| <= |responses|
    decreases |responses|
  {
    var query := Query(ToFilter(spec.node), MaxResults, token);
    match responses[0]
    case Failure(cause) => Listing([query], Failure(Sdk(cause)))
    case Success(page) =>
      match CollectInstances(spec, parse, PageInstances(page), acc)
      case Failure(e) => Listing([query], Failure(e))
      case Success(acc') =>
        if page.nextToken.None? then Listing([query], Success(acc'))
        else
          HasLastPageTail(responses);
          var rest := Paginate(spec, parse, responses[1..], page.nextToken, acc');
          Listing([query] + rest.queries, rest.outcome)
  }

  /** `AwsOperator::list_nodes`: the first request carries no token and
      the node lists start empty. */
  function ListNodes(spec: AwsTagSpec, parse: string -> Option<IpAddr>, responses: seq<Response>): (l: Listing)
    requires HasLastPage(responses)
    ensures 1 <= |l.queries| <= |responses|
  {
    Paginate(spec, parse, responses, None, ClusterNodes([], []))
  }

  /** Every instance of the pages of `responses` (error answers have none). */
  function Fetched(responses: seq<Response>): seq<Instance>
    decreases |responses|
  {
    if |responses| == 0 then []
    else
      (match responses[0] case Success(page) => PageInstances(page) case Failure(_) => [])
      + Fetched(responses[1..])
  }

  /** `resp` was a clean page with a continuation token, and `next` is the
      request that follows it. */
  predicate Continued(spec: AwsTagSpec, parse: string -> Option<IpAddr>, resp: Response, next: Query)
  {
    && resp.Success?
    && Clean(spec, parse, PageInstances(resp.value))
    && resp.value.nextToken.Some?
    && next == Query(ToFilter(spec.node), MaxResults, resp.value.nextToken)
  }

  /** `resp` was a clean page without a continuation token. */
  predicate FinalPage(spec: AwsTagSpec, parse: string -> Option<IpAddr>, resp: Response)
  {
    && resp.Success?
    && Clean(spec, parse, PageInstances(resp.value))
    && resp.value.nextToken.None?
  }

  /** `resp` made the loop fail with `e`: the request failed, or the page
      holds a categorized instance that does not convert, `e` being the
      error of the first such instance. */
  predicate Aborted(spec: AwsTagSpec, parse: string -> Option<IpAddr>, resp: Response, e: Error)
  {
    || (resp.Failure? && e == Sdk(resp.error))
    || (&& resp.Success?
        && exists k :: 0 <= k < |PageInstances(resp.value)|
                    && FailsFirstAt(spec, parse, PageInstances(resp.value), k)
                    && e == TryFromInstance(PageInstances(resp.value)[k], parse).error)
  }

  lemma FetchedStep(responses: seq<Response>, page: DescribeInstancesOutput, n: int)
    requires 1 <= n <= |responses| && responses[0] == Success(page)
    ensures Fetched(responses[..n]) == PageInstances(page) + Fetched(responses[1..][..n - 1])
  {
    assert responses[..n][0] == responses[0];
    assert responses[..n][1..] == responses[1..][..n - 1];
  }

  /** The requests of the loop from one carrying `token`: each is answered
      by the next response, and the loop queries again, with the previous
      page's token, exactly after a clean page that has a token. */
  lemma {:induction false} PaginateQueries(spec: AwsTagSpec, parse: string -> Option<IpAddr>, responses: seq<Response>,
                                           token: Option<string>, acc: ClusterNodes<EC2>)
    requires HasLastPage(responses)
    ensures var l := Paginate(spec, parse, responses, token, acc);
            && l.queries[0] == Query(ToFilter(spec.node), MaxResults, token)
            && (forall k :: 0 <= k < |l.queries| - 1 ==> Continued(spec, parse, responses[k], l.queries[k + 1]))
    ensures var l := Paginate(spec, parse, responses, token, acc);
            var last := responses[|l.queries| - 1];
            !(last.Success? && Clean(spec, parse, PageInstances(last.value)) && last.value.nextToken.Some?)
    decreases |responses|
  {
    var l := Paginate(spec, parse, responses, token, acc);
    if responses[0].Success? {
      CollectInstancesSpec(spec, parse, PageInstances(responses[0].value), acc);
    }
    if |l.queries| > 1 {
      var page := responses[0].value;
      var insts := PageInstances(page);
      CollectInstancesSpec(spec, parse, insts, acc);
      var acc' := CollectInstances(spec, parse, insts, acc).value;
      HasLastPageTail(responses);
      var tail := responses[1..];
      var rest := Paginate(spec, parse, tail, page.nextToken, acc');
      PaginateQueries(spec, parse, tail, page.nextToken, acc');
      assert l.queries == [Query(ToFilter(spec.node), MaxResults, token)] + rest.queries;
      assert Continued(spec, parse, responses[0], l.queries[1]);
      ContinuedShift(spec, parse, responses, l.queries, rest.queries);
    }
  }

  lemma ContinuedShift(spec: AwsTagSpec, parse: string -> Option<IpAddr>, responses: seq<Response>,
                        queries: seq<Query>, later: seq<Query>)
    requires 1 <= |responses| && |queries| == 1 + |later| && |later| <= |responses| - 1
    requires queries[1..] == later
    requires |queries| > 1 ==> Continued(spec, parse, responses[0], queries[1])
    requires forall k :: 0 <= k < |later| - 1 ==> Continued(spec, parse, responses[1..][k], later[k + 1])
    ensures forall k :: 0 <= k < |queries| - 1 ==> Continued(spec, parse, responses[k], queries[k + 1])
  {
    forall k | 0 <= k < |queries| - 1
      ensures Continued(spec, parse, responses[k], queries[k + 1])
    {
      if k > 0 {
        assert responses[k] == responses[1..][k - 1];
        assert queries[k + 1] == later[k];
      }
    }
  }

  /** The outcome of the loop from a request carrying `token`, `n` being
      the number of requests it sent: it succeeds on a clean page without
      token, having appended to each role list the conversions of that
      role's instances over all pages read; it fails on the first failed
      request or unconvertible categorized instance. */
  predicate OutcomeHolds(spec: AwsTagSpec, parse: string -> Option<IpAddr>, responses: seq<Response>,
                         token: Option<string>, acc: ClusterNodes<EC2>)
    requires HasLastPage(responses)
  {
    var l := Paginate(spec, parse, responses, token, acc);
    var n := |l.queries|;
    && (l.outcome.Success? ==>
          && FinalPage(spec, parse, responses[n - 1])
          && Extends(acc.master, l.outcome.value.master, parse, Selected(spec, Fetched(responses[..n]), Some(Master)))
          && Extends(acc.worker, l.outcome.value.worker, parse, Selected(spec, Fetched(responses[..n]), Some(Worker))))
    && (l.outcome.Failure? ==> Aborted(spec, parse, responses[n - 1], l.outcome.error))
  }

  lemma {:induction false} PaginateOutcome(spec: AwsTagSpec, parse: string -> Option<IpAddr>, responses: seq<Response>,
                                           token: Option<string>, acc: ClusterNodes<EC2>)
    requires HasLastPage(responses)
    ensures OutcomeHolds(spec, parse, responses, token, acc)
    decreases |responses|
  {
    if responses[0].Success? {
      var page := responses[0].value;
      var insts := PageInstances(page);
      var collected := CollectInstances(spec, parse, insts, acc);
      if collected.Failure? {
        PaginateOutcomeBadPage(spec, parse, responses, token, acc);
      } else if page.nextToken.None? {
        PaginateOutcomeLastPage(spec, parse, responses, token, acc, collected.value);
      } else {
        HasLastPageTail(responses);
        PaginateOutcome(spec, parse, responses[1..], page.nextToken, collected.value);
        PaginateOutcomeStep(spec, parse, responses, token, acc, collected.value);
      }
    }
  }

  /** A page holding an unconvertible categorized instance ends the loop
      with that instance's error. */
  lemma PaginateOutcomeBadPage(spec: AwsTagSpec, parse: string -> Option<IpAddr>, responses: seq<Response>,
                               token: Option<string>, acc: ClusterNodes<EC2>)
    requires HasLastPage(responses) && responses[0].Success?
    requires CollectInstances(spec, parse, PageInstances(responses[0].value), acc).Failure?
    ensures OutcomeHolds(spec, parse, responses, token, acc)
  {
    CollectInstancesSpec(spec, parse, PageInstances(responses[0].value), acc);
  }

  /** A clean page without token ends the loop with what it added. */
  lemma PaginateOutcomeLastPage(spec: AwsTagSpec, parse: string -> Option<IpAddr>, responses: seq<Response>,
                                token: Option<string>, acc: ClusterNodes<EC2>, acc': ClusterNodes<EC2>)
    requires HasLastPage(responses) && responses[0].Success? && responses[0].value.nextToken.None?
    requires CollectInstances(spec, parse, PageInstances(responses[0].value), acc) == Success(acc')
    ensures OutcomeHolds(spec, parse, responses, token, acc)
  {
    var insts := PageInstances(responses[0].value);
    CollectInstancesSpec(spec, parse, insts, acc);
    FetchedStep(responses, responses[0].value, 1);
    assert insts + [] == insts;
  }

  /** The recursive case of `PaginateOutcome`: a clean first page with a
      token, followed by what the rest of the loop does. */
  lemma PaginateOutcomeStep(spec: AwsTagSpec, parse: string -> Option<IpAddr>, responses: seq<Response>,
                            token: Option<string>, acc: ClusterNodes<EC2>, acc': ClusterNodes<EC2>)
    requires HasLastPage(responses) && responses[0].Success? && responses[0].value.nextToken.Some?
    requires CollectInstances(spec, parse, PageInstances(responses[0].value), acc) == Success(acc')
    requires HasLastPage(responses[1..])
    requires OutcomeHolds(spec, parse, responses[1..], responses[0].value.nextToken, acc')
    ensures OutcomeHolds(spec, parse, responses, token, acc)
  {
    var page := responses[0].value;
    var tail := responses[1..];
    var l := Paginate(spec, parse, responses, token, acc);
    var rest := Paginate(spec, parse, tail, page.nextToken, acc');
    var n := |l.queries|;
    assert n == 1 + |rest.queries| && l.outcome == rest.outcome;
    assert responses[n - 1] == tail[n - 2];
    if l.outcome.Success? {
      CollectInstancesSpec(spec, parse, PageInstances(page), acc);
      PaginateOutcomeJoin(spec, parse, responses, page, acc, acc', l.outcome.value, n);
    }
  }

  /** The accumulation step of `PaginateOutcome`: what the first page added
      followed by what the later pages added. */
  lemma PaginateOutcomeJoin(spec: AwsTagSpec, parse: string -> Option<IpAddr>, responses: seq<Response>,
                            page: DescribeInstancesOutput, acc: ClusterNodes<EC2>, acc': ClusterNodes<EC2>,
                            final: ClusterNodes<EC2>, n: int)
    requires 2 <= n <= |responses| && responses[0] == Success(page)
    requires Extends(acc.master, acc'.master, parse, Selected(spec, PageInstances(page), Some(Master)))
    requires Extends(acc.worker, acc'.worker, parse, Selected(spec, PageInstances(page), Some(Worker)))
    requires Extends(acc'.master, final.master, parse, Selected(spec, Fetched(responses[1..][..n - 1]), Some(Master)))
    requires Extends(acc'.worker, final.worker, parse, Selected(spec, Fetched(responses[1..][..n - 1]), Some(Worker)))
    ensures Extends(acc.master, final.master, parse, Selected(spec, Fetched(responses[..n]), Some(Master)))
    ensures Extends(acc.worker, final.worker, parse, Selected(spec, Fetched(responses[..n]), Some(Worker)))
  {
    var insts := PageInstances(page);
    FetchedStep(responses, page, n);
    var later := Fetched(responses[1..][..n - 1]);
    SelectedAppend(spec, insts, later, Some(Master));
    SelectedAppend(spec, insts, later, Some(Worker));
    ExtendsTrans(acc.master, acc'.master, final.master, parse,
                 Selected(spec, insts, Some(Master)), Selected(spec, later, Some(Master)));
    ExtendsTrans(acc.worker, acc'.worker, final.worker, parse,
                 Selected(spec, insts, Some(Worker)), Selected(spec, later, Some(Worker)));
  }

  lemma FailsFirstNotClean(spec: AwsTagSpec, parse: string -> Option<IpAddr>, insts: seq<Instance>, k: int)
    requires FailsFirstAt(spec, parse, insts, k)
    ensures !Clean(spec, parse, insts)
  {
  }

  /** `list_nodes` requests: the first carries no token; every one uses
      the inventory filter and the page size; the loop queries again, with
      the previous page's token, exactly after a clean page that has a
      token. */
  lemma ListNodesQueries(spec: AwsTagSpec, parse: string -> Option<IpAddr>, responses: seq<Response>)
    requires HasLastPage(responses)
    ensures var l := ListNodes(spec, parse, responses);
            var n := |l.queries|;
            && l.queries[0].nextToken.None?
            && (forall k :: 0 <= k < n ==> l.queries[k].filter == ToFilter(spec.node) && l.queries[k].maxResults == MaxResults)
            && (forall k :: 0 <= k < n - 1 ==> Continued(spec, parse, responses[k], l.queries[k + 1]))
            && !(responses[n - 1].Success? && Clean(spec, parse, PageInstances(responses[n - 1].value))
                 && responses[n - 1].value.nextToken.Some?)
  {
    var l := ListNodes(spec, parse, responses);
    PaginateQueries(spec, parse, responses, None, ClusterNodes([], []));
    forall k | 0 <= k < |l.queries|
      ensures l.queries[k].filter == ToFilter(spec.node) && l.queries[k].maxResults == MaxResults
    {
      if k > 0 {
        assert Continued(spec, parse, responses[k - 1], l.queries[k]);
      }
    }
  }

  /** `list_nodes` result: it succeeds exactly when the last response read
      is a clean page without token, and then the master list is the
      conversion, in page order, of every instance read that is categorized
      master, and likewise for workers. Otherwise the last response read
      holds its error: the failed request's, or the first unconvertible
      categorized instance's. */
  lemma ListNodesOutcome(spec: AwsTagSpec, parse: string -> Option<IpAddr>, responses: seq<Response>)
    requires HasLastPage(responses)
    ensures var l := ListNodes(spec, parse, responses);
            var n := |l.queries|;
            var seen := Fetched(responses[..n]);
            && (l.outcome.Success? <==> FinalPage(spec, parse, responses[n - 1]))
            && (l.outcome.Success? ==>
                  && Converts(parse, Selected(spec, seen, Some(Master)), l.outcome.value.master)
                  && Converts(parse, Selected(spec, seen, Some(Worker)), l.outcome.value.worker))
            && (l.outcome.Failure? ==> Aborted(spec, parse, responses[n - 1], l.outcome.error))
  {
    var l := ListNodes(spec, parse, responses);
    var n := |l.queries|;
    PaginateOutcome(spec, parse, responses, None, ClusterNodes([], []));
    assert OutcomeHolds(spec, parse, responses, None, ClusterNodes([], []));
    if l.outcome.Success? {
      var c := l.outcome.value;
      assert c.master[0..] == c.master && c.worker[0..] == c.worker;
    } else if responses[n - 1].Success? {
      var insts := PageInstances(responses[n - 1].value);
      var k :| 0 <= k < |insts| && FailsFirstAt(spec, parse, insts, k);
      FailsFirstNotClean(spec, parse, insts, k);
    }
  }

  /** `node` is the conversion of an instance read with category `cat`. */
  predicate ConvertedFrom(spec: AwsTagSpec, parse: string -> Option<IpAddr>, seen: seq<Instance>,
                          cat: NodeCategory, node: EC2)
  {
    exists x :: x in seen && Categorize(spec, x) == Some(cat) && TryFromInstance(x, parse) == Success(node)
  }

  /** Discovery yields a partition: every master is the conversion of an
      instance read and categorized master, every worker likewise, and every
      instance read is either listed once or is uncategorized and in neither
      list. */
  lemma ListNodesPartition(spec: AwsTagSpec, parse: string -> Option<IpAddr>, responses: seq<Response>)
    requires HasLastPage(responses)
    requires ListNodes(spec, parse, responses).outcome.Success?
    ensures var l := ListNodes(spec, parse, responses);
            var c := l.outcome.value;
            var seen := Fetched(responses[..|l.queries|]);
            && (forall i :: 0 <= i < |c.master| ==> ConvertedFrom(spec, parse, seen, Master, c.master[i]))
            && (forall i :: 0 <= i < |c.worker| ==> ConvertedFrom(spec, parse, seen, Worker, c.worker[i]))
            && |c.master| + |c.worker| + |Selected(spec, seen, None)| == |seen|
            && (forall x :: x in seen && Categorize(spec, x).None? ==>
                  x !in Selected(spec, seen, Some(Master)) && x !in Selected(spec, seen, Some(Worker)))
  {
    var l := ListNodes(spec, parse, responses);
    var c := l.outcome.value;
    var seen := Fetched(responses[..|l.queries|]);
    ListNodesOutcome(spec, parse, responses);
    ConvertedSources(spec, parse, seen, Master, c.master);
    ConvertedSources(spec, parse, seen, Worker, c.worker);
    PartitionCounts(spec, seen, |c.master|, |c.worker|);
  }

  /** When the instances read carry distinct ids, no id is listed both as a
      master and as a worker. `list_nodes` removes no duplicates, so this
      rests on the provider's ids alone. */
  lemma ListNodesDisjoint(spec: AwsTagSpec, parse: string -> Option<IpAddr>, responses: seq<Response>)
    requires HasLastPage(responses)
    requires ListNodes(spec, parse, responses).outcome.Success?
    requires var seen := Fetched(responses[..|ListNodes(spec, parse, responses).queries|]);
             forall a, b :: 0 <= a < b < |seen| ==> seen[a].instanceId != seen[b].instanceId
    ensures var c := ListNodes(spec, parse, responses).outcome.value;
            forall i, j :: 0 <= i < |c.master| && 0 <= j < |c.worker| ==> Id(c.master[i]) != Id(c.worker[j])
  {
    var l := ListNodes(spec, parse, responses);
    var c := l.outcome.value;
    var seen := Fetched(responses[..|l.queries|]);
    ListNodesPartition(spec, parse, responses);
    forall i, j | 0 <= i < |c.master| && 0 <= j < |c.worker|
      ensures Id(c.master[i]) != Id(c.worker[j])
    {
      assert ConvertedFrom(spec, parse, seen, Master, c.master[i]);
      assert ConvertedFrom(spec, parse, seen, Worker, c.worker[j]);
      var x :| x in seen && Categorize(spec, x) == Some(Master) && TryFromInstance(x, parse) == Success(c.master[i]);
      var y :| y in seen && Categorize(spec, y) == Some(Worker) && TryFromInstance(y, parse) == Success(c.worker[j]);
      var a :| 0 <= a < |seen| && seen[a] == x;
      var b :| 0 <= b < |seen| && seen[b] == y;
      assert a != b;
      assert seen[a].instanceId != seen[b].instanceId;
    }
  }

  /** Without distinct ids the lists can share one: two records with id
      `i-1` on one last page, tagged master and worker, list `i-1` twice. */
  lemma ListNodesCanRepeatId()
    ensures var spec := AwsTagSpec(AwsTag("k8s", Some("node")), AwsTag("role", Some("master")), AwsTag("role", Some("worker")));
            var m := Instance(Some("i-1"), None, Some([Tag(Some("role"), Some("master"))]));
            var w := Instance(Some("i-1"), None, Some([Tag(Some("role"), Some("worker"))]));
            var responses := [Success(DescribeInstancesOutput(Some([Reservation(Some([m, w]))]), None))];
            HasLastPage(responses)
            && ListNodes(spec, (t: string) => None, responses).outcome == Success(ClusterNodes([EC2("i-1", None)], [EC2("i-1", None)]))
  {
    var spec := AwsTagSpec(AwsTag("k8s", Some("node")), AwsTag("role", Some("master")), AwsTag("role", Some("worker")));
    var parse := (t: string) => None;
    var m := Instance(Some("i-1"), None, Some([Tag(Some("role"), Some("master"))]));
    var w := Instance(Some("i-1"), None, Some([Tag(Some("role"), Some("worker"))]));
    var page := DescribeInstancesOutput(Some([Reservation(Some([m, w]))]), None);
    var responses: seq<Response> := [Success(page)];
    assert Stops(responses[0]);
    assert HasLastPage(responses);
    assert PageInstances(page) == [m, w] by {
      assert ReservationInstances([Reservation(Some([m, w]))]) == [m, w] + ReservationInstances([]);
    }
    FirstCategorySpec(spec, [Tag(Some("role"), Some("master"))]);
    FirstCategorySpec(spec, [Tag(Some("role"), Some("worker"))]);
    assert Categorize(spec, m) == Some(Master) by {
      assert DecidedAt(spec, [Tag(Some("role"), Some("master"))], 0);
    }
    assert Categorize(spec, w) == Some(Worker) by {
      assert DecidedAt(spec, [Tag(Some("role"), Some("worker"))], 0);
      assert !Matches(spec.masterNode, Tag(Some("role"), Some("worker"))) by {
        assert "worker"[0] != "master"[0];
      }
    }
    var empty := ClusterNodes([], []);
    var afterM := ClusterNodes([EC2("i-1", None)], []);
    assert [m, w][1..] == [w] && [w][1..] == [];
    var both := ClusterNodes([EC2("i-1", None)], [EC2("i-1", None)]);
    assert TryFromInstance(m, parse) == Success(EC2("i-1", None));
    assert TryFromInstance(w, parse) == Success(EC2("i-1", None));
    assert Push(empty, Master, EC2("i-1", None)) == afterM;
    assert Push(afterM, Worker, EC2("i-1", None)) == both;
    assert CollectInstances(spec, parse, [], both) == Success(both);
    assert CollectInstances(spec, parse, [w], afterM) == Success(ClusterNodes([EC2("i-1", None)], [EC2("i-1", None)]));
    assert CollectInstances(spec, parse, [m, w], empty) == Success(ClusterNodes([EC2("i-1", None)], [EC2("i-1", None)]));
  }

  /** Each node converted from a selection comes from an instance read with
      that category. */
  lemma ConvertedSources(spec: AwsTagSpec, parse: string -> Option<IpAddr>, seen: seq<Instance>,
                         cat: NodeCategory, nodes: seq<EC2>)
    requires Converts(parse, Selected(spec, seen, Some(cat)), nodes)
    ensures forall i :: 0 <= i < |nodes| ==> ConvertedFrom(spec, parse, seen, cat, nodes[i])
  {
    var sel := Selected(spec, seen, Some(cat));
    SelectedExact(spec, seen, Some(cat));
    forall i | 0 <= i < |nodes|
      ensures ConvertedFrom(spec, parse, seen, cat, nodes[i])
    {
      assert sel[i] in sel;
    }
  }

  /** The master and worker selections and the uncategorized instances
      account for every instance read, and an uncategorized instance is in
      neither selection. */
  lemma PartitionCounts(spec: AwsTagSpec, seen: seq<Instance>, masters: nat, workers: nat)
    requires masters == |Selected(spec, seen, Some(Master))| && workers == |Selected(spec, seen, Some(Worker))|
    ensures masters + workers + |Selected(spec, seen, None)| == |seen|
    ensures forall x :: x in seen && Categorize(spec, x).None? ==>
              x !in Selected(spec, seen, Some(Master)) && x !in Selected(spec, seen, Some(Worker))
  {
    SelectedExact(spec, seen, Some(Master));
    SelectedExact(spec, seen, Some(Worker));
    SelectedPartition(spec, seen);
    var ms, ws, ns := Selected(spec, seen, Some(Master)), Selected(spec, seen, Some(Worker)), Selected(spec, seen, None);
    assert |multiset(ms) + multiset(ws) + multiset(ns)| == |multiset(ms)| + |multiset(ws)| + |multiset(ns)|;
    assert |multiset(seen)| == masters + workers + |ns|;
  }

  // ---------------------------------------------------------------------
  // Batch start / stop

  /** `ChangeInstanceState` */
  datatype ChangeInstanceState = Start | Stop

  /** A `StartInstances` or `StopInstances` request and its id list. */
  datatype StateRequest = StateRequest(change: ChangeInstanceState, instanceIds: seq<string>)

  /** The requests sent and the result returned. */
  datatype StateChange = StateChange(calls: seq<StateRequest>, result: Result<(), Error>)

  /** `change_instances_state`: with no ids, no request and success;
      otherwise one request with `node_ids()` in order, whose SDK outcome
      (`send`) decides the result. */
  function ChangeInstancesState(nodes: ClusterNodes<EC2>, change: ChangeInstanceState, send: Result<(), string>)
    : (r: StateChange)
    ensures r.calls == [] <==> nodes.master == [] && nodes.worker == []
    ensures r.calls == [] ==> r.result == Success(())
    ensures r.calls != [] ==>
              && r.calls == [StateRequest(change, NodeIds(nodes))]
              && |r.calls[0].instanceIds| == |nodes.master| + |nodes.worker|
              && r.result == (if send.Success? then Success(()) else Failure(Sdk(send.error)))
  {
    NodeIdsEmpty(nodes);
    NodeIdsOrder(nodes);
    var ids := NodeIds(nodes);
    if |ids| == 0 then StateChange([], Success(()))
    else
      match send
      case Failure(cause) => StateChange([StateRequest(change, ids)], Failure(Sdk(cause)))
      case Success(_) => StateChange([StateRequest(change, ids)], Success(()))
  }

  /** `start_nodes` */
  function StartNodes(nodes: ClusterNodes<EC2>, send: Result<(), string>): (r: StateChange)
    ensures forall i :: 0 <= i < |r.calls| ==> r.calls[i].change == Start
    ensures r.result.Failure? ==> send.Failure?
  {
    ChangeInstancesState(nodes, Start, send)
  }

  /** `stop_nodes` */
  function StopNodes(nodes: ClusterNodes<EC2>, send: Result<(), string>): (r: StateChange)
    ensures forall i :: 0 <= i < |r.calls| ==> r.calls[i].change == Stop
    ensures r.result.Failure? ==> send.Failure?
  {
    ChangeInstancesState(nodes, Stop, send)
  }
}
