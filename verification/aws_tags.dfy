/** Tag predicates of `src/operator/aws.rs`: `AwsTag`, its translation into
    a `DescribeInstances` filter, its comparison with an instance tag, and
    the three-tag `AwsTagSpec`. */
module AwsTags {
  import opened Wrappers
  import opened Ec2Api

  /** A tag key, optionally with the value it must carry. */
  datatype AwsTag = AwsTag(key: string, value: Option<string>)

  /** `node` narrows the inventory query; `masterNode` and `workerNode`
      classify the returned instances. */
  datatype AwsTagSpec = AwsTagSpec(node: AwsTag, masterNode: AwsTag, workerNode: AwsTag)

  /** `AwsTag::key`: a key-only tag. */
  function KeyTag(key: string): (t: AwsTag)
    ensures t.key == key && t.value.None?
  {
    AwsTag(key, None)
  }

  /** `AwsTag::value`: the builder step that sets the value. */
  function WithValue(t: AwsTag, value: string): (r: AwsTag)
    ensures r.key == t.key && r.value == Some(value)
  {
    t.(value := Some(value))
  }

  /** `From<AwsTag> for Filter`. */
  function ToFilter(t: AwsTag): (f: Filter)
    ensures t.value.Some? ==> f.name == "tag:" + t.key && f.values == [t.value.value]
    ensures t.value.None? ==> f.name == "tag-key" && f.values == [t.key]
  {
    match t.value
    case Some(v) => Filter("tag:" + t.key, [v])
    case None => Filter("tag-key", [t.key])
  }

  /** `PartialEq<Tag> for AwsTag`: the instance tag's key must be present and
      equal, and the optional values must be equal. */
  predicate Matches(t: AwsTag, tag: Tag)
  {
    tag.key == Some(t.key) && tag.value == t.value
  }

  /** How EC2 compares a filter value with a tag key or value: `*` stands
      for any run of characters, `?` for zero or one character, and `\` makes
      the next character literal. */
  predicate WildcardMatch(pattern: string, s: string)
    decreases |pattern| + |s|
  {
    if |pattern| == 0 then |s| == 0
    else if pattern[0] == '*' then WildcardMatch(pattern[1..], s) || (|s| > 0 && WildcardMatch(pattern, s[1..]))
    else if pattern[0] == '?' then WildcardMatch(pattern[1..], s) || (|s| > 0 && WildcardMatch(pattern[1..], s[1..]))
    else if pattern[0] == '\\' && |pattern| >= 2 then
      |s| > 0 && s[0] == pattern[1] && WildcardMatch(pattern[2..], s[1..])
    else |s| > 0 && s[0] == pattern[0] && WildcardMatch(pattern[1..], s[1..])
  }

  /** A filter value EC2 reads as itself: no wildcard, no escape. */
  predicate Literal(pattern: string)
  {
    forall i :: 0 <= i < |pattern| ==> pattern[i] != '*' && pattern[i] != '?' && pattern[i] != '\\'
  }

  /** A literal filter value matches exactly the string it spells. */
  lemma {:induction false} LiteralMatchesItself(pattern: string, s: string)
    requires Literal(pattern)
    ensures WildcardMatch(pattern, s) <==> pattern == s
    decreases |pattern|
  {
    if |pattern| > 0 && |s| > 0 {
      assert Literal(pattern[1..]) by {
        forall i | 0 <= i < |pattern[1..]|
          ensures pattern[1..][i] != '*' && pattern[1..][i] != '?' && pattern[1..][i] != '\\'
        {
          assert pattern[1..][i] == pattern[i + 1];
        }
      }
      LiteralMatchesItself(pattern[1..], s[1..]);
      assert pattern == [pattern[0]] + pattern[1..];
      assert s == [s[0]] + s[1..];
    } else if |pattern| > 0 {
      assert pattern[0] != '*';
    }
  }

  /** One of the filter's values matches `s`. */
  predicate AnyValueMatches(values: seq<string>, s: string)
  {
    exists i :: 0 <= i < |values| && WildcardMatch(values[i], s)
  }

  /** How EC2 reads the two filter forms `ToFilter` produces: `tag:K` selects
      a tag with key K whose value matches one of the filter values;
      `tag-key` selects a tag whose key matches one of the filter values,
      whatever its value. Other filter names are outside this model. */
  predicate FilterSelectsTag(f: Filter, tag: Tag)
  {
    if f.name == "tag-key" then
      tag.key.Some? && AnyValueMatches(f.values, tag.key.value)
    else if |f.name| >= 4 && f.name[..4] == "tag:" then
      tag.key == Some(f.name[4..]) && tag.value.Some? && AnyValueMatches(f.values, tag.value.value)
    else
      false
  }

  /** An instance passes the filter when one of its tags is selected. */
  predicate FilterSelects(f: Filter, tags: seq<Tag>)
  {
    exists i :: 0 <= i < |tags| && FilterSelectsTag(f, tags[i])
  }

  /** A tag whose value EC2 reads literally selects, as a query filter,
      exactly the instances that carry a tag it compares equal to. */
  lemma ValuedFilterAgreesWithMatches(t: AwsTag, tags: seq<Tag>)
    requires t.value.Some? && Literal(t.value.value)
    ensures FilterSelects(ToFilter(t), tags) <==> exists i :: 0 <= i < |tags| && Matches(t, tags[i])
  {
    var f := ToFilter(t);
    assert f.name[..4] == "tag:" && f.name[4..] == t.key;
    assert f.name != "tag-key" by { assert f.name[3] == ':'; }
    forall i | 0 <= i < |tags|
      ensures FilterSelectsTag(f, tags[i]) <==> Matches(t, tags[i])
    {
      if tags[i].value.Some? {
        LiteralMatchesItself(t.value.value, tags[i].value.value);
        assert AnyValueMatches(f.values, tags[i].value.value) <==> WildcardMatch(f.values[0], tags[i].value.value);
      }
    }
  }

  /** A value with a wildcard selects instances whose tag does not compare
      equal to it: `role=k8s-*` as a filter lets `role=k8s-master` through. */
  lemma WildcardValueIsWider()
    ensures var t := AwsTag("role", Some("k8s-*"));
            var tags := [Tag(Some("role"), Some("k8s-master"))];
            FilterSelects(ToFilter(t), tags) && !Matches(t, tags[0])
  {
    var t := AwsTag("role", Some("k8s-*"));
    var tags := [Tag(Some("role"), Some("k8s-master"))];
    var f := ToFilter(t);
    assert f.name[..4] == "tag:" && f.name[4..] == "role";
    assert f.name != "tag-key" by { assert f.name[3] == ':'; }
    assert WildcardMatch("*", "master") by {
      assert WildcardMatch("*", "");
      assert WildcardMatch("*", "r");
      assert WildcardMatch("*", "er");
      assert WildcardMatch("*", "ter");
      assert WildcardMatch("*", "ster");
      assert WildcardMatch("*", "aster");
    }
    assert "k8s-*"[4..] == "*" && "k8s-master"[4..] == "master";
    assert WildcardMatch("-*", "-master") by { assert "-*"[1..] == "*" && "-master"[1..] == "master"; }
    assert WildcardMatch("s-*", "s-master") by { assert "s-*"[1..] == "-*" && "s-master"[1..] == "-master"; }
    assert WildcardMatch("8s-*", "8s-master") by { assert "8s-*"[1..] == "s-*" && "8s-master"[1..] == "s-master"; }
    assert WildcardMatch("k8s-*", "k8s-master") by { assert "k8s-*"[1..] == "8s-*" && "k8s-master"[1..] == "8s-master"; }
    assert f.values[0] == "k8s-*";
    assert AnyValueMatches(f.values, "k8s-master");
    assert FilterSelectsTag(f, tags[0]);
  }

  /** A key-only tag compares equal only to instance tags without a value. */
  lemma KeyOnlyMatchesOnlyValueless(t: AwsTag, tag: Tag)
    requires t.value.None?
    ensures Matches(t, tag) <==> tag.key == Some(t.key) && tag.value.None?
  {
  }

  /** As a filter, a key-only tag whose key EC2 reads literally selects
      every instance it compares equal to... */
  lemma KeyOnlyFilterCoversMatches(t: AwsTag, tags: seq<Tag>)
    requires t.value.None? && Literal(t.key)
    ensures (exists i :: 0 <= i < |tags| && Matches(t, tags[i])) ==> FilterSelects(ToFilter(t), tags)
  {
    if i :| 0 <= i < |tags| && Matches(t, tags[i]) {
      LiteralMatchesItself(t.key, t.key);
      assert WildcardMatch(ToFilter(t).values[0], tags[i].key.value);
      assert FilterSelectsTag(ToFilter(t), tags[i]);
    }
  }

  /** ...but not conversely: a tag with the key and any value passes the
      `tag-key` filter, yet does not compare equal to the key-only tag. */
  lemma KeyOnlyFilterIsWider(k: string, v: string)
    requires Literal(k)
    ensures FilterSelects(ToFilter(KeyTag(k)), [Tag(Some(k), Some(v))])
    ensures !Matches(KeyTag(k), Tag(Some(k), Some(v)))
  {
    LiteralMatchesItself(k, k);
    assert WildcardMatch(ToFilter(KeyTag(k)).values[0], k);
    assert FilterSelectsTag(ToFilter(KeyTag(k)), [Tag(Some(k), Some(v))][0]);
  }
}
