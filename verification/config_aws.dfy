/** `src/config/aws.rs`: the `aws` section of the configuration and the
    conversion of a configured tag into an `AwsTag`. */
module ConfigAws {
  import opened Wrappers
  import opened Ec2Api
  import opened AwsTags

  datatype TagConfig = TagConfig(key: string, value: string)

  datatype SshConfig = SshConfig(user: string)

  /** The per-role block (`master:` / `worker:`), holding that role's tag. */
  datatype NodeConfig = NodeConfig(tag: TagConfig)

  datatype Ec2NodeConfig = Ec2NodeConfig(
    distribution: string,
    ssh: SshConfig,
    tag: TagConfig,
    master: NodeConfig,
    worker: NodeConfig)

  datatype Ec2Config = Ec2Config(node: Ec2NodeConfig)

  datatype AwsConfig = AwsConfig(ec2: Ec2Config)

  /** `From<TagConfig> for AwsTag`: `AwsTag::key(key).value(value)`. The
      configured key is kept and the value is always present. */
  function ToAwsTag(c: TagConfig): (t: AwsTag)
    ensures t.key == c.key
    ensures t.value == Some(c.value)
  {
    WithValue(KeyTag(c.key), c.value)
  }

  /** A configured tag always becomes a `tag:<key>` filter on its value,
      never a `tag-key` filter. */
  lemma ConfigTagFilter(c: TagConfig)
    ensures ToFilter(ToAwsTag(c)) == Filter("tag:" + c.key, [c.value])
    ensures ToFilter(ToAwsTag(c)).name != "tag-key"
  {
    var name := ToFilter(ToAwsTag(c)).name;
    assert name[3] == ':';
  }

  /** A configured tag compares equal to an instance tag exactly when the
      instance tag's key and value are both the configured strings. */
  lemma ConfigTagMatches(c: TagConfig, tag: Tag)
    ensures Matches(ToAwsTag(c), tag) <==> tag.key == Some(c.key) && tag.value == Some(c.value)
  {
  }
}
