/** `src/config.rs`: the configuration root and the projection of the tag
    spec out of it. */
module Config {
  import opened Wrappers
  import opened AwsTags
  import opened ConfigAws
  import opened ConfigProvider

  datatype Config = Config(provider: Provider, aws: Option<AwsConfig>)

  /** `Config::aws_tag_spec`: the inventory tag, the master tag and the
      worker tag of the `aws.ec2.node` block, each carrying its configured
      value; absent exactly when the `aws` section is. */
  function AwsTagSpecOf(config: Config): (r: Option<AwsTagSpec>)
    ensures r.None? <==> config.aws.None?
    ensures r.Some? ==>
              var node := config.aws.value.ec2.node;
              && r.value.node == AwsTag(node.tag.key, Some(node.tag.value))
              && r.value.masterNode == AwsTag(node.master.tag.key, Some(node.master.tag.value))
              && r.value.workerNode == AwsTag(node.worker.tag.key, Some(node.worker.tag.value))
  {
    match config.aws
    case None => None
    case Some(aws) =>
      Some(AwsTagSpec(
        ToAwsTag(aws.ec2.node.tag),
        ToAwsTag(aws.ec2.node.master.tag),
        ToAwsTag(aws.ec2.node.worker.tag)))
  }
}
