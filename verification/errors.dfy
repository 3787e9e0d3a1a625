/** The errors the fleet core raises. The Rust code passes them around as
    `anyhow::Error`; here each source of failure is its own variant. */
module Errors {

  /** `RemoteCommandExecuteError`: the command's log descriptor and its
      decoded stderr. */
  datatype RemoteCommandExecuteError = RemoteCommandExecuteError(command: string, stderr: string)

  /** The two ways a remote command can fail: the transport (`ProvisionError::ssh`)
      or a non-zero exit (`ProvisionError::RemoteCommand`). */
  datatype ProvisionError =
    | Ssh(cause: string)
    | RemoteCommand(failure: RemoteCommandExecuteError)

  datatype Error =
    | InstanceIdRequired            // conversion of an instance without id
    | AddrParse(text: string)       // `IpAddr` parse failure
    | Sdk(cause: string)            // a failed EC2 API call
    | AwsConfigNotFound             // no `aws` section in the configuration
    | NoPublicIp(instanceId: string) // provisioning a node without address
    | TaskJoin(reason: string)      // a spawned task panicked or was cancelled
    | Remote(cause: string)         // ssh connect or provisioner failure

  /** The message of the errors built with `anyhow!`. */
  function Message(e: Error): string
  {
    match e
    case InstanceIdRequired => "instance id required"
    case AddrParse(_) => "invalid IP address syntax"
    case Sdk(c) => c
    case AwsConfigNotFound => "aws config not found"
    case NoPublicIp(id) => "ec2 instance " + id + " does not have public ip. maybe not started"
    case TaskJoin(r) => r
    case Remote(c) => c
  }
}
