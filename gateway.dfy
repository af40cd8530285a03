/** The cfnManagement interface (src/cloudformation/cmd/aws_access.go:16-25) seen from the
    commands: a gateway whose answers are given, and the log of the calls a command makes. */
module CfnManagement {
  import opened Wrappers
  import opened CfnTypes
  import AwsAccess

  /** A call across the interface, with its arguments. */
  datatype Call =
    | GetStack(stackName: string)
    | GetStackTemplate(stackName: string)
    | GetTemplateSummary(templateBody: string)
    | CreateChangeSet(request: ChangeSetRequest)
    | ExecuteChangeSet(stackId: string, changeSetId: string)

  /** What one command invocation did: its calls in order and the error it returned (Ok for nil). */
  datatype Run = Run(calls: seq<Call>, result: Result<()>)

  /** The answers the gateway gives during one invocation. getStack answers None for a stack
      that does not exist (the interface allows it; the concrete getStack never does, see
      AwsAccess.GetStack); getTemplateSummary answers with the declared parameter keys, in
      template order. executeChangeSet combines the answers of its two SDK calls as the concrete
      gateway does; createChangeSet combines its answers as the concrete gateway evidently
      intends, reporting a failed wait (AwsAccess.CreateChangeSetResult), not as written
      (AwsAccess.CreateChangeSetAsWritten, which drops the wait's error). */
  datatype Gateway = Gateway(
    stack: Result<Option<Stack>>,
    template: Result<string>,
    summary: Result<seq<string>>,
    guid: Result<string>,
    submitted: Result<ChangeSetOutput>,
    changeSetReady: Result<()>,
    executeAccepted: Result<()>,
    stackUpdated: Result<()>)
  {
    /** The answer of createChangeSet, with the wait's error reported. */
    function Created(): Result<ChangeSetOutput>
    {
      AwsAccess.CreateChangeSetResult(guid, submitted, changeSetReady)
    }

    /** The answer of executeChangeSet. */
    function Executed(): Result<()>
    {
      AwsAccess.ExecuteChangeSetResult(executeAccepted, stackUpdated)
    }
  }

  /** A run that follows the calls `prefix`. */
  function After(prefix: seq<Call>, run: Run): Run
  {
    Run(prefix + run.calls, run.result)
  }
}
