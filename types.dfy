/** The CloudFormation records the tool reads and builds, reduced to the fields it uses. */
module CfnTypes {
  import opened Wrappers

  /** cloudformation.Tag. */
  datatype Tag = Tag(key: string, value: string)

  /** cloudformation.Parameter: `value` and `usePreviousValue` are Go pointers that may be nil. */
  datatype Parameter = Parameter(key: string, value: Option<string>, usePreviousValue: Option<bool>)

  /** cloudformation.Stack: identity (an ARN), name, status, termination protection and tags. */
  datatype Stack = Stack(stackId: string, stackName: string, status: string,
                         terminationProtection: bool, tags: seq<Tag>)

  /** cloudformation.ChangeSetTypeCreate / ChangeSetTypeUpdate. */
  datatype ChangeSetType = Create | Update

  /** cloudformation.CreateChangeSetOutput: the stack and change set identifiers. */
  datatype ChangeSetOutput = ChangeSetOutput(stackId: string, id: string)

  /** The arguments of the gateway call createChangeSet; a nil template body asks the
      service to reuse the deployed template. */
  datatype ChangeSetRequest = ChangeSetRequest(stackName: string, params: seq<Parameter>, tags: seq<Tag>,
                                               templateBody: Option<string>, csType: ChangeSetType)
}
