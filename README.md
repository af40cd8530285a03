# aws-machete stack reconciliation, modelled in Dafny

aws-machete is a command-line tool around AWS CloudFormation. This project models the core
of its `cloudformation` commands:

- `ensure` creates a stack when it is missing and updates it otherwise.
- `update` updates an existing stack without restating its parameters and tags.
- `delete-all` deletes every unprotected stack that every region reports.

Both `ensure` and `update` go through one change set. The model covers:

- the validation in their `preRunE`;
- the create/update decision and where the template comes from;
- how declared template parameters are reconciled with the user's overrides;
- how the stack's tags are merged with the override tags;
- the mode-gated create / confirm / execute workflow;
- the consumer loop of `delete-all`.

Below these sit the decision-making parts of the concrete CloudFormation gateway:

- ARN segments;
- the change set name and input;
- the outcomes of createChangeSet and executeChangeSet;
- getStack's single-result check;
- the per-region client table built from each region's opt-in status, and how deletes are routed through it.

The execution-mode enumeration appears in both command managers and is modelled for both.

Everything the tool asks of AWS, of the file system or of standard input is an answer the model is given:

- The `CfnManagement.Gateway` value holds one answer per gateway call. A command returns the sequence of calls it made and its result.
- `delete-all` consumes a sequence of events standing for what it receives on its two channels.

Its loop has two forms:

- `DeleteAll.Drain` is a reference definition, one event at a time.
- The imperative `DeleteAll.RunE` is proved to do what `Drain` says.

Each imperative Go function becomes a Dafny method proved against a specification function:

- `filterParameters` fills an array by index.
- `mergeTags` fills an array by index and then appends.
- The `update` command carries its own inline copy of the parameter loop.
- `newCfnClient` fills a map.
- The `StackCommand` class holds the fields that `preRunE` assigns.

The properties proved about those functions include:

- parameter reconciliation per key;
- tag merging: overrides win, existing tags are kept, every tag has an origin, keys stay distinct, and the length;
- the workflow's gating by mode and by confirmation;
- delete-all: candidates are unprotected and in arrival order, deletes follow them, and a dry run deletes nothing;
- errors have a source, later events are ignored, and a complete stream terminates;
- the test cases of the repository.

Modules, one per file:

- `Wrappers`, `Strings`;
- `CfnTypes`: the SDK records used;
- `CfnMode`, `Route53Mode`;
- `AwsAccess`: the concrete gateway;
- `CfnManagement`: the gateway interface as answers, calls and runs;
- `CfnFacade`: filterParameters, mergeTags, createAndExecute;
- `StackCommands`: the arguments and `preRunE` of ensure and update;
- `Ensure`, `Update`, `DeleteAll`.

## Model

| member | source | states |
|---|---|---|
| Strings.Split | src/cloudformation/cmd/aws_access.go:205 | `strings.Split` yields at least one part, no part contains the separator, and joining the parts with it gives the input back |
| Strings.Join | src/cloudformation/cmd/ensure.go:95 | `strings.Join` gives nothing for no parts and otherwise begins with the first part; Split inverts it (see SplitJoin) |
| Strings.SplitWithoutSeparator | src/cloudformation/cmd/aws_access.go:205 | a string without the separator splits into itself alone |
| Strings.SplitAfterSegment | src/cloudformation/cmd/aws_access.go:205 | a separator-free segment, the separator and a rest split into that segment followed by the split of the rest |
| Strings.SplitJoin | src/cloudformation/cmd/ensure.go:94-95 | splitting the join of separator-free parts recovers exactly those parts (so a joined error message can be read back line by line) |
| Strings.IndexOf | src/cloudformation/cmd/command_manager.go:45-52 | -1 exactly when the value is absent, otherwise the position of its first occurrence |
| CfnMode.String | src/cloudformation/cmd/command_manager.go:42-44 | a named mode prints as an entry of the `modes` table that ParseMode reads back as that mode (indexing panics outside 0..3, the precondition) |
| CfnMode.ParseMode | src/cloudformation/cmd/command_manager.go:45-52 | -1 exactly for a name not in the table, otherwise the table position holding the name |
| CfnMode.NamedConstants | src/cloudformation/cmd/command_manager.go:26-40 | the iota constants are the table positions: noninteractive 0, changesetonly 1, dry 2, interactive 3 |
| CfnMode.NamesDistinct | src/cloudformation/cmd/command_manager.go:35-40 | no two table entries are equal |
| CfnMode.ParseString | src/cloudformation/cmd/command_manager.go:42-52 | parsing a mode's name gives the mode back |
| CfnMode.StringParse | src/cloudformation/cmd/command_manager.go:42-52 | printing a parsed known name gives the name back |
| CfnMode.UnknownIsNoGatedMode | src/cloudformation/cmd/command_manager.go:51 | an unknown name parses to -1, which equals none of dry, changesetonly and interactive |
| Route53Mode.String | src/route53/cmd/command_manager.go:40-42 | a named mode prints as an entry of the route53 `modes` table that ParseMode reads back as that mode |
| Route53Mode.ParseMode | src/route53/cmd/command_manager.go:43-50 | -1 exactly for an unknown name, otherwise its table position |
| Route53Mode.StringOfNoninteractive | src/route53/cmd/command_manager_test.go:7-15 | noninteractive prints as `modes[0]` |
| Route53Mode.ParseOfInteractive | src/route53/cmd/command_manager_test.go:17-25 | `modes[3]` parses to 3, interactive |
| Route53Mode.ParseString | src/route53/cmd/command_manager.go:40-50 | parsing a mode's name gives the mode back, for all four modes |
| AwsAccess.RegionFromArn | src/cloudformation/cmd/aws_access.go:203-207 | the fourth colon-separated segment, itself colon-free; fewer segments panic (the precondition) |
| AwsAccess.AccountIdFromArn | src/cloudformation/cmd/aws_access.go:209-213 | the fifth colon-separated segment, itself colon-free |
| AwsAccess.ArnSegments | src/cloudformation/cmd/aws_access.go:203-213 | for every ARN of six colon-free segments the helpers return exactly its region and its account |
| AwsAccess.RegionOfSampleArn | src/cloudformation/cmd/aws_access_test.go:17-25 | the test ARN's region is "region" |
| AwsAccess.ChangeSetName | src/cloudformation/cmd/aws_access.go:115 | the name is "ChangeSet-" followed by a dash-free group of the UUID string |
| AwsAccess.GroupHasNoDash | src/cloudformation/cmd/aws_access.go:115 | each of the five groups of an RFC 4122 UUID string is dash-free |
| AwsAccess.UuidIsDashedGroups | src/cloudformation/cmd/aws_access.go:115 | an RFC 4122 UUID string is 36 characters with dashes exactly at the four group boundaries and none inside a group |
| AwsAccess.SplitFiveGroups | src/cloudformation/cmd/aws_access.go:115 | five dash-free groups joined by dashes split back into exactly those five groups |
| AwsAccess.SplitDashedGroups | src/cloudformation/cmd/aws_access.go:115 | a string of that shape splits at its dashes into its five groups |
| AwsAccess.SplitUuid | src/cloudformation/cmd/aws_access.go:115 | a UUID string splits at its dashes into exactly its five groups |
| AwsAccess.ChangeSetNameOfUuid | src/cloudformation/cmd/aws_access.go:111-115 | for a UUID string the fifth group exists and the name is "ChangeSet-" plus the 12-digit node field, 22 characters |
| AwsAccess.BuildChangeSetInput | src/cloudformation/cmd/aws_access.go:117-128 | UsePreviousTemplate holds exactly when no template body is given; every other field is the request's, the manager's capabilities or the generated name |
| AwsAccess.CreateChangeSetAsWritten | src/cloudformation/cmd/aws_access.go:104-147 | as written: success exactly when the UUID and CreateChangeSet succeed, whatever the wait answers |
| AwsAccess.CreateChangeSetResult | src/cloudformation/cmd/aws_access.go:104-147 | as intended: success exactly when UUID, CreateChangeSet and the wait all succeed, otherwise the first error in that order; success returns CreateChangeSet's output |
| AwsAccess.WaitFailureSwallowed | src/cloudformation/cmd/aws_access.go:141-144 | for every accepted change set whose wait fails, the code as written reports success and the intended outcome is the wait's error |
| AwsAccess.ExecuteChangeSetResult | src/cloudformation/cmd/aws_access.go:149-166 | success exactly when ExecuteChangeSet and the wait both succeed; the execute error comes first, else the wait's answer |
| AwsAccess.GetStack | src/cloudformation/cmd/aws_access.go:175-189 | the DescribeStacks error; unless exactly one stack came back, "Multiple stacks found.", a blank line and the rendering of the stacks; otherwise that stack; never "absent" |
| AwsAccess.NewCfnClient | src/cloudformation/cmd/aws_access.go:33-62 | one client exactly for each region whose opt-in status is "opt-in-not-required", filed under its own name, so that getRegionCount is the number of those regions; the three IAM capabilities |
| AwsAccess.GetRegionCount | src/cloudformation/cmd/aws_access.go:74-76 | zero exactly for an empty table; for a manager newCfnClient builds, the number of regions that need no opt-in (stated in NewCfnClient's ensures) |
| AwsAccess.DeleteTarget | src/cloudformation/cmd/aws_access.go:64-72 | a delete goes to the client of the region named in the stack ARN |
| CfnFacade.ReconcileParameters | src/cloudformation/cmd/cfn_facade.go:48-69 | one parameter per declared key in order; an overridden key carries the override and no reuse; any other key has no value, and a reuse flag (true) exactly on an update |
| CfnFacade.FilterParameters | src/cloudformation/cmd/cfn_facade.go:42-72 | the template summary's error is returned; otherwise the declared parameters are reconciled as above |
| CfnFacade.UndeclaredOverridesDropped | src/cloudformation/cmd/cfn_facade.go:50-51 | an override for a key the template does not declare does not appear |
| CfnFacade.CreateNeverReusesValues | src/cloudformation/cmd/cfn_facade.go:60-67 | for a create, no parameter asks to reuse a previous value |
| CfnFacade.UpdateParameterExample | src/cloudformation/cmd/ensure_test.go:76-167 | declared a, b, d with overrides for a and d: a and d carry the overrides, b reuses its previous value |
| CfnFacade.IsTagMerge | src/cloudformation/cmd/cfn_facade.go:74-107 | the specification of mergeTags: the old tags overridden in place, then each override pair not already present, once, in any order; a merge is at least as long as the old tags and at most one tag per override longer |
| CfnFacade.TagExists | src/cloudformation/cmd/cfn_facade.go:93-100 | true exactly when a tag with this key and value is already in the list |
| CfnFacade.MergeTags | src/cloudformation/cmd/cfn_facade.go:74-107 | the old tags with overridden values in order, then each override not already present, once |
| CfnFacade.DistinctCount | src/cloudformation/cmd/cfn_facade.go:92-104 | proof helper (no code of its own there): a repetition-free tag list has as many elements as entries |
| CfnFacade.MergeLength | src/cloudformation/cmd/cfn_facade.go:74-107 | the merged length is the old length plus the number of overrides not already present |
| CfnFacade.MergeWithoutOverrides | src/cloudformation/cmd/cfn_facade.go:74-107 | with no overrides the tags are unchanged |
| CfnFacade.OverridesWin | src/cloudformation/cmd/cfn_facade.go:79-83 | every merged tag whose key is overridden carries the override, and every override is present |
| CfnFacade.ExistingTagsKept | src/cloudformation/cmd/cfn_facade.go:77-90 | the old tags keep their keys and positions, and those not overridden are unchanged |
| CfnFacade.MergedTagsHaveOrigin | src/cloudformation/cmd/cfn_facade.go:74-107 | every merged tag is an old tag or an override |
| CfnFacade.DistinctKeysPreserved | src/cloudformation/cmd/cfn_facade.go:74-107 | old tags with distinct keys merge into tags with distinct keys |
| CfnFacade.MergeIntoNothing | src/cloudformation/cmd/ensure.go:68-72 | merged into no tags, the result holds exactly the overrides, with distinct keys |
| CfnFacade.UpdateTagExample | src/cloudformation/cmd/ensure_test.go:169-225 | [a=va, b=vb] with overrides a=vaa, c=vcc merge into [a=vaa, b=vb, c=vcc] |
| CfnFacade.Workflow | src/cloudformation/cmd/cfn_facade.go:10-40 | dry makes no call and succeeds; otherwise the change set is created first; the execute call follows exactly when creation succeeded, the mode is not changesetonly and interactive mode got "confirm"; it then uses the created ids and returns the execution's result |
| CfnFacade.CreateAndExecute | src/cloudformation/cmd/cfn_facade.go:10-40 | makes exactly the calls and returns exactly the result of the workflow above |
| CfnFacade.UnknownModeExecutes | src/cloudformation/cmd/cfn_facade.go:14-39 | an unknown mode name (-1) executes the change set without prompting |
| CfnFacade.ExecutionIsGated | src/cloudformation/cmd/cfn_facade.go:14-39 | an execute call comes right after the create call, never in dry or changesetonly mode, and in interactive mode only after "confirm" |
| StackCommands.Failures | src/cloudformation/cmd/ensure.go:86-92 | the target message exactly when the target is empty, the nothing-to-update message exactly when there are no parameters, no tags and no path, each at most once, in that order |
| StackCommands.Validate | src/cloudformation/cmd/ensure.go:85-98 | no error exactly when both checks pass; an error reads back, line by line, as the failing checks' messages |
| StackCommands.BothMessages | src/cloudformation/cmd/ensure.go:86-95 | both checks failing give the two messages joined by a newline, the target's first |
| StackCommands.SingleMessage | src/cloudformation/cmd/ensure.go:86-95 | a single failing check gives its message alone |
| StackCommands.StackCommand.constructor | src/cloudformation/cmd/ensure.go:11-18 | a fresh command holds zero values |
| StackCommands.StackCommand.PreRunE | src/cloudformation/cmd/ensure.go:77-99 | the fields hold the configured values and the error is the validation's |
| Ensure.Decide | src/cloudformation/cmd/ensure.go:24-59 | a getStack error first; create exactly when the stack is absent; the file's content or its read error when a path is given; the deployed template or its error for an existing stack; otherwise the no-template error |
| Ensure.RunE | src/cloudformation/cmd/ensure.go:20-75 | decision errors and the summary error are returned after the calls made; otherwise the request has the reconciled parameters, the tags merged onto the stack's (or none), the chosen template and type, and the workflow runs on it |
| Ensure.CreateUsesOverridesOnly | src/cloudformation/cmd/ensure.go:61-72 | a new stack gets exactly the override tags, with distinct keys, and no parameter reuses a value |
| Ensure.ConcreteGatewayNeverCreates | src/cloudformation/cmd/aws_access.go:175-189 | against the concrete getStack, ensure never chooses create |
| Ensure.CreateSuccessExample | src/cloudformation/cmd/ensure_test.go:14-47 | no stack, a template file and an empty summary: the create change set has no tags and no parameters and the command succeeds |
| Ensure.UpdateSuccessExample | src/cloudformation/cmd/ensure_test.go:49-74 | an existing stack and no path: the deployed template is used, the update change set is empty and the command succeeds |
| Update.UpdateTemplate | src/cloudformation/cmd/update.go:26-40 | with a path, the file read (or its error), whatever the stack lookup later answers; without one, the deployed template (or its error); on an existing stack exactly the template, or the error, that ensure decides on |
| Update.OverrideParameters | src/cloudformation/cmd/update.go:48-66 | the inline loop yields exactly the update reconciliation of filterParameters |
| Update.RunE | src/cloudformation/cmd/update.go:21-134 | template, summary and getStack errors are returned in that order after the calls made; otherwise the request has the update parameters, the merged tags, the template and type Update, and the workflow runs on it |
| Update.EveryParameterFlagged | src/cloudformation/cmd/update.go:51-64 | every parameter of an update carries a reuse flag, true exactly when no value was given |
| Update.EnsureOnExistingStackIsUpdate | src/cloudformation/cmd/update.go:21-108 | on an existing stack ensure picks the same template and requests the same change set as update |
| DeleteAll.PreRunE | src/cloudformation/cmd/delete_all.go:76-83 | an error exactly in changesetonly mode, with the source's message |
| DeleteAll.NoninteractiveAccepted | src/cloudformation/cmd/delete_all_test.go:10-24 | noninteractive passes validation |
| DeleteAll.Drain | src/cloudformation/cmd/delete_all.go:29-73 | the reference definition of the loop, one event at a time; it stops at once, succeeding with nothing done, when no region is awaited, and waits at the end of the stream otherwise |
| DeleteAll.DrainBounds | src/cloudformation/cmd/delete_all.go:39-65 | the loop considers a stack before it prompts for it or deletes it: no more deletes and no more prompts than stacks considered |
| DeleteAll.Receive | src/cloudformation/cmd/delete_all.go:30-66 | one select step adds to the log exactly what the reference loop adds for the next event, and says whether it was a sentinel and whether runE returns |
| DeleteAll.RunE | src/cloudformation/cmd/delete_all.go:15-74 | the loop considers, deletes, prompts and ends exactly as the reference definition `Drain` does |
| DeleteAll.ExtendAssoc | src/cloudformation/cmd/delete_all.go:28-43 | proof helper (no code of its own there): logs concatenate associatively |
| DeleteAll.ExtendEmpty | src/cloudformation/cmd/delete_all.go:34-40 | proof helper (no code of its own there): an empty log step changes nothing |
| DeleteAll.ExtendEnd | src/cloudformation/cmd/delete_all.go:29-73 | proof helper (no code of its own there): ending right away keeps the log so far |
| DeleteAll.DeliveredStreamEnds | src/cloudformation/cmd/delete_all.go:29-36 | a stream holding all the awaited sentinels, or an error, never leaves runE waiting |
| DeleteAll.LaterEventsIgnored | src/cloudformation/cmd/delete_all.go:29-66 | once runE has returned, events after that make no difference |
| DeleteAll.ConsidersAfterFound | src/cloudformation/cmd/delete_all.go:39-56 | considering an unprotected stack before the log of later events keeps candidates in arrival order |
| DeleteAll.CandidatesAreUnprotected | src/cloudformation/cmd/delete_all.go:39-56 | the candidates are an initial part of the unprotected stacks in arrival order; each prompts once in interactive mode, never otherwise |
| DeleteAll.DryDeletesNothing | src/cloudformation/cmd/delete_all.go:58-60 | dry mode never deletes |
| DeleteAll.FollowsAfterDelete | src/cloudformation/cmd/delete_all.go:43-65 | deleting a stack before a log whose deletes follow its candidates keeps that property |
| DeleteAll.DeletesFollowCandidates | src/cloudformation/cmd/delete_all.go:43-65 | outside dry mode the deletes are the candidates' ARNs in order; at most one last candidate is not deleted, only in interactive mode, only when its answer was not "confirm", and runE then succeeds |
| DeleteAll.EarlierDeletesSucceeded | src/cloudformation/cmd/delete_all.go:62-65 | every delete but the last succeeded |
| DeleteAll.DeletesConfirmed | src/cloudformation/cmd/delete_all.go:46-56 | in interactive mode each delete was preceded by a "confirm" answer |
| DeleteAll.ErrorsHaveASource | src/cloudformation/cmd/delete_all.go:31-32 | an error returned is a received error or the last delete's error |
| DeleteAll.IdsAppend | src/cloudformation/cmd/delete_all.go:62 | the ARNs of two runs of stacks are the ARNs of each |
| DeleteAll.UnattendedPrefix | src/cloudformation/cmd/delete_all.go:29-66 | noninteractively, with deletes that succeed, an error-free stretch before the last sentinel deletes exactly its unprotected stacks in order and continues |
| DeleteAll.NoninteractiveDeletesEveryUnprotected | src/cloudformation/cmd/delete_all.go:15-74 | noninteractively, with deletes that succeed, every unprotected stack before the last awaited sentinel is deleted once, in order, and runE succeeds |
| DeleteAll.FirstFailureReturned | src/cloudformation/cmd/delete_all.go:31-32 | the first error before the last sentinel is returned, after the deletes of the stacks before it |
| DeleteAll.DeleteAllExample | src/cloudformation/cmd/delete_all_test.go:26-71 | three stacks, the second protected, and four sentinels: two deletes and success |

## Left out

- Standard input: the word typed at a prompt is a parameter. The model does not cover `Scanf`'s behaviour on a bare newline, and past the end of input the word is the empty string.
- Output: the progress lines, the "Keys"/"Param key" debug prints and the dry-run notice are not modelled.
- The AWS SDK, the file system and the UUID generator: each is an answer the model is given (`CfnManagement.Gateway`, the `file` argument, the `guid` field). Pagination of DescribeStacks is not modelled.
- `newCfnClient` ignores DescribeRegions' error and dereferences its result. The model takes the region list as given.
- `getAll`'s goroutines, and the two channels `delete-all` selects on: modelled as one sequence of events in the order runE receives them. The model does not say which interleavings the goroutines can produce.
- `getAll`'s per-stack DescribeStacks is not modelled apart from the events it yields.
- The closing of the channels on return is not modelled. Neither is the panic a later send would then cause.
- DeleteAll.RunE: the log line before each delete calls `getRegionFromArn` on the stack ARN, which panics for an ARN with fewer than four segments. The model does not capture that panic.
- AwsAccess.DeleteTarget: the requirements exclude the nil-client dereference a missing region causes.
- The `timeout` setting, the file format settings, root command wiring and flag parsing are not modelled.
- The route53 gateway and its listing command are not part of this model, apart from its mode enumeration.
- AwsAccess.GetStack: the `%#v` rendering of the stacks that follows "Multiple stacks found." and a blank line is a parameter of the model, not computed from the stacks.
- CfnFacade.Workflow: the commands are composed with the corrected createChangeSet (`AwsAccess.CreateChangeSetResult`). As written, a change set whose wait fails is reported as created, and the command goes on to prompt or execute it; the model instead returns the wait's error without executing (see Findings).
- Ensure.RunE: `ensure.go` line 62 calls filterParameters with two arguments where three are declared. That does not compile. The model passes `isUpdate` as "the change set type is Update", as intended.
- Several call sites call through a pointer to an interface (`uc.cm.cfnManager.getStack` with `cfnManager *cfnManagement`). That does not compile as written either. The model calls the interface.
- CfnFacade.MergeTags: the model gives each added tag its own key and value, as evidently intended. Before Go 1.22 the appended tag points at the loop variables `ntKey`/`ntValue` themselves (cfn_facade.go:102). After the first append, every later `tagExist` check (cfn_facade.go:100) finds that tag holding the current pair, so nothing more is appended: at most one new tag is added, and it ends up reading the last pair visited, which may be an existing key. For example, tags [a=va, b=vb] with overrides {a: vaa, c: vcc} visited c then a give [a=vaa, b=vb, a=vaa]: c is lost and key a appears twice. The model does not capture this aliasing, whose effect depends on the Go version and the map order.
- Map iteration order: the tags appended by mergeTags come in an unspecified order. `CfnFacade.IsTagMerge` states the added tags as a set, with no repetition.
- Ensure.Decide: a missing stack surfaces from the concrete getStack as an error, never as "absent", so create is reachable only through other gateways (see `Ensure.ConcreteGatewayNeverCreates`). The cfnManagement interface allows a nil stack; the concrete getStack never returns one.
- CfnFacade.ReconcileParameters: on a create, a parameter without an override gets no reuse flag at all (nil); only an overridden parameter gets an explicit `false`.
- AwsAccess.ExecuteChangeSetResult: the wait used after execute is WaitUntilStackUpdateComplete even for a create change set. The model treats its answer as given.
- Update.RunE: update dereferences the stack's tags without a nil check. Its precondition excludes an "absent" getStack answer once the template and summary are obtained, because that is the nil panic.
- Go's `int` is unbounded in the model. A mode outside 0..3 is representable; String requires a named mode, as indexing `modes` panics otherwise.

## Findings

| source | as written | input that shows it | evidently intended | confidence | as-written member | corrected member |
|---|---|---|---|---|---|---|
| src/cloudformation/cmd/aws_access.go:141-144 | after `WaitUntilChangeSetCreateComplete` the guard tests `changeSetErr` again, which is nil there, so the wait's error is dropped | CreateChangeSet accepts the change set and the wait answers an error (e.g. the change set reaches FAILED): createChangeSet returns the output and nil | return the wait's error (`if waitErr != nil`) | not executed | AwsAccess.CreateChangeSetAsWritten (shown by AwsAccess.WaitFailureSwallowed) | AwsAccess.CreateChangeSetResult |
