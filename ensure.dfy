/** The ensure command (src/cloudformation/cmd/ensure.go): create the stack when it does
    not exist, otherwise update it, through one change set. */
module Ensure {
  import opened Wrappers
  import opened CfnTypes
  import opened CfnManagement
  import opened CfnMode
  import opened CfnFacade
  import opened StackCommands
  import AwsAccess

  const NoTemplateMessage: string := "No cloudformation template specified and no stack found. Cannot proceed."

  /** The change-set type and the template body chosen before any change set is made. */
  datatype Decision = Decision(csType: ChangeSetType, template: string)

  /** The create/update decision and the template source: the local file when a path is
      given (its read error aborts), else the deployed template of an existing stack, else
      an error. A getStack error comes first. */
  function Decide(gw: Gateway, templatePath: string, file: Result<string>): (r: Result<Decision>)
    ensures gw.stack.Err? ==> r == Err(gw.stack.error)
    ensures r.Ok? ==> gw.stack.Ok? && (r.value.csType == Create <==> gw.stack.value.None?)
    ensures gw.stack.Ok? && templatePath != "" ==>
              (file.Err? ==> r == Err(file.error)) && (file.Ok? ==> r.Ok? && r.value.template == file.value)
    ensures gw.stack.Ok? && templatePath == "" && gw.stack.value.Some? ==>
              (gw.template.Err? ==> r == Err(gw.template.error))
              && (gw.template.Ok? ==> r.Ok? && r.value.template == gw.template.value)
    ensures gw.stack.Ok? && templatePath == "" && gw.stack.value.None? ==> r == Err(NoTemplateMessage)
  {
    if gw.stack.Err? then Err(gw.stack.error)
    else
      var csType := if gw.stack.value.None? then Create else Update;
      if |templatePath| > 0 then
        if file.Err? then Err(file.error) else Ok(Decision(csType, file.value))
      else if gw.stack.value.Some? then
        if gw.template.Err? then Err(gw.template.error) else Ok(Decision(csType, gw.template.value))
      else Err(NoTemplateMessage)
  }

  /** The calls made while deciding: getStack, then getStackTemplate when the deployed
      template is needed. */
  function DecisionCalls(gw: Gateway, args: StackArgs): seq<Call>
  {
    [GetStack(args.target)]
    + (if gw.stack.Ok? && args.templatePath == "" && gw.stack.value.Some? then [GetStackTemplate(args.target)] else [])
  }

  /** The tags a change set starts from: none for a new stack, the stack's own otherwise. */
  function TagBase(stack: Option<Stack>): seq<Tag>
  {
    if stack.Some? then stack.value.tags else []
  }

  /** The change set ensure requests once the decision is made and the template summarised:
      the declared parameters reconciled (reusing values only for an existing stack), the
      tags merged onto the base, the chosen template and type. */
  predicate IsEnsureRequest(gw: Gateway, args: StackArgs, d: Decision, request: ChangeSetRequest)
    requires gw.stack.Ok? && gw.summary.Ok?
  {
    request.stackName == args.target
    && request.params == ReconcileParameters(gw.summary.value, args.params, d.csType == Update)
    && IsTagMerge(TagBase(gw.stack.value), args.tags, request.tags)
    && request.templateBody == Some(d.template)
    && request.csType == d.csType
  }

  /** ensureCmd.runE, with `file` the answer of reading the template path and `confirm` the
      word read in interactive mode. `request` is the change set built, when one is. */
  method RunE(gw: Gateway, args: StackArgs, file: Result<string>, mode: Mode, confirm: string)
    returns (run: Run, request: Option<ChangeSetRequest>)
    ensures Decide(gw, args.templatePath, file).Err? ==>
              run == Run(DecisionCalls(gw, args), Err(Decide(gw, args.templatePath, file).error)) && request.None?
    ensures Decide(gw, args.templatePath, file).Ok? && gw.summary.Err? ==>
              var d := Decide(gw, args.templatePath, file).value;
              run == Run(DecisionCalls(gw, args) + [GetTemplateSummary(d.template)], Err(gw.summary.error))
              && request.None?
    ensures Decide(gw, args.templatePath, file).Ok? && gw.summary.Ok? ==>
              var d := Decide(gw, args.templatePath, file).value;
              request.Some? && IsEnsureRequest(gw, args, d, request.value)
              && run == After(DecisionCalls(gw, args) + [GetTemplateSummary(d.template)],
                              Workflow(gw, mode, confirm, request.value))
  {
    var calls := [GetStack(args.target)];
    var stack := gw.stack;
    if stack.Err? {
      return Run(calls, Err(stack.error)), None;
    }
    var csType := Update;
    if stack.value.None? {
      csType := Create;
    }
    var templateString: string;
    if |args.templatePath| > 0 {
      if file.Err? {
        return Run(calls, Err(file.error)), None;
      }
      templateString := file.value;
    } else if stack.value.Some? {
      calls := calls + [GetStackTemplate(args.target)];
      if gw.template.Err? {
        return Run(calls, Err(gw.template.error)), None;
      }
      templateString := gw.template.value;
    } else {
      return Run(calls, Err(NoTemplateMessage)), None;
    }
    calls := calls + [GetTemplateSummary(templateString)];
    var stackParams := FilterParameters(gw.summary, args.params, csType == Update);
    if stackParams.Err? {
      return Run(calls, Err(stackParams.error)), None;
    }
    var oldTags: seq<Tag> := [];
    if stack.value.Some? {
      oldTags := stack.value.value.tags;
    }
    var stackTags := MergeTags(oldTags, args.tags);
    var req := ChangeSetRequest(args.target, stackParams.value, stackTags, Some(templateString), csType);
    var outcome := CreateAndExecute(gw, mode, confirm, req);
    return After(calls, outcome), Some(req);
  }

  /** A missing stack is created with exactly the override tags, with no value reused. */
  lemma CreateUsesOverridesOnly(gw: Gateway, args: StackArgs, d: Decision, request: ChangeSetRequest)
    requires gw.stack == Ok(None) && gw.summary.Ok?
    requires d.csType == Create
    requires IsEnsureRequest(gw, args, d, request)
    ensures forall t :: t in request.tags <==> t.key in args.tags && t.value == args.tags[t.key]
    ensures KeysDistinct(request.tags)
    ensures forall p :: p in request.params ==> p.usePreviousValue != Some(true)
  {
    MergeIntoNothing(args.tags, request.tags);
    CreateNeverReusesValues(gw.summary.value, args.params);
  }

  /** The concrete getStack never answers "absent", so against it ensure never creates: it
      updates a stack that exists, or fails. */
  lemma ConcreteGatewayNeverCreates(gw: Gateway, described: Result<seq<Stack>>, listing: string,
                                    templatePath: string, file: Result<string>)
    requires gw.stack == AwsAccess.GetStack(described, listing)
    ensures Decide(gw, templatePath, file).Ok? ==> Decide(gw, templatePath, file).value.csType == Update
  {
  }

  /** The create case of the ensure tests: no stack, a template file, no overrides, a
      template without parameters, noninteractive mode; the change set has no tags and no
      parameters, and the command succeeds. */
  lemma CreateSuccessExample(gw: Gateway, body: string, request: ChangeSetRequest)
    requires gw.stack == Ok(None) && gw.summary == Ok([])
    requires gw.guid.Ok? && gw.submitted.Ok? && gw.changeSetReady.Ok?
    requires gw.executeAccepted == Ok(()) && gw.stackUpdated == Ok(())
    requires IsEnsureRequest(gw, StackArgs("", map[], map[], "main.go"), Decision(Create, body), request)
    ensures Decide(gw, "main.go", Ok(body)) == Ok(Decision(Create, body))
    ensures request.tags == [] && request.params == []
    ensures Workflow(gw, Noninteractive, "", request).result == Ok(())
  {
    MergeWithoutOverrides([], request.tags);
  }

  /** The update case of the ensure tests: the stack exists, no path, the deployed template
      and its summary answer with nothing; the command updates and succeeds. */
  lemma UpdateSuccessExample(gw: Gateway, request: ChangeSetRequest)
    requires gw.stack == Ok(Some(Stack("", "", "", false, []))) && gw.template == Ok("") && gw.summary == Ok([])
    requires gw.guid.Ok? && gw.submitted.Ok? && gw.changeSetReady.Ok?
    requires gw.executeAccepted == Ok(()) && gw.stackUpdated == Ok(())
    requires IsEnsureRequest(gw, StackArgs("", map[], map[], ""), Decision(Update, ""), request)
    ensures Decide(gw, "", Err("no file")) == Ok(Decision(Update, ""))
    ensures request.tags == [] && request.params == [] && request.csType == Update
    ensures Workflow(gw, Noninteractive, "", request).result == Ok(())
  {
    MergeWithoutOverrides([], request.tags);
  }
}
