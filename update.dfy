/** The update command (src/cloudformation/cmd/update.go): update an existing stack without
    restating its parameters and tags. runE carries its own copies of the parameter and
    tag reconciliation and of the change-set workflow. */
module Update {
  import opened Wrappers
  import opened CfnTypes
  import opened CfnManagement
  import opened CfnMode
  import opened CfnFacade
  import opened StackCommands
  import Ensure

  /** The template update uses: the local file when a path is given, whatever the stack
      lookup answers (it comes later), else the deployed one. On an existing stack it is the
      template ensure decides on, with the same errors. */
  function UpdateTemplate(gw: Gateway, templatePath: string, file: Result<string>): (r: Result<string>)
    ensures templatePath != "" ==> r == file
    ensures templatePath == "" ==> r == gw.template
    ensures gw.stack.Ok? && gw.stack.value.Some? ==>
              var d := Ensure.Decide(gw, templatePath, file);
              (r.Ok? <==> d.Ok?) && (r.Ok? ==> r.value == d.value.template) && (r.Err? ==> r.error == d.error)
  {
    if |templatePath| > 0 then file else gw.template
  }

  /** The calls made to obtain the template. */
  function TemplateCalls(args: StackArgs): seq<Call>
  {
    if |args.templatePath| > 0 then [] else [GetStackTemplate(args.target)]
  }

  /** The change set update requests: every declared parameter reconciled for an update,
      the stack's tags merged with the overrides, the template given explicitly, type Update. */
  predicate IsUpdateRequest(gw: Gateway, args: StackArgs, template: string, request: ChangeSetRequest)
    requires gw.summary.Ok? && gw.stack.Ok? && gw.stack.value.Some?
  {
    request.stackName == args.target
    && request.params == ReconcileParameters(gw.summary.value, args.params, true)
    && IsTagMerge(gw.stack.value.value.tags, args.tags, request.tags)
    && request.templateBody == Some(template)
    && request.csType == Update
  }

  /** The inline parameter loop of runE: `UsePreviousValue` is the negation of "overridden"
      for every declared key. It agrees with filterParameters for an update. */
  method OverrideParameters(declared: seq<string>, values: map<string, string>) returns (params: seq<Parameter>)
    ensures params == ReconcileParameters(declared, values, true)
  {
    var stackParams := new Parameter[|declared|](_ => Parameter("", None, None));
    for index := 0 to |declared|
      invariant forall j :: 0 <= j < index ==> stackParams[j] == ResolveParameter(declared[j], values, true)
    {
      var key := declared[index];
      var exist := key in values;
      var userPreviousValue := !exist;
      if exist {
        stackParams[index] := Parameter(key, Some(values[key]), Some(userPreviousValue));
      } else {
        stackParams[index] := Parameter(key, None, Some(userPreviousValue));
      }
    }
    params := stackParams[..];
    assert params == ReconcileParameters(declared, values, true);
  }

  /** updateCmd.runE. The stack's tags are read without a nil check, so a gateway that
      answers "absent" once the template and its summary are obtained makes the command
      panic; the precondition excludes exactly that. */
  method RunE(gw: Gateway, args: StackArgs, file: Result<string>, mode: Mode, confirm: string)
    returns (run: Run, request: Option<ChangeSetRequest>)
    requires gw.stack == Ok(None) ==> UpdateTemplate(gw, args.templatePath, file).Err? || gw.summary.Err?
    ensures UpdateTemplate(gw, args.templatePath, file).Err? ==>
              run == Run(TemplateCalls(args), Err(UpdateTemplate(gw, args.templatePath, file).error))
              && request.None?
    ensures UpdateTemplate(gw, args.templatePath, file).Ok? && gw.summary.Err? ==>
              var t := UpdateTemplate(gw, args.templatePath, file).value;
              run == Run(TemplateCalls(args) + [GetTemplateSummary(t)], Err(gw.summary.error)) && request.None?
    ensures UpdateTemplate(gw, args.templatePath, file).Ok? && gw.summary.Ok? && gw.stack.Err? ==>
              var t := UpdateTemplate(gw, args.templatePath, file).value;
              run == Run(TemplateCalls(args) + [GetTemplateSummary(t), GetStack(args.target)], Err(gw.stack.error))
              && request.None?
    ensures UpdateTemplate(gw, args.templatePath, file).Ok? && gw.summary.Ok? && gw.stack.Ok? ==>
              var t := UpdateTemplate(gw, args.templatePath, file).value;
              gw.stack.value.Some? && request.Some? && IsUpdateRequest(gw, args, t, request.value)
              && run == After(TemplateCalls(args) + [GetTemplateSummary(t), GetStack(args.target)],
                              Workflow(gw, mode, confirm, request.value))
  {
    var calls: seq<Call> := [];
    var templateString: string;
    if |args.templatePath| > 0 {
      if file.Err? {
        return Run(calls, Err(file.error)), None;
      }
      templateString := file.value;
    } else {
      calls := calls + [GetStackTemplate(args.target)];
      if gw.template.Err? {
        return Run(calls, Err(gw.template.error)), None;
      }
      templateString := gw.template.value;
    }
    calls := calls + [GetTemplateSummary(templateString)];
    if gw.summary.Err? {
      return Run(calls, Err(gw.summary.error)), None;
    }
    var stackParams := OverrideParameters(gw.summary.value, args.params);
    calls := calls + [GetStack(args.target)];
    if gw.stack.Err? {
      return Run(calls, Err(gw.stack.error)), None;
    }
    var stack := gw.stack.value.value;
    var stackTags := MergeTags(stack.tags, args.tags);
    var req := ChangeSetRequest(args.target, stackParams, stackTags, Some(templateString), Update);
    var outcome := CreateAndExecute(gw, mode, confirm, req);
    return After(calls, outcome), Some(req);
  }

  /** On an update every parameter carries an explicit reuse flag: reuse exactly when the
      user gave no value. */
  lemma EveryParameterFlagged(declared: seq<string>, values: map<string, string>)
    ensures forall i :: 0 <= i < |declared| ==>
              ReconcileParameters(declared, values, true)[i].usePreviousValue == Some(declared[i] !in values)
  {
  }

  /** On an existing stack, ensure picks the template update picks and requests the change
      set update requests. */
  lemma EnsureOnExistingStackIsUpdate(gw: Gateway, args: StackArgs, file: Result<string>, request: ChangeSetRequest)
    requires gw.stack.Ok? && gw.stack.value.Some? && gw.summary.Ok?
    requires Ensure.Decide(gw, args.templatePath, file).Ok?
    requires Ensure.IsEnsureRequest(gw, args, Ensure.Decide(gw, args.templatePath, file).value, request)
    ensures UpdateTemplate(gw, args.templatePath, file) == Ok(Ensure.Decide(gw, args.templatePath, file).value.template)
    ensures IsUpdateRequest(gw, args, Ensure.Decide(gw, args.templatePath, file).value.template, request)
  {
  }
}
