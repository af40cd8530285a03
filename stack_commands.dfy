/** The arguments shared by the ensure and update commands and their validation
    (`preRunE` in src/cloudformation/cmd/ensure.go and src/cloudformation/cmd/update.go,
    which are identical). */
module StackCommands {
  import opened Wrappers
  import Strings

  /** The values read from the configuration: target stack, parameter and tag overrides,
      template path. */
  datatype StackArgs = StackArgs(target: string, params: map<string, string>,
                                 tags: map<string, string>, templatePath: string)

  const TargetMissing: string := "Please specify target stack to update."
  const NothingSpecified: string := "Nothing specified to update."

  /** No parameter, no tag and no template: there is nothing to change. */
  predicate NothingToUpdate(args: StackArgs)
  {
    |args.params| == 0 && |args.tags| == 0 && args.templatePath == ""
  }

  /** The messages of the checks that fail, in the order they are made. */
  function Failures(args: StackArgs): (messages: seq<string>)
    ensures TargetMissing in messages <==> args.target == ""
    ensures NothingSpecified in messages <==> NothingToUpdate(args)
    ensures |messages| == (if args.target == "" then 1 else 0) + (if NothingToUpdate(args) then 1 else 0)
    ensures |messages| == 2 ==> messages == [TargetMissing, NothingSpecified]
    ensures forall i :: 0 <= i < |messages| ==> messages[i] == TargetMissing || messages[i] == NothingSpecified
  {
    (if args.target == "" then [TargetMissing] else [])
    + (if NothingToUpdate(args) then [NothingSpecified] else [])
  }

  /** The error preRunE returns: none when both checks pass, otherwise the failure messages
      one per line. */
  function Validate(args: StackArgs): (err: Option<string>)
    ensures err.None? <==> args.target != "" && !NothingToUpdate(args)
    ensures err.Some? ==> Strings.Split(err.value, '\n') == Failures(args)
  {
    var messages := Failures(args);
    if messages == [] then None
    else
      assert forall i :: 0 <= i < |messages| ==> '\n' !in messages[i];
      Strings.SplitJoin(messages, '\n');
      Some(Strings.Join(messages, "\n"))
  }

  /** Both checks failing give both messages, the target's first. */
  lemma BothMessages(args: StackArgs)
    requires args.target == "" && NothingToUpdate(args)
    ensures Validate(args) == Some(TargetMissing + "\n" + NothingSpecified)
  {
    var messages := Failures(args);
    assert messages == [TargetMissing, NothingSpecified];
    assert Strings.Join(messages[1..], "\n") == NothingSpecified;
  }

  /** A single failing check gives its message alone. */
  lemma SingleMessage(args: StackArgs)
    ensures args.target == "" && !NothingToUpdate(args) ==> Validate(args) == Some(TargetMissing)
    ensures args.target != "" && NothingToUpdate(args) ==> Validate(args) == Some(NothingSpecified)
  {
  }

  /** The command object of ensure and update: its fields are filled by preRunE and read by runE. */
  class StackCommand {
    var target: string
    var params: map<string, string>
    var tags: map<string, string>
    var templatePath: string

    /** A command before preRunE: every field at its zero value. */
    constructor ()
      ensures Args() == StackArgs("", map[], map[], "")
    {
      target := "";
      params := map[];
      tags := map[];
      templatePath := "";
    }

    /** The current field values. */
    function Args(): StackArgs
      reads this
    {
      StackArgs(target, params, tags, templatePath)
    }

    /** preRunE: store the configured values, then validate them. */
    method PreRunE(target: string, params: map<string, string>, tags: map<string, string>, templatePath: string)
      returns (err: Option<string>)
      modifies this
      ensures Args() == StackArgs(target, params, tags, templatePath)
      ensures err == Validate(Args())
    {
      this.target := target;
      this.params := params;
      this.tags := tags;
      this.templatePath := templatePath;
      var errstrings: seq<string> := [];
      if this.target == "" {
        errstrings := errstrings + [TargetMissing];
      }
      if |this.params| == 0 && |this.tags| == 0 && this.templatePath == "" {
        errstrings := errstrings + [NothingSpecified];
      }
      if |errstrings| > 0 {
        return Some(Strings.Join(errstrings, "\n"));
      }
      return None;
    }
  }
}
