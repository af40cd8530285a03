/** The shared steps of the stack commands (src/cloudformation/cmd/cfn_facade.go):
    reconciling template parameters with the overrides, merging tags, and the
    create-then-execute change-set workflow gated by the mode. */
module CfnFacade {
  import opened Wrappers
  import opened CfnTypes
  import opened CfnManagement
  import opened CfnMode

  // ---------------------------------------------------------------------------
  // Parameters
  // ---------------------------------------------------------------------------

  /** The parameter sent for one declared key: the override when the user gave one,
      otherwise no value, and on an update the instruction to reuse the deployed value. */
  function ResolveParameter(key: string, values: map<string, string>, isUpdate: bool): Parameter
  {
    if key in values then Parameter(key, Some(values[key]), Some(false))
    else if isUpdate then Parameter(key, None, Some(true))
    else Parameter(key, None, None)
  }

  /** One parameter per key the template declares, in declaration order. */
  function ReconcileParameters(declared: seq<string>, values: map<string, string>, isUpdate: bool)
    : (params: seq<Parameter>)
    ensures |params| == |declared|
    ensures forall i :: 0 <= i < |declared| ==> params[i].key == declared[i]
    ensures forall i :: 0 <= i < |declared| && declared[i] in values ==>
              params[i].value == Some(values[declared[i]]) && params[i].usePreviousValue == Some(false)
    ensures forall i :: 0 <= i < |declared| && declared[i] !in values ==>
              params[i].value.None? && (params[i].usePreviousValue.Some? <==> isUpdate)
    ensures forall i :: 0 <= i < |declared| && params[i].usePreviousValue.Some? ==>
              (params[i].usePreviousValue.value <==> declared[i] !in values)
  {
    seq(|declared|, i requires 0 <= i < |declared| => ResolveParameter(declared[i], values, isUpdate))
  }

  /** filterParameters, given the answer of getTemplateSummary for the template: the
      summary's error, or the reconciled parameters, built index by index. */
  method FilterParameters(summary: Result<seq<string>>, values: map<string, string>, isUpdate: bool)
    returns (r: Result<seq<Parameter>>)
    ensures summary.Err? ==> r == Err(summary.error)
    ensures summary.Ok? ==> r == Ok(ReconcileParameters(summary.value, values, isUpdate))
  {
    if summary.Err? {
      return Err(summary.error);
    }
    var declared := summary.value;
    var stackParams := new Parameter[|declared|](_ => Parameter("", None, None));
    for index := 0 to |declared|
      invariant forall j :: 0 <= j < index ==> stackParams[j] == ResolveParameter(declared[j], values, isUpdate)
    {
      var key := declared[index];
      if key in values {
        stackParams[index] := Parameter(key, Some(values[key]), Some(false));
      } else {
        stackParams[index] := Parameter(key, None, None);
        if isUpdate {
          stackParams[index] := stackParams[index].(usePreviousValue := Some(true));
        }
      }
    }
    assert stackParams[..] == ReconcileParameters(declared, values, isUpdate);
    return Ok(stackParams[..]);
  }

  /** Overrides of keys the template does not declare are dropped. */
  lemma UndeclaredOverridesDropped(declared: seq<string>, values: map<string, string>, isUpdate: bool, key: string)
    requires key !in declared
    ensures forall p :: p in ReconcileParameters(declared, values, isUpdate) ==> p.key != key
  {
    var params := ReconcileParameters(declared, values, isUpdate);
    forall p | p in params
      ensures p.key != key
    {
      var i :| 0 <= i < |params| && params[i] == p;
      assert p.key == declared[i];
    }
  }

  /** A create never asks to reuse a previous value: there is none. */
  lemma CreateNeverReusesValues(declared: seq<string>, values: map<string, string>)
    ensures forall p :: p in ReconcileParameters(declared, values, false) ==> p.usePreviousValue != Some(true)
  {
    var params := ReconcileParameters(declared, values, false);
    forall p | p in params
      ensures p.usePreviousValue != Some(true)
    {
      var i :| 0 <= i < |params| && params[i] == p;
    }
  }

  /** The parameter-override case of the update tests: the template declares a, b and d,
      the user overrides a and d. */
  lemma UpdateParameterExample()
    ensures ReconcileParameters(["a", "b", "d"], map["a" := "vaa", "d" := "vdd"], true) ==
            [Parameter("a", Some("vaa"), Some(false)),
             Parameter("b", None, Some(true)),
             Parameter("d", Some("vdd"), Some(false))]
  {
    var values := map["a" := "vaa", "d" := "vdd"];
    assert "b" !in values;
  }

  // ---------------------------------------------------------------------------
  // Tags
  // ---------------------------------------------------------------------------

  /** An existing tag, with its value replaced when the user overrides its key. */
  function OverrideTag(t: Tag, overrides: map<string, string>): Tag
  {
    if t.key in overrides then Tag(t.key, overrides[t.key]) else t
  }

  /** The first pass of mergeTags: every existing tag in place, overridden where asked. */
  function OverrideExisting(oldTags: seq<Tag>, overrides: map<string, string>): seq<Tag>
  {
    seq(|oldTags|, i requires 0 <= i < |oldTags| => OverrideTag(oldTags[i], overrides))
  }

  /** The override pairs not already present, as tags, among `existing`. */
  function AddedTags(existing: seq<Tag>, overrides: map<string, string>): set<Tag>
  {
    set k | k in overrides && Tag(k, overrides[k]) !in existing :: Tag(k, overrides[k])
  }

  /** No tag occurs twice. */
  predicate Distinct(tags: seq<Tag>)
  {
    forall i, j :: 0 <= i < j < |tags| ==> tags[i] != tags[j]
  }

  /** No key occurs twice. */
  predicate KeysDistinct(tags: seq<Tag>)
  {
    forall i, j :: 0 <= i < j < |tags| ==> tags[i].key != tags[j].key
  }

  /** `merged` is a result of mergeTags: the overridden existing tags in their order,
      then each missing override pair once, in some order (the order of Go's map
      iteration is unspecified). */
  predicate IsTagMerge(oldTags: seq<Tag>, overrides: map<string, string>, merged: seq<Tag>)
    ensures IsTagMerge(oldTags, overrides, merged) ==> |oldTags| <= |merged| <= |oldTags| + |overrides|
  {
    var n := |oldTags|;
    if n <= |merged|
       && merged[..n] == OverrideExisting(oldTags, overrides)
       && Distinct(merged[n..])
       && (forall t :: t in merged[n..] ==> t in AddedTags(merged[..n], overrides))
       && (forall t :: t in AddedTags(merged[..n], overrides) ==> t in merged[n..])
    then
      AddedBound(merged[n..], merged[..n], overrides);
      true
    else false
  }

  /** The override pairs as tags, one per key in `keys`. */
  function PairTags(keys: set<string>, overrides: map<string, string>): set<Tag>
    requires keys <= overrides.Keys
  {
    set k | k in keys :: Tag(k, overrides[k])
  }

  /** There are no more override tags than keys. */
  lemma {:induction false} PairTagsBound(keys: set<string>, overrides: map<string, string>)
    requires keys <= overrides.Keys
    ensures |PairTags(keys, overrides)| <= |keys|
    decreases keys
  {
    if keys != {} {
      var k :| k in keys;
      PairTagsBound(keys - {k}, overrides);
      assert PairTags(keys, overrides) == PairTags(keys - {k}, overrides) + {Tag(k, overrides[k])};
    }
  }

  /** A repetition-free list of added tags has at most one entry per override. */
  lemma AddedBound(added: seq<Tag>, existing: seq<Tag>, overrides: map<string, string>)
    requires Distinct(added)
    requires forall t :: t in added ==> t in AddedTags(existing, overrides)
    ensures |added| <= |overrides|
  {
    DistinctCount(added);
    var pairs := PairTags(overrides.Keys, overrides);
    assert Elements(added) <= pairs;
    PairTagsBound(overrides.Keys, overrides);
    assert pairs == Elements(added) + (pairs - Elements(added));
  }

  /** The tagExist closure of mergeTags: whether the pair is among the tags so far. */
  method TagExists(stackTags: seq<Tag>, ntKey: string, ntValue: string) returns (found: bool)
    ensures found <==> Tag(ntKey, ntValue) in stackTags
  {
    for i := 0 to |stackTags|
      invariant forall j :: 0 <= j < i ==> stackTags[j] != Tag(ntKey, ntValue)
    {
      if ntKey == stackTags[i].key && ntValue == stackTags[i].value {
        return true;
      }
    }
    return false;
  }

  /** mergeTags: override existing tags in place, then append each override pair that is
      not yet present, visiting the override keys in an arbitrary order. */
  method MergeTags(oldTags: seq<Tag>, newTags: map<string, string>) returns (stackTags: seq<Tag>)
    ensures IsTagMerge(oldTags, newTags, stackTags)
  {
    var existing := new Tag[|oldTags|](_ => Tag("", ""));
    for tagIndex := 0 to |oldTags|
      invariant forall j :: 0 <= j < tagIndex ==> existing[j] == OverrideTag(oldTags[j], newTags)
    {
      var stackTag := oldTags[tagIndex];
      if stackTag.key in newTags {
        existing[tagIndex] := Tag(stackTag.key, newTags[stackTag.key]);
      } else {
        existing[tagIndex] := Tag(stackTag.key, stackTag.value);
      }
    }
    stackTags := existing[..];
    ghost var base := stackTags;
    assert base == OverrideExisting(oldTags, newTags);
    var pending := newTags.Keys;
    while pending != {}
      invariant pending <= newTags.Keys
      invariant |base| <= |stackTags| && stackTags[..|base|] == base
      invariant Distinct(stackTags[|base|..])
      invariant forall t :: t in stackTags[|base|..] <==>
                  t.key in newTags.Keys - pending && t.value == newTags[t.key] && t !in base
      decreases pending
    {
      var ntKey :| ntKey in pending;
      var ntValue := newTags[ntKey];
      var tagExist := TagExists(stackTags, ntKey, ntValue);
      assert stackTags == base + stackTags[|base|..];
      if !tagExist {
        ghost var added := stackTags[|base|..];
        stackTags := stackTags + [Tag(ntKey, ntValue)];
        assert stackTags[|base|..] == added + [Tag(ntKey, ntValue)];
      }
      pending := pending - {ntKey};
    }
    assert stackTags[..|base|] == base;
  }

  /** The set of tags listed. */
  function Elements(tags: seq<Tag>): set<Tag>
  {
    set t | t in tags
  }

  /** A list without repetition has as many entries as elements. */
  lemma {:induction false} DistinctCount(tags: seq<Tag>)
    requires Distinct(tags)
    ensures |Elements(tags)| == |tags|
    decreases |tags|
  {
    if tags != [] {
      var rest := tags[1..];
      assert Distinct(rest) by {
        forall i, j | 0 <= i < j < |rest|
          ensures rest[i] != rest[j]
        {
          assert rest[i] == tags[i + 1] && rest[j] == tags[j + 1];
        }
      }
      DistinctCount(rest);
      assert tags == [tags[0]] + rest;
      assert Elements(tags) == {tags[0]} + Elements(rest);
      assert tags[0] !in Elements(rest) by {
        forall k | 0 <= k < |rest|
          ensures rest[k] != tags[0]
        {
          assert rest[k] == tags[k + 1];
        }
      }
    }
  }

  /** The merge appends exactly one tag per override pair missing from the overridden
      existing tags. */
  lemma MergeLength(oldTags: seq<Tag>, overrides: map<string, string>, merged: seq<Tag>)
    requires IsTagMerge(oldTags, overrides, merged)
    ensures |merged| == |oldTags| + |AddedTags(OverrideExisting(oldTags, overrides), overrides)|
  {
    var n := |oldTags|;
    DistinctCount(merged[n..]);
    assert Elements(merged[n..]) == AddedTags(merged[..n], overrides);
  }

  /** Without overrides the tags are sent back unchanged. */
  lemma MergeWithoutOverrides(oldTags: seq<Tag>, merged: seq<Tag>)
    requires IsTagMerge(oldTags, map[], merged)
    ensures merged == oldTags
  {
    var n := |oldTags|;
    assert OverrideExisting(oldTags, map[]) == oldTags;
    assert AddedTags(oldTags, map[]) == {};
    MergeLength(oldTags, map[], merged);
    assert merged == merged[..n];
  }

  /** Overrides win: every tag whose key is overridden carries the override, and every
      override pair is present. */
  lemma OverridesWin(oldTags: seq<Tag>, overrides: map<string, string>, merged: seq<Tag>)
    requires IsTagMerge(oldTags, overrides, merged)
    ensures forall i :: 0 <= i < |merged| && merged[i].key in overrides ==>
              merged[i].value == overrides[merged[i].key]
    ensures forall k :: k in overrides ==> Tag(k, overrides[k]) in merged
  {
    var n := |oldTags|;
    forall i | 0 <= i < |merged| && merged[i].key in overrides
      ensures merged[i].value == overrides[merged[i].key]
    {
      if i < n {
        assert merged[i] == merged[..n][i];
      } else {
        assert merged[i] in merged[n..];
      }
    }
    forall k | k in overrides
      ensures Tag(k, overrides[k]) in merged
    {
      var t := Tag(k, overrides[k]);
      assert merged == merged[..n] + merged[n..];
      if t !in merged[..n] {
        assert t in AddedTags(merged[..n], overrides);
      }
    }
  }

  /** Existing tags keep their key and position, and their value unless overridden. */
  lemma ExistingTagsKept(oldTags: seq<Tag>, overrides: map<string, string>, merged: seq<Tag>)
    requires IsTagMerge(oldTags, overrides, merged)
    ensures forall i :: 0 <= i < |oldTags| ==> merged[i].key == oldTags[i].key
    ensures forall i :: 0 <= i < |oldTags| && oldTags[i].key !in overrides ==> merged[i] == oldTags[i]
  {
    var n := |oldTags|;
    forall i | 0 <= i < n
      ensures merged[i] == OverrideTag(oldTags[i], overrides)
    {
      assert merged[i] == merged[..n][i];
    }
  }

  /** Every tag in the merge comes from the existing tags or from the overrides. */
  lemma MergedTagsHaveOrigin(oldTags: seq<Tag>, overrides: map<string, string>, merged: seq<Tag>)
    requires IsTagMerge(oldTags, overrides, merged)
    ensures forall t :: t in merged ==>
              t in oldTags || (t.key in overrides && t.value == overrides[t.key])
  {
    var n := |oldTags|;
    forall t | t in merged
      ensures t in oldTags || (t.key in overrides && t.value == overrides[t.key])
    {
      var i :| 0 <= i < |merged| && merged[i] == t;
      if i < n {
        assert merged[i] == merged[..n][i];
        assert oldTags[i] in oldTags;
      } else {
        assert merged[i] in merged[n..];
      }
    }
  }

  /** With distinct existing keys, the merge has distinct keys: an override of a present
      key is never appended a second time. */
  lemma DistinctKeysPreserved(oldTags: seq<Tag>, overrides: map<string, string>, merged: seq<Tag>)
    requires IsTagMerge(oldTags, overrides, merged)
    requires KeysDistinct(oldTags)
    ensures KeysDistinct(merged)
  {
    var n := |oldTags|;
    ExistingTagsKept(oldTags, overrides, merged);
    forall i, j | 0 <= i < j < |merged|
      ensures merged[i].key != merged[j].key
    {
      if j < n {
        assert merged[i].key == oldTags[i].key && merged[j].key == oldTags[j].key;
      } else {
        assert merged[j] in merged[n..];
        var k := merged[j].key;
        assert k in overrides && merged[j] == Tag(k, overrides[k]) && merged[j] !in merged[..n];
        if i < n {
          assert merged[i] == merged[..n][i] && merged[i] in merged[..n];
        } else {
          assert merged[n..][i - n] == merged[i] && merged[n..][j - n] == merged[j];
          assert merged[i] in merged[n..];
        }
      }
    }
  }

  /** Merging into no tags (a stack being created): exactly the override pairs, once per key. */
  lemma MergeIntoNothing(overrides: map<string, string>, merged: seq<Tag>)
    requires IsTagMerge([], overrides, merged)
    ensures forall t :: t in merged <==> t.key in overrides && t.value == overrides[t.key]
    ensures KeysDistinct(merged)
  {
    OverridesWin([], overrides, merged);
    MergedTagsHaveOrigin([], overrides, merged);
    DistinctKeysPreserved([], overrides, merged);
  }

  /** The tag-override case of the update tests: tags a=va and b=vb, overrides a=vaa and
      c=vcc. */
  lemma UpdateTagExample(merged: seq<Tag>)
    requires IsTagMerge([Tag("a", "va"), Tag("b", "vb")], map["a" := "vaa", "c" := "vcc"], merged)
    ensures merged == [Tag("a", "vaa"), Tag("b", "vb"), Tag("c", "vcc")]
  {
    var oldTags := [Tag("a", "va"), Tag("b", "vb")];
    var overrides := map["a" := "vaa", "c" := "vcc"];
    var base := OverrideExisting(oldTags, overrides);
    assert base == [Tag("a", "vaa"), Tag("b", "vb")];
    assert Tag("a", "vaa") in base && Tag("c", "vcc") !in base;
    forall t | t in AddedTags(base, overrides)
      ensures t == Tag("c", "vcc")
    {
      var k :| k in overrides && Tag(k, overrides[k]) !in base && t == Tag(k, overrides[k]);
      assert k == "a" || k == "c";
    }
    assert Tag("c", overrides["c"]) in AddedTags(base, overrides);
    assert AddedTags(base, overrides) == {Tag("c", "vcc")};
    MergeLength(oldTags, overrides, merged);
    assert merged[2] in merged[2..];
    assert merged == merged[..2] + [merged[2]];
  }

  // ---------------------------------------------------------------------------
  // Create and execute
  // ---------------------------------------------------------------------------

  /** The word an interactive user types to let a change set run. */
  const Confirmation: string := "confirm"

  /** Whether, once created, the change set is executed: not in changesetonly mode, and in
      interactive mode only after the confirmation word. Dry mode never gets this far. */
  predicate ExecutesAfterCreate(mode: Mode, confirm: string)
  {
    mode != ChangesetOnly && (mode == Interactive ==> confirm == Confirmation)
  }

  /** What createAndExecute does against `gw` for `request`; `confirm` is the word read
      from standard input in interactive mode. */
  function Workflow(gw: Gateway, mode: Mode, confirm: string, request: ChangeSetRequest): (run: Run)
    ensures run.calls == [] <==> mode == Dry
    ensures mode == Dry ==> run.result == Ok(())
    ensures mode != Dry ==> run.calls[0] == CreateChangeSet(request)
    ensures |run.calls| <= 2
    ensures |run.calls| == 2 <==> mode != Dry && gw.Created().Ok? && ExecutesAfterCreate(mode, confirm)
    ensures |run.calls| == 2 ==>
              var created := gw.Created().value;
              run.calls[1] == ExecuteChangeSet(created.stackId, created.id) && run.result == gw.Executed()
    ensures |run.calls| == 1 && gw.Created().Err? ==> run.result == Err(gw.Created().error)
    ensures |run.calls| == 1 && gw.Created().Ok? ==> run.result == Ok(())
  {
    if mode == Dry then Run([], Ok(()))
    else
      var created := gw.Created();
      if created.Err? then Run([CreateChangeSet(request)], Err(created.error))
      else if !ExecutesAfterCreate(mode, confirm) then Run([CreateChangeSet(request)], Ok(()))
      else Run([CreateChangeSet(request), ExecuteChangeSet(created.value.stackId, created.value.id)], gw.Executed())
  }

  /** createAndExecute. */
  method CreateAndExecute(gw: Gateway, mode: Mode, confirm: string, request: ChangeSetRequest)
    returns (run: Run)
    ensures run == Workflow(gw, mode, confirm, request)
  {
    if mode == Dry {
      return Run([], Ok(()));
    }
    var calls := [CreateChangeSet(request)];
    var created := gw.Created();
    if created.Err? {
      return Run(calls, Err(created.error));
    }
    if mode == ChangesetOnly {
      return Run(calls, Ok(()));
    }
    if mode == Interactive {
      if confirm != Confirmation {
        return Run(calls, Ok(()));
      }
    }
    calls := calls + [ExecuteChangeSet(created.value.stackId, created.value.id)];
    return Run(calls, gw.Executed());
  }

  /** A mode name nobody recognises executes the change set without asking. */
  lemma UnknownModeExecutes(gw: Gateway, value: string, confirm: string, request: ChangeSetRequest)
    requires value !in Modes
    requires gw.Created().Ok?
    ensures |Workflow(gw, ParseMode(value), confirm, request).calls| == 2
  {
    UnknownIsNoGatedMode(value);
  }

  /** A change set is executed only after it was created, and never in dry or changesetonly
      mode, nor in interactive mode without the confirmation word. */
  lemma ExecutionIsGated(gw: Gateway, mode: Mode, confirm: string, request: ChangeSetRequest, i: int)
    requires 0 <= i < |Workflow(gw, mode, confirm, request).calls|
    requires Workflow(gw, mode, confirm, request).calls[i].ExecuteChangeSet?
    ensures i > 0 && Workflow(gw, mode, confirm, request).calls[i - 1] == CreateChangeSet(request)
    ensures mode != Dry && mode != ChangesetOnly
    ensures mode == Interactive ==> confirm == Confirmation
  {
  }
}
