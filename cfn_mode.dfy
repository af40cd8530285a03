/** The execution mode of the cloudformation commands: a Go `int` enumeration with a
    table of names, a name lookup and a parser (src/cloudformation/cmd/command_manager.go). */
module CfnMode {
  import Strings

  /** Go's `type mode int`: any int, of which 0..3 are named and ParseMode yields -1 for unknown names. */
  type Mode = int

  const Noninteractive: Mode := 0
  const ChangesetOnly: Mode := 1
  const Dry: Mode := 2
  const Interactive: Mode := 3

  /** The `modes` array, indexed by mode. */
  const Modes: seq<string> := ["noninteractive", "changesetonly", "dry", "interactive"]

  /** `m.String()`: indexing `modes` panics outside 0..3, hence the precondition. The name
      printed parses back to the mode, since no two modes share a name. */
  function String(m: Mode): (s: string)
    requires 0 <= m < |Modes|
    ensures s in Modes
    ensures ParseMode(s) == m
  {
    assert forall i, j :: 0 <= i < j < |Modes| ==> Modes[i] != Modes[j];
    Modes[m]
  }

  /** `ParseMode(value)`: the position of `value` in `modes`, -1 when it names no mode. */
  function ParseMode(value: string): (m: Mode)
    ensures m == -1 <==> value !in Modes
    ensures m != -1 ==> 0 <= m < |Modes| && Modes[m] == value
  {
    Strings.IndexOf(Modes, value)
  }

  /** The constants are the table positions in declaration order, and String names each. */
  lemma NamedConstants()
    ensures String(Noninteractive) == "noninteractive" && String(ChangesetOnly) == "changesetonly"
    ensures String(Dry) == "dry" && String(Interactive) == "interactive"
  {
  }

  /** No two modes share a name, so the first match of ParseMode is the only one. */
  lemma NamesDistinct()
    ensures forall i, j :: 0 <= i < j < |Modes| ==> Modes[i] != Modes[j]
  {
  }

  /** Parsing the name of a mode gives the mode back. */
  lemma ParseString(m: Mode)
    requires 0 <= m < |Modes|
    ensures ParseMode(String(m)) == m
  {
    NamesDistinct();
  }

  /** Printing a parsed known name gives the name back. */
  lemma StringParse(value: string)
    requires value in Modes
    ensures String(ParseMode(value)) == value
  {
  }

  /** An unknown name parses to -1, which is none of dry, changesetonly and interactive:
      every mode test in the commands falls through for it (createAndExecute executes
      without prompting, delete-all deletes without prompting). */
  lemma UnknownIsNoGatedMode(value: string)
    requires value !in Modes
    ensures ParseMode(value) == -1
    ensures ParseMode(value) != Dry && ParseMode(value) != ChangesetOnly && ParseMode(value) != Interactive
  {
  }
}
