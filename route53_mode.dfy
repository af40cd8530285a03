/** The route53 commands' copy of the execution mode enumeration
    (src/route53/cmd/command_manager.go): the same constants, table, lookup and parser. */
module Route53Mode {
  import Strings

  /** Go's `type mode int`. */
  type Mode = int

  const Noninteractive: Mode := 0
  const ChangesetOnly: Mode := 1
  const Dry: Mode := 2
  const Interactive: Mode := 3

  /** The `modes` array, indexed by mode. */
  const Modes: seq<string> := ["noninteractive", "changesetonly", "dry", "interactive"]

  /** `m.String()`: indexing `modes` panics outside 0..3, hence the precondition. The name
      printed parses back to the mode, since no two modes share a name. */
  function String(m: Mode): (s: string)
    requires 0 <= m < |Modes|
    ensures s in Modes
    ensures ParseMode(s) == m
  {
    assert forall i, j :: 0 <= i < j < |Modes| ==> Modes[i] != Modes[j];
    Modes[m]
  }

  /** `ParseMode(value)`: the position of `value` in `modes`, -1 when it names no mode. */
  function ParseMode(value: string): (m: Mode)
    ensures m == -1 <==> value !in Modes
    ensures m != -1 ==> 0 <= m < |Modes| && Modes[m] == value
  {
    Strings.IndexOf(Modes, value)
  }

  /** The unit test TestModeString: noninteractive prints as the first table entry. */
  lemma StringOfNoninteractive()
    ensures String(Noninteractive) == Modes[0] == "noninteractive"
  {
  }

  /** The unit test TestModeParse: the fourth table entry parses to 3, i.e. interactive. */
  lemma ParseOfInteractive()
    ensures ParseMode(Modes[3]) == 3 == Interactive
  {
  }

  /** Parsing the name of a mode gives the mode back, for all four modes. */
  lemma ParseString(m: Mode)
    requires 0 <= m < |Modes|
    ensures ParseMode(String(m)) == m
  {
    assert forall i, j :: 0 <= i < j < |Modes| ==> Modes[i] != Modes[j];
  }
}
