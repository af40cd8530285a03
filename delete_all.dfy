/** The delete-all command (src/cloudformation/cmd/delete_all.go): consume the stacks every
    region reports, skip the protected ones, and delete the rest, gated by the mode. */
module DeleteAll {
  import opened Wrappers
  import opened CfnTypes
  import opened CfnMode
  import opened CfnFacade

  /** What the consumer receives, in the order it receives it: a stack, a region's "done"
      sentinel (a nil stack), or an error. */
  datatype Event = Found(stack: Stack) | RegionDone | Failed(error: string)

  /** How runE ends: it returns (Ok for nil), or it waits forever for an event that never
      comes. */
  datatype Outcome = Returned(result: Result<()>) | Blocked

  /** What runE did: the unprotected stacks it considered, the ARNs it passed to delete, in
      order, how many confirmations it read, and how it ended. */
  datatype Sweep = Sweep(candidates: seq<Stack>, deletes: seq<string>, prompts: nat, outcome: Outcome)

  const ChangesetOnlyRejected: string := "Mode changesetonly is not allowed for delete-all cmd."

  /** deleteAllCmd.preRunE: only changesetonly is refused. */
  function PreRunE(mode: Mode): (err: Option<string>)
    ensures err.Some? <==> mode == ChangesetOnly
    ensures err.Some? ==> err.value == ChangesetOnlyRejected
  {
    if mode == ChangesetOnly then Some(ChangesetOnlyRejected) else None
  }

  /** The delete-all validation case of the tests: noninteractive is accepted. */
  lemma NoninteractiveAccepted()
    ensures PreRunE(Noninteractive) == None
  {
  }

  /** The k-th word read from standard input; Scanf leaves the word empty once input is
      exhausted. */
  function Answer(answers: seq<string>, k: nat): string
  {
    if k < |answers| then answers[k] else ""
  }

  /** `first`'s log followed by `rest`'s, ending as `rest` ends. */
  function Extend(first: Sweep, rest: Sweep): Sweep
  {
    Sweep(first.candidates + rest.candidates, first.deletes + rest.deletes,
          first.prompts + rest.prompts, rest.outcome)
  }

  /** What runE does with the events still to come while `pending` regions have not
      reported done, `asked` confirmations having been read: a reference definition,
      one event at a time. */
  function Drain(events: seq<Event>, pending: int, mode: Mode, answers: seq<string>,
                 deleteErrors: map<string, string>, asked: nat): (sweep: Sweep)
    ensures pending <= 0 ==> sweep == Sweep([], [], 0, Returned(Ok(())))
    ensures pending > 0 && events == [] ==> sweep.outcome == Blocked
    decreases |events|
  {
    if pending <= 0 then Sweep([], [], 0, Returned(Ok(())))
    else if |events| == 0 then Sweep([], [], 0, Blocked)
    else
      var rest := events[1..];
      match events[0]
      case Failed(e) => Sweep([], [], 0, Returned(Err(e)))
      case RegionDone => Drain(rest, pending - 1, mode, answers, deleteErrors, asked)
      case Found(s) =>
        if s.terminationProtection then Drain(rest, pending, mode, answers, deleteErrors, asked)
        else if mode == Interactive && Answer(answers, asked) != Confirmation then
          Sweep([s], [], 1, Returned(Ok(())))
        else if mode == Dry then
          Extend(Sweep([s], [], 0, Blocked), Drain(rest, pending, mode, answers, deleteErrors, asked))
        else
          var prompted := if mode == Interactive then 1 else 0;
          if s.stackId in deleteErrors then
            Sweep([s], [s.stackId], prompted, Returned(Err(deleteErrors[s.stackId])))
          else
            Extend(Sweep([s], [s.stackId], prompted, Blocked),
                   Drain(rest, pending, mode, answers, deleteErrors, asked + prompted))
  }

  /** One pass of the select in runE's loop, on the next event `evs[0]`: what it adds to the
      log, whether it was a region's sentinel, and whether runE returns with it. */
  method Receive(evs: seq<Event>, pending: int, mode: Mode, answers: seq<string>,
                 deleteErrors: map<string, string>, asked: nat)
    returns (step: Sweep, regionDone: bool, stop: bool)
    requires pending > 0 && |evs| > 0
    ensures stop ==> Drain(evs, pending, mode, answers, deleteErrors, asked) == step
    ensures !stop ==> step.outcome == Blocked
    ensures !stop ==> Drain(evs, pending, mode, answers, deleteErrors, asked)
                      == Extend(step, Drain(evs[1..], if regionDone then pending - 1 else pending,
                                            mode, answers, deleteErrors, asked + step.prompts))
  {
    match evs[0]
    case Failed(e) =>
      return Sweep([], [], 0, Returned(Err(e))), false, true;
    case RegionDone =>
      ExtendEmpty(Drain(evs[1..], pending - 1, mode, answers, deleteErrors, asked));
      return Sweep([], [], 0, Blocked), true, false;
    case Found(stack) =>
      if stack.terminationProtection {
        ExtendEmpty(Drain(evs[1..], pending, mode, answers, deleteErrors, asked));
        return Sweep([], [], 0, Blocked), false, false;
      }
      var prompted := 0;
      if mode == Interactive {
        var confirmString := Answer(answers, asked);
        prompted := 1;
        if confirmString != Confirmation {
          return Sweep([stack], [], 1, Returned(Ok(()))), false, true;
        }
      }
      if mode == Dry {
        return Sweep([stack], [], 0, Blocked), false, false;
      }
      if stack.stackId in deleteErrors {
        return Sweep([stack], [stack.stackId], prompted, Returned(Err(deleteErrors[stack.stackId]))), false, true;
      }
      return Sweep([stack], [stack.stackId], prompted, Blocked), false, false;
  }

  /** deleteAllCmd.runE, consuming `events` (the interleaved output of getAll); `regionCount`
      is getRegionCount(), `answers` the words typed at the prompts, and `deleteErrors` the
      error delete answers for an ARN (success for any other). The end of `events` stands
      for a receive that never completes. */
  method RunE(events: seq<Event>, regionCount: int, mode: Mode, answers: seq<string>,
              deleteErrors: map<string, string>) returns (sweep: Sweep)
    ensures sweep == Drain(events, regionCount, mode, answers, deleteErrors, 0)
  {
    var log := Sweep([], [], 0, Blocked);
    var unread := events;
    var i := 0;
    ghost var whole := Drain(events, regionCount, mode, answers, deleteErrors, 0);
    assert regionCount - i == regionCount && log.prompts == 0;
    assert Drain(unread, regionCount - i, mode, answers, deleteErrors, log.prompts) == whole;
    ExtendEmpty(whole);
    while i < regionCount
      invariant log.outcome == Blocked
      invariant whole == Extend(log, Drain(unread, regionCount - i, mode, answers, deleteErrors, log.prompts))
      decreases |unread|
    {
      if unread == [] {
        // the next receive never completes
        ExtendEnd(log, Blocked);
        return log;
      }
      var step, regionDone, stop := Receive(unread, regionCount - i, mode, answers, deleteErrors, log.prompts);
      if stop {
        return Extend(log, step);
      }
      ExtendAssoc(log, step, Drain(unread[1..], if regionDone then regionCount - i - 1 else regionCount - i,
                                   mode, answers, deleteErrors, log.prompts + step.prompts));
      log := Extend(log, step);
      unread := unread[1..];
      if regionDone {
        i := i + 1;
      }
    }
    ExtendEnd(log, Returned(Ok(())));
    return Sweep(log.candidates, log.deletes, log.prompts, Returned(Ok(())));
  }

  /** Logs concatenate associatively. */
  lemma ExtendAssoc(a: Sweep, b: Sweep, c: Sweep)
    ensures Extend(a, Extend(b, c)) == Extend(Extend(a, b), c)
  {
    assert a.candidates + (b.candidates + c.candidates) == (a.candidates + b.candidates) + c.candidates;
    assert a.deletes + (b.deletes + c.deletes) == (a.deletes + b.deletes) + c.deletes;
  }

  /** An empty log changes nothing. */
  lemma ExtendEmpty(x: Sweep)
    ensures Extend(Sweep([], [], 0, Blocked), x) == x
  {
    assert [] + x.candidates == x.candidates;
    assert [] + x.deletes == x.deletes;
  }

  /** Ending right away keeps the log so far. */
  lemma ExtendEnd(a: Sweep, outcome: Outcome)
    ensures Extend(a, Sweep([], [], 0, outcome)) == Sweep(a.candidates, a.deletes, a.prompts, outcome)
  {
    assert a.candidates + [] == a.candidates;
    assert a.deletes + [] == a.deletes;
  }

  // ---------------------------------------------------------------------------
  // The stream
  // ---------------------------------------------------------------------------

  /** The number of "done" sentinels among `events`. */
  function CountDone(events: seq<Event>): nat
  {
    if |events| == 0 then 0 else (if events[0].RegionDone? then 1 else 0) + CountDone(events[1..])
  }

  /** Whether an error is among `events`. */
  predicate HasFailure(events: seq<Event>)
  {
    exists i :: 0 <= i < |events| && events[i].Failed?
  }

  /** The stacks without termination protection among `events`, in arrival order. */
  function Unprotected(events: seq<Event>): seq<Stack>
  {
    if |events| == 0 then []
    else (if events[0].Found? && !events[0].stack.terminationProtection then [events[0].stack] else [])
         + Unprotected(events[1..])
  }

  /** The ARNs of `stacks`, in order. */
  function Ids(stacks: seq<Stack>): seq<string>
  {
    seq(|stacks|, i requires 0 <= i < |stacks| => stacks[i].stackId)
  }

  /** `a` is an initial part of `b`. */
  predicate IsPrefix<T(==)>(a: seq<T>, b: seq<T>)
  {
    |a| <= |b| && a == b[..|a|]
  }

  // ---------------------------------------------------------------------------
  // Properties of the loop
  // ---------------------------------------------------------------------------

  /** After a first event that is not an error, the rest of a stream that held the sentinels
      awaited, or an error, still holds those left to await, or the error. */
  lemma DeliveredRest(events: seq<Event>, pending: int)
    requires |events| > 0 && !events[0].Failed?
    requires CountDone(events) >= pending || HasFailure(events)
    ensures CountDone(events[1..]) >= (if events[0].RegionDone? then pending - 1 else pending)
            || HasFailure(events[1..])
  {
    if HasFailure(events) {
      var i :| 0 <= i < |events| && events[i].Failed?;
      assert events[1..][i - 1].Failed?;
    }
  }

  /** A stream that holds all the sentinels awaited, or an error, never leaves runE waiting. */
  lemma {:induction false} DeliveredStreamEnds(events: seq<Event>, pending: int, mode: Mode, answers: seq<string>,
                                               deleteErrors: map<string, string>, asked: nat)
    requires CountDone(events) >= pending || HasFailure(events)
    ensures Drain(events, pending, mode, answers, deleteErrors, asked).outcome.Returned?
    decreases |events|
  {
    if pending > 0 && |events| > 0 && !events[0].Failed? {
      var rest := events[1..];
      DeliveredRest(events, pending);
      match events[0]
      case RegionDone =>
        DeliveredStreamEnds(rest, pending - 1, mode, answers, deleteErrors, asked);
      case Found(s) =>
        if s.terminationProtection || mode == Dry {
          DeliveredStreamEnds(rest, pending, mode, answers, deleteErrors, asked);
        } else if mode == Interactive && Answer(answers, asked) != Confirmation {
        } else if s.stackId !in deleteErrors {
          DeliveredStreamEnds(rest, pending, mode, answers, deleteErrors, asked + (if mode == Interactive then 1 else 0));
        }
    }
  }

  /** Once runE has returned, later events make no difference: the loop stops at the first
      error, after the last sentinel awaited, or at a refusal or a failed delete. */
  lemma {:induction false} LaterEventsIgnored(events: seq<Event>, later: seq<Event>, pending: int, mode: Mode,
                                              answers: seq<string>, deleteErrors: map<string, string>, asked: nat)
    requires Drain(events, pending, mode, answers, deleteErrors, asked).outcome.Returned?
    ensures Drain(events + later, pending, mode, answers, deleteErrors, asked)
            == Drain(events, pending, mode, answers, deleteErrors, asked)
    decreases |events|
  {
    if pending > 0 {
      var rest := events[1..];
      assert (events + later)[1..] == rest + later;
      match events[0]
      case Failed(e) =>
      case RegionDone =>
        LaterEventsIgnored(rest, later, pending - 1, mode, answers, deleteErrors, asked);
      case Found(s) =>
        var prompted := if mode == Interactive then 1 else 0;
        if !s.terminationProtection && (mode != Interactive || Answer(answers, asked) == Confirmation) {
          if mode == Dry {
            LaterEventsIgnored(rest, later, pending, mode, answers, deleteErrors, asked);
          } else if s.stackId !in deleteErrors {
            LaterEventsIgnored(rest, later, pending, mode, answers, deleteErrors, asked + prompted);
          }
        } else if s.terminationProtection {
          LaterEventsIgnored(rest, later, pending, mode, answers, deleteErrors, asked);
        }
    }
  }

  /** The candidates are an initial part of the unprotected stacks of `events`, and each
      prompted exactly once in interactive mode and never otherwise. */
  predicate ConsidersUnprotected(sweep: Sweep, events: seq<Event>, mode: Mode)
  {
    IsPrefix(sweep.candidates, Unprotected(events))
    && sweep.prompts == (if mode == Interactive then |sweep.candidates| else 0)
  }

  /** Considering an unprotected stack before a log of the later events keeps the property. */
  lemma ConsidersAfterFound(s: Stack, rest: seq<Event>, step: Sweep, tail: Sweep, mode: Mode)
    requires !s.terminationProtection
    requires step.candidates == [s] && step.prompts == (if mode == Interactive then 1 else 0)
    requires ConsidersUnprotected(tail, rest, mode)
    ensures ConsidersUnprotected(Extend(step, tail), [Found(s)] + rest, mode)
  {
    assert ([Found(s)] + rest)[1..] == rest;
  }

  /** A sweep that stops at the first unprotected stack has considered just that one. */
  lemma ConsidersOnlyFound(s: Stack, rest: seq<Event>, step: Sweep, mode: Mode)
    requires !s.terminationProtection
    requires step.candidates == [s] && step.prompts == (if mode == Interactive then 1 else 0)
    ensures ConsidersUnprotected(step, [Found(s)] + rest, mode)
  {
    assert ([Found(s)] + rest)[1..] == rest;
  }

  /** An event that is not an unprotected stack adds no candidate. */
  lemma ConsidersAfterSkip(ev: Event, rest: seq<Event>, tail: Sweep, mode: Mode)
    requires !(ev.Found? && !ev.stack.terminationProtection)
    requires ConsidersUnprotected(tail, rest, mode)
    ensures ConsidersUnprotected(tail, [ev] + rest, mode)
  {
    assert ([ev] + rest)[1..] == rest;
  }

  /** Only unprotected stacks are considered, in arrival order, and each prompts exactly
      once in interactive mode and never otherwise. */
  lemma {:induction false} CandidatesAreUnprotected(events: seq<Event>, pending: int, mode: Mode, answers: seq<string>,
                                                    deleteErrors: map<string, string>, asked: nat)
    ensures ConsidersUnprotected(Drain(events, pending, mode, answers, deleteErrors, asked), events, mode)
    decreases |events|
  {
    if pending > 0 && |events| > 0 {
      var rest := events[1..];
      assert events == [events[0]] + rest;
      match events[0]
      case Failed(e) =>
      case RegionDone =>
        CandidatesAreUnprotected(rest, pending - 1, mode, answers, deleteErrors, asked);
        ConsidersAfterSkip(RegionDone, rest, Drain(rest, pending - 1, mode, answers, deleteErrors, asked), mode);
      case Found(s) =>
        var prompted := if mode == Interactive then 1 else 0;
        if s.terminationProtection {
          CandidatesAreUnprotected(rest, pending, mode, answers, deleteErrors, asked);
          ConsidersAfterSkip(Found(s), rest, Drain(rest, pending, mode, answers, deleteErrors, asked), mode);
        } else if mode == Interactive && Answer(answers, asked) != Confirmation {
          ConsidersOnlyFound(s, rest, Sweep([s], [], 1, Returned(Ok(()))), mode);
        } else if mode == Dry {
          CandidatesAreUnprotected(rest, pending, mode, answers, deleteErrors, asked);
          ConsidersAfterFound(s, rest, Sweep([s], [], 0, Blocked),
                              Drain(rest, pending, mode, answers, deleteErrors, asked), mode);
        } else if s.stackId in deleteErrors {
          ConsidersOnlyFound(s, rest, Sweep([s], [s.stackId], prompted, Returned(Err(deleteErrors[s.stackId]))), mode);
        } else {
          CandidatesAreUnprotected(rest, pending, mode, answers, deleteErrors, asked + prompted);
          ConsidersAfterFound(s, rest, Sweep([s], [s.stackId], prompted, Blocked),
                              Drain(rest, pending, mode, answers, deleteErrors, asked + prompted), mode);
        }
    }
  }

  /** Every delete and every prompt is of a candidate: there are no more of either than
      stacks considered. */
  lemma {:induction false} DrainBounds(events: seq<Event>, pending: int, mode: Mode, answers: seq<string>,
                                       deleteErrors: map<string, string>, asked: nat)
    ensures var sweep := Drain(events, pending, mode, answers, deleteErrors, asked);
            |sweep.deletes| <= |sweep.candidates| && sweep.prompts <= |sweep.candidates|
    decreases |events|
  {
    if pending > 0 && |events| > 0 {
      var rest := events[1..];
      match events[0]
      case Failed(e) =>
      case RegionDone =>
        DrainBounds(rest, pending - 1, mode, answers, deleteErrors, asked);
      case Found(s) =>
        var prompted := if mode == Interactive then 1 else 0;
        if s.terminationProtection {
          DrainBounds(rest, pending, mode, answers, deleteErrors, asked);
        } else if mode == Interactive && Answer(answers, asked) != Confirmation {
        } else if mode == Dry {
          DrainBounds(rest, pending, mode, answers, deleteErrors, asked);
        } else if s.stackId !in deleteErrors {
          DrainBounds(rest, pending, mode, answers, deleteErrors, asked + prompted);
        }
    }
  }

  /** Dry mode never deletes. */
  lemma {:induction false} DryDeletesNothing(events: seq<Event>, pending: int, answers: seq<string>,
                                             deleteErrors: map<string, string>, asked: nat)
    ensures Drain(events, pending, Dry, answers, deleteErrors, asked).deletes == []
    decreases |events|
  {
    if pending > 0 && |events| > 0 {
      var rest := events[1..];
      match events[0]
      case Failed(e) =>
      case RegionDone =>
        DryDeletesNothing(rest, pending - 1, answers, deleteErrors, asked);
      case Found(s) =>
        DryDeletesNothing(rest, pending, answers, deleteErrors, asked);
    }
  }

  /** The deletes are the candidates' ARNs, all of them but possibly a last candidate that
      was refused at its prompt, after which runE returned nil. */
  predicate FollowsCandidates(sweep: Sweep, mode: Mode, answers: seq<string>, asked: nat)
  {
    IsPrefix(sweep.deletes, Ids(sweep.candidates))
    && |sweep.candidates| <= |sweep.deletes| + 1
    && (|sweep.deletes| < |sweep.candidates| ==>
          mode == Interactive && sweep.outcome == Returned(Ok(()))
          && Answer(answers, asked + |sweep.deletes|) != Confirmation)
  }

  /** A stack deleted before a log that follows its candidates gives a log that does. */
  lemma FollowsAfterDelete(s: Stack, tail: Sweep, mode: Mode, answers: seq<string>, asked: nat, prompted: nat)
    requires prompted == (if mode == Interactive then 1 else 0)
    requires FollowsCandidates(tail, mode, answers, asked + prompted)
    ensures FollowsCandidates(Extend(Sweep([s], [s.stackId], prompted, Blocked), tail), mode, answers, asked)
  {
    var sweep := Extend(Sweep([s], [s.stackId], prompted, Blocked), tail);
    assert Ids(sweep.candidates) == [s.stackId] + Ids(tail.candidates);
    assert sweep.deletes == [s.stackId] + tail.deletes;
  }

  /** Outside dry mode every candidate is deleted, in order, except in interactive mode a
      last one that was refused at its prompt. */
  lemma {:induction false} DeletesFollowCandidates(events: seq<Event>, pending: int, mode: Mode, answers: seq<string>,
                                                   deleteErrors: map<string, string>, asked: nat)
    requires mode != Dry
    ensures FollowsCandidates(Drain(events, pending, mode, answers, deleteErrors, asked), mode, answers, asked)
    decreases |events|
  {
    if pending > 0 && |events| > 0 {
      var rest := events[1..];
      match events[0]
      case Failed(e) =>
      case RegionDone =>
        DeletesFollowCandidates(rest, pending - 1, mode, answers, deleteErrors, asked);
      case Found(s) =>
        if s.terminationProtection {
          DeletesFollowCandidates(rest, pending, mode, answers, deleteErrors, asked);
        } else if mode == Interactive && Answer(answers, asked) != Confirmation {
        } else if s.stackId !in deleteErrors {
          var prompted := if mode == Interactive then 1 else 0;
          DeletesFollowCandidates(rest, pending, mode, answers, deleteErrors, asked + prompted);
          FollowsAfterDelete(s, Drain(rest, pending, mode, answers, deleteErrors, asked + prompted),
                             mode, answers, asked, prompted);
        }
    }
  }

  /** No ARN but possibly the last of `deletes` is refused by delete. */
  predicate SucceededBeforeLast(deletes: seq<string>, deleteErrors: map<string, string>)
  {
    forall k :: 0 <= k < |deletes| - 1 ==> deletes[k] !in deleteErrors
  }

  /** Every delete but the last succeeded: a failed delete ends the run. */
  lemma {:induction false} EarlierDeletesSucceeded(events: seq<Event>, pending: int, mode: Mode, answers: seq<string>,
                                                   deleteErrors: map<string, string>, asked: nat)
    ensures SucceededBeforeLast(Drain(events, pending, mode, answers, deleteErrors, asked).deletes, deleteErrors)
    decreases |events|
  {
    if pending > 0 && |events| > 0 {
      var rest := events[1..];
      match events[0]
      case Failed(e) =>
      case RegionDone =>
        EarlierDeletesSucceeded(rest, pending - 1, mode, answers, deleteErrors, asked);
      case Found(s) =>
        if s.terminationProtection {
          EarlierDeletesSucceeded(rest, pending, mode, answers, deleteErrors, asked);
        } else if mode == Interactive && Answer(answers, asked) != Confirmation {
        } else if mode == Dry {
          EarlierDeletesSucceeded(rest, pending, mode, answers, deleteErrors, asked);
        } else if s.stackId !in deleteErrors {
          var prompted := if mode == Interactive then 1 else 0;
          EarlierDeletesSucceeded(rest, pending, mode, answers, deleteErrors, asked + prompted);
          var tail := Drain(rest, pending, mode, answers, deleteErrors, asked + prompted);
          var sweep := Drain(events, pending, mode, answers, deleteErrors, asked);
          assert sweep.deletes == [s.stackId] + tail.deletes;
          forall k | 0 <= k < |sweep.deletes| - 1
            ensures sweep.deletes[k] !in deleteErrors
          {
            if k > 0 {
              assert sweep.deletes[k] == tail.deletes[k - 1];
            }
          }
        }
    }
  }

  /** The `n` words read from position `from` on are all the confirmation word. */
  predicate ConfirmedFrom(answers: seq<string>, from: nat, n: nat)
  {
    forall k :: from <= k < from + n ==> Answer(answers, k) == Confirmation
  }

  /** In interactive mode every delete was confirmed at its prompt. */
  lemma {:induction false} DeletesConfirmed(events: seq<Event>, pending: int, answers: seq<string>,
                                            deleteErrors: map<string, string>, asked: nat)
    ensures ConfirmedFrom(answers, asked, |Drain(events, pending, Interactive, answers, deleteErrors, asked).deletes|)
    decreases |events|
  {
    if pending > 0 && |events| > 0 {
      var rest := events[1..];
      match events[0]
      case Failed(e) =>
      case RegionDone =>
        DeletesConfirmed(rest, pending - 1, answers, deleteErrors, asked);
      case Found(s) =>
        if s.terminationProtection {
          DeletesConfirmed(rest, pending, answers, deleteErrors, asked);
        } else if Answer(answers, asked) == Confirmation && s.stackId !in deleteErrors {
          DeletesConfirmed(rest, pending, answers, deleteErrors, asked + 1);
          var tail := Drain(rest, pending, Interactive, answers, deleteErrors, asked + 1);
          assert |Drain(events, pending, Interactive, answers, deleteErrors, asked).deletes| == 1 + |tail.deletes|;
        }
    }
  }

  /** An error returned comes from an error event or from the last delete. */
  lemma {:induction false} ErrorsHaveASource(events: seq<Event>, pending: int, mode: Mode, answers: seq<string>,
                                             deleteErrors: map<string, string>, asked: nat, e: string)
    requires Drain(events, pending, mode, answers, deleteErrors, asked).outcome == Returned(Err(e))
    ensures var sweep := Drain(events, pending, mode, answers, deleteErrors, asked);
            Failed(e) in events
            || (|sweep.deletes| > 0 && sweep.deletes[|sweep.deletes| - 1] in deleteErrors
                && deleteErrors[sweep.deletes[|sweep.deletes| - 1]] == e)
    decreases |events|
  {
    var rest := events[1..];
    assert forall ev :: ev in rest ==> ev in events;
    match events[0]
    case Failed(x) =>
    case RegionDone =>
      ErrorsHaveASource(rest, pending - 1, mode, answers, deleteErrors, asked, e);
    case Found(s) =>
      var prompted := if mode == Interactive then 1 else 0;
      if s.terminationProtection {
        ErrorsHaveASource(rest, pending, mode, answers, deleteErrors, asked, e);
      } else if mode == Interactive && Answer(answers, asked) != Confirmation {
      } else if mode == Dry {
        ErrorsHaveASource(rest, pending, mode, answers, deleteErrors, asked, e);
      } else if s.stackId !in deleteErrors {
        ErrorsHaveASource(rest, pending, mode, answers, deleteErrors, asked + prompted, e);
        var tail := Drain(rest, pending, mode, answers, deleteErrors, asked + prompted);
        var sweep := Drain(events, pending, mode, answers, deleteErrors, asked);
        assert sweep.deletes == [s.stackId] + tail.deletes;
      }
  }

  /** No stack among `stacks` is refused by delete. */
  predicate Deletable(stacks: seq<Stack>, deleteErrors: map<string, string>)
  {
    forall i :: 0 <= i < |stacks| ==> stacks[i].stackId !in deleteErrors
  }

  /** The ARNs of two runs of stacks are the ARNs of each. */
  lemma IdsAppend(a: seq<Stack>, b: seq<Stack>)
    ensures Ids(a + b) == Ids(a) + Ids(b)
  {
  }

  /** The first event of a stretch without errors, in a mode that neither asks nor pretends,
      deletes the stack it reports when that stack is unprotected and adds nothing otherwise. */
  lemma UnattendedStep(prefix: seq<Event>, rest: seq<Event>, pending: int, mode: Mode,
                       answers: seq<string>, deleteErrors: map<string, string>)
    requires mode != Dry && mode != Interactive && pending > 0
    requires |prefix| > 0 && !prefix[0].Failed?
    requires prefix[0].Found? && !prefix[0].stack.terminationProtection ==> prefix[0].stack.stackId !in deleteErrors
    ensures var head := if prefix[0].Found? && !prefix[0].stack.terminationProtection then [prefix[0].stack] else [];
            Drain(prefix + rest, pending, mode, answers, deleteErrors, 0)
            == Extend(Sweep(head, Ids(head), 0, Blocked),
                      Drain(prefix[1..] + rest, if prefix[0].RegionDone? then pending - 1 else pending,
                            mode, answers, deleteErrors, 0))
  {
    assert (prefix + rest)[0] == prefix[0] && (prefix + rest)[1..] == prefix[1..] + rest;
    if !(prefix[0].Found? && !prefix[0].stack.terminationProtection) {
      ExtendEmpty(Drain(prefix[1..] + rest, if prefix[0].RegionDone? then pending - 1 else pending,
                        mode, answers, deleteErrors, 0));
    }
  }

  /** In a mode that neither asks nor pretends, with deletes that all succeed, a stretch of
      the stream without errors and before the last sentinel is handled by deleting each of
      its unprotected stacks, in arrival order. */
  lemma {:induction false} UnattendedPrefix(prefix: seq<Event>, rest: seq<Event>, pending: int, mode: Mode,
                                            answers: seq<string>, deleteErrors: map<string, string>)
    requires mode != Dry && mode != Interactive
    requires !HasFailure(prefix) && CountDone(prefix) < pending
    requires Deletable(Unprotected(prefix), deleteErrors)
    ensures Drain(prefix + rest, pending, mode, answers, deleteErrors, 0)
            == Extend(Sweep(Unprotected(prefix), Ids(Unprotected(prefix)), 0, Blocked),
                      Drain(rest, pending - CountDone(prefix), mode, answers, deleteErrors, 0))
    decreases |prefix|
  {
    var u := Unprotected(prefix);
    if |prefix| == 0 {
      assert prefix + rest == rest;
      ExtendEmpty(Drain(rest, pending, mode, answers, deleteErrors, 0));
    } else {
      var p0 := prefix[0];
      var tail := prefix[1..];
      assert !p0.Failed?;
      assert !HasFailure(tail) by {
        forall i | 0 <= i < |tail|
          ensures !tail[i].Failed?
        {
          assert tail[i] == prefix[i + 1];
        }
      }
      var ut := Unprotected(tail);
      var head := if p0.Found? && !p0.stack.terminationProtection then [p0.stack] else [];
      assert u == head + ut;
      assert Deletable(ut, deleteErrors) by {
        forall i | 0 <= i < |ut|
          ensures ut[i].stackId !in deleteErrors
        {
          assert ut[i] == u[i + |head|];
        }
      }
      if head != [] {
        assert u[0] == p0.stack;
      }
      var pending' := if p0.RegionDone? then pending - 1 else pending;
      assert pending - CountDone(prefix) == pending' - CountDone(tail);
      UnattendedStep(prefix, rest, pending, mode, answers, deleteErrors);
      UnattendedPrefix(tail, rest, pending', mode, answers, deleteErrors);
      ExtendAssoc(Sweep(head, Ids(head), 0, Blocked), Sweep(ut, Ids(ut), 0, Blocked),
                  Drain(rest, pending' - CountDone(tail), mode, answers, deleteErrors, 0));
      IdsAppend(head, ut);
    }
  }

  /** In noninteractive mode, with deletes that succeed, every unprotected stack reported
      before the last sentinel awaited is deleted once, in arrival order, and runE succeeds. */
  lemma NoninteractiveDeletesEveryUnprotected(events: seq<Event>, j: nat, regionCount: int,
                                              answers: seq<string>, deleteErrors: map<string, string>)
    requires j < |events| && events[j].RegionDone?
    requires !HasFailure(events[..j]) && CountDone(events[..j]) == regionCount - 1
    requires Deletable(Unprotected(events[..j]), deleteErrors)
    ensures Drain(events, regionCount, Noninteractive, answers, deleteErrors, 0)
            == Sweep(Unprotected(events[..j]), Ids(Unprotected(events[..j])), 0, Returned(Ok(())))
  {
    assert events == events[..j] + events[j..];
    UnattendedPrefix(events[..j], events[j..], regionCount, Noninteractive, answers, deleteErrors);
    assert events[j..][1..] == events[j + 1..];
  }

  /** The first error reported before the last sentinel ends the run with that error, after
      the deletes of the unprotected stacks that came before it. */
  lemma FirstFailureReturned(events: seq<Event>, j: nat, regionCount: int,
                             answers: seq<string>, deleteErrors: map<string, string>)
    requires j < |events| && events[j].Failed?
    requires !HasFailure(events[..j]) && CountDone(events[..j]) < regionCount
    requires Deletable(Unprotected(events[..j]), deleteErrors)
    ensures Drain(events, regionCount, Noninteractive, answers, deleteErrors, 0)
            == Sweep(Unprotected(events[..j]), Ids(Unprotected(events[..j])), 0, Returned(Err(events[j].error)))
  {
    assert events == events[..j] + events[j..];
    UnattendedPrefix(events[..j], events[j..], regionCount, Noninteractive, answers, deleteErrors);
  }

  /** The delete-all case of the tests: three stacks, the second protected, then four
      sentinels for four regions; two stacks are deleted and the command succeeds. */
  lemma DeleteAllExample(answers: seq<string>)
    ensures var arn := "arn:partition:service:region:account-id:resource";
            var a := Stack(arn, "a", "CREATE_COMPLETE", false, []);
            var b := Stack("", "b", "", true, []);
            var c := Stack(arn, "c", "CREATE_COMPLETE", false, []);
            var events := [Found(a), Found(b), Found(c), RegionDone, RegionDone, RegionDone, RegionDone];
            var sweep := Drain(events, 4, Noninteractive, answers, map[], 0);
            |sweep.deletes| == 2 && sweep.outcome == Returned(Ok(()))
  {
    var arn := "arn:partition:service:region:account-id:resource";
    var a := Stack(arn, "a", "CREATE_COMPLETE", false, []);
    var b := Stack("", "b", "", true, []);
    var c := Stack(arn, "c", "CREATE_COMPLETE", false, []);
    var events := [Found(a), Found(b), Found(c), RegionDone, RegionDone, RegionDone, RegionDone];
    var prefix := events[..6];
    var d3 := [RegionDone, RegionDone, RegionDone];
    assert prefix == [Found(a), Found(b), Found(c)] + d3;
    assert d3[1..][1..][1..] == [];
    assert CountDone(d3) == 3 && Unprotected(d3) == [] && !HasFailure(d3);
    var p3 := [Found(c)] + d3;
    assert p3[1..] == d3;
    assert CountDone(p3) == 3 && Unprotected(p3) == [c];
    var p2 := [Found(b)] + p3;
    assert p2[1..] == p3;
    assert CountDone(p2) == 3 && Unprotected(p2) == [c];
    assert prefix == [Found(a)] + p2 && prefix[1..] == p2;
    assert CountDone(prefix) == 3 && Unprotected(prefix) == [a, c];
    assert !HasFailure(prefix) by {
      forall i | 0 <= i < |prefix|
        ensures !prefix[i].Failed?
      {
      }
    }
    NoninteractiveDeletesEveryUnprotected(events, 6, 4, answers, map[]);
  }
}
