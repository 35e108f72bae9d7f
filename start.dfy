/**
 * `start`: the whole run once the settings file has been read and parsed.  The
 * configuration is validated, the conversations are resolved, and the history of
 * each resolved conversation is cleared in order; the first error ends the run.
 */
module Start {
  import opened Wrappers
  import opened Slack
  import opened Config
  import opened Convos
  import opened Cleaner

  /** The error a run of the program ends with. */
  datatype Error =
    | Invalid(reason: ConfigError)   // from `validateYmlFile`
    | Platform(cause: PlatformError) // from a platform call

  /** A conversation-level outcome as an outcome of the run. */
  function Lift(o: Outcome<PlatformError>): Outcome<Error>
  {
    match o
    case Done => Done
    case Failed(e) => Failed(Platform(e))
    case ScriptExhausted => ScriptExhausted
  }

  /** The loop of `start`: clear each conversation in order, stopping at the first that does not succeed. */
  function DeleteAll(convs: seq<string>, script: Script): Run<PlatformError>
  {
    if convs == [] then Run(Done, [], script)
    else
      var first := DeleteHistory(convs[0], script);
      if first.outcome.Done? then Then(first.trace, DeleteAll(convs[1..], first.rest))
      else first
  }

  /** `start` after the file is read and parsed: validate, resolve, then clear. */
  function StartRun(c: Config, open: Resolver, script: Script): Run<Error>
  {
    match ValidateConfig(c)
    case Failure(e) => Run(Failed(Invalid(e)), [], script)
    case Success(config) =>
      var resolved := Conversations(config, open);
      match resolved.result
      case Failure(e) => Run(Failed(Platform(e)), resolved.trace, script)
      case Success(convs) =>
        var cleared := DeleteAll(convs, script);
        Run(Lift(cleared.outcome), resolved.trace + cleared.trace, cleared.rest)
  }

  /** `start` on an already parsed configuration. */
  method Start(c: Config, open: Resolver, script: Script)
    returns (outcome: Outcome<Error>, rest: Script, ghost trace: seq<Event>)
    ensures Run(outcome, trace, rest) == StartRun(c, open, script)
    ensures !WellFormed(c) ==> outcome == Failed(Invalid(ValidateConfig(c).error)) && trace == []
    ensures WellFormed(c) && c.convs != [] ==> outcome == Done && trace == [] && rest == script
  {
    var validated := ValidateConfig(c);
    if validated.Failure? {
      return Failed(Invalid(validated.error)), script, [];
    }
    var config := validated.value;
    var resolved, openCalls := GetConvos(config, open);
    if resolved.Failure? {
      return Failed(Platform(resolved.error)), script, openCalls;
    }
    var cleared, clearedRest, clearCalls := DeleteConvos(resolved.value, script);
    return Lift(cleared), clearedRest, openCalls + clearCalls;
  }

  /** One step of the loop over conversations, unfolded. */
  lemma DeleteAllStep(convs: seq<string>, script: Script)
    requires convs != []
    ensures !DeleteHistory(convs[0], script).outcome.Done? ==>
              DeleteAll(convs, script) == DeleteHistory(convs[0], script)
    ensures DeleteHistory(convs[0], script).outcome.Done? ==>
              DeleteAll(convs, script) == Then(DeleteHistory(convs[0], script).trace,
                                               DeleteAll(convs[1..], DeleteHistory(convs[0], script).rest))
  {
  }

  /** The loop of `start`: `deleteConvo` on each conversation in order, up to the first error. */
  method DeleteConvos(convs: seq<string>, script: Script)
    returns (outcome: Outcome<PlatformError>, rest: Script, ghost trace: seq<Event>)
    ensures Run(outcome, trace, rest) == DeleteAll(convs, script)
  {
    trace := [];
    rest := script;
    ThenNothing(DeleteAll(convs, script));
    for i := 0 to |convs|
      invariant DeleteAll(convs, script) == Then(trace, DeleteAll(convs[i..], rest))
    {
      assert convs[i..][0] == convs[i] && convs[i..][1..] == convs[i + 1..];
      DeleteAllStep(convs[i..], rest);
      var convOutcome, convRest, convTrace := DeleteConvo(convs[i], rest);
      if !convOutcome.Done? {
        return convOutcome, convRest, trace + convTrace;
      }
      ThenThen(trace, convTrace, DeleteAll(convs[i + 1..], convRest));
      trace := trace + convTrace;
      rest := convRest;
    }
    assert convs[|convs|..] == [];
    assert trace + [] == trace;
    outcome := Done;
  }

  /** Clearing `xs + ys` clears `xs` first and goes on to `ys` only if every conversation of `xs`
    * was cleared successfully. */
  lemma {:induction false} DeleteAllAppend(xs: seq<string>, ys: seq<string>, script: Script)
    ensures DeleteAll(xs + ys, script) ==
              var first := DeleteAll(xs, script);
              if first.outcome.Done? then Then(first.trace, DeleteAll(ys, first.rest)) else first
  {
    if xs == [] {
      assert xs + ys == ys;
      ThenNothing(DeleteAll(ys, script));
    } else {
      assert (xs + ys)[1..] == xs[1..] + ys;
      assert (xs + ys)[0] == xs[0];
      DeleteAllAppend(xs[1..], ys, DeleteHistory(xs[0], script).rest);
      var head := DeleteHistory(xs[0], script);
      if head.outcome.Done? {
        var mid := DeleteAll(xs[1..], head.rest);
        if mid.outcome.Done? {
          ThenThen(head.trace, mid.trace, DeleteAll(ys, mid.rest));
        }
      }
    }
  }

  /** Conversations are cleared in order and the first one that does not succeed ends the loop
    * with its outcome: the conversations after it are never touched. */
  lemma StopsAtFirstFailure(convs: seq<string>, script: Script, k: nat)
    requires k < |convs|
    requires DeleteAll(convs[..k], script).outcome.Done?
    requires !DeleteHistory(convs[k], DeleteAll(convs[..k], script).rest).outcome.Done?
    ensures DeleteAll(convs, script) ==
              Then(DeleteAll(convs[..k], script).trace,
                   DeleteHistory(convs[k], DeleteAll(convs[..k], script).rest))
  {
    assert convs == convs[..k] + convs[k..];
    DeleteAllAppend(convs[..k], convs[k..], script);
    assert convs[k..][0] == convs[k];
  }

  /** A run of `deleteConvo` that consumes a history answer starts by requesting history. */
  lemma HistoryStartsWithFetch(conv: string, script: Script)
    requires script != []
    ensures DeleteHistory(conv, script).trace != []
    ensures DeleteHistory(conv, script).trace[0] == Fetch(conv)
  {
  }

  /** When the loop succeeds, the history of every conversation it was given was requested. */
  lemma {:induction false} DeleteAllReachesEach(convs: seq<string>, script: Script)
    requires DeleteAll(convs, script).outcome.Done?
    ensures forall i :: 0 <= i < |convs| ==> Fetch(convs[i]) in DeleteAll(convs, script).trace
  {
    if convs != [] {
      var first := DeleteHistory(convs[0], script);
      var others := DeleteAll(convs[1..], first.rest);
      assert first.outcome.Done?;
      if script == [] {
        assert false;
      } else {
        HistoryStartsWithFetch(convs[0], script);
        DeleteAllReachesEach(convs[1..], first.rest);
        assert DeleteAll(convs, script).trace == first.trace + others.trace;
        forall i | 0 <= i < |convs|
          ensures Fetch(convs[i]) in DeleteAll(convs, script).trace
        {
          if i > 0 {
            assert convs[1..][i - 1] == convs[i];
          }
        }
      }
    }
  }

  /** With conversations configured the run makes no platform call at all and succeeds:
    * the configured conversations are not cleared. */
  lemma ConfiguredConversationsAreIgnored(c: Config, open: Resolver, script: Script)
    requires WellFormed(c) && c.convs != []
    ensures StartRun(c, open, script) == Run(Done, [], script)
  {
  }

  /** With no conversation configured, the first user whose channel cannot be opened ends the run
    * with that error before any history is requested. */
  lemma ResolveFailureEndsRun(c: Config, open: Resolver, script: Script, k: nat)
    requires c.token != [] && c.convs == []
    requires k < |c.users| && open(c.users[k]).Failure?
    requires forall j :: 0 <= j < k ==> open(c.users[j]).Success?
    ensures StartRun(c, open, script) ==
              Run(Failed(Platform(open(c.users[k]).error)), Opens(c.users[..k + 1]), script)
  {
    ResolveStopsAtFirstFailure(c.users, open, k);
  }
}
