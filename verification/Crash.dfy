/**
 The crash handler (`handleServerCrash`, crash.go): when a crashed server is started again.
 Times are nanoseconds of a clock that does not go back; the handler runs one call at a time.
 */
module Crash {
  import opened Prelude

  const SECOND: int := 1_000_000_000

  datatype Outcome = NotACrash | ExitStateUnknown | CleanExit | TooFrequent | Restarted

  datatype Config = Config(enabled: bool, detectCleanExit: bool, timeout: int)

  /** The process as Docker reports it after the exit. */
  datatype Exit = Unknown | Exited(code: nat, oomKilled: bool)

  /** Consecutive restarts are at least `gap` apart. */
  ghost predicate Spaced(stamps: seq<int>, gap: int) {
    forall i :: 0 <= i < |stamps| - 1 ==> stamps[i + 1] - stamps[i] >= gap
  }

  class CrashHandler {
    var lastCrash: Option<int>
    ghost var restarts: seq<int>    // the stamp of every automatic restart

    ghost predicate Valid()
      reads this
    {
      lastCrash == if restarts == [] then None else Some(restarts[|restarts| - 1])
    }

    constructor ()
      ensures Valid() && restarts == []
    {
      lastCrash, restarts := None, [];
    }

    /** `checked` and `stamped` are the two readings of the clock. */
    method HandleServerCrash(offline: bool, config: Config, exit: Exit, checked: int, stamped: int) returns (r: Outcome)
      requires Valid() && checked <= stamped
      requires restarts != [] ==> restarts[|restarts| - 1] <= checked
      modifies this
      ensures Valid()
      ensures r == Restarted <==>
                && offline && config.enabled && exit.Exited? && (exit.code != 0 || exit.oomKilled || config.detectCleanExit)
                && (config.timeout == 0 || old(restarts) == []
                    || checked - old(restarts[|restarts| - 1]) >= config.timeout * 1_000_000_000)
      ensures r == TooFrequent <==>
                && offline && config.enabled && exit.Exited? && (exit.code != 0 || exit.oomKilled || config.detectCleanExit)
                && r != Restarted
      ensures r == CleanExit <==> offline && config.enabled && exit == Exited(0, false) && !config.detectCleanExit
      ensures r == ExitStateUnknown <==> offline && config.enabled && exit.Unknown?
      ensures r == NotACrash <==> !offline || !config.enabled
      ensures restarts == old(restarts) + if r == Restarted then [stamped] else []
      ensures config.timeout != 0 && Spaced(old(restarts), config.timeout * SECOND) ==> Spaced(restarts, config.timeout * SECOND)
    {
      if !offline || !config.enabled {
        return NotACrash;
      }
      match exit {
        case Unknown => return ExitStateUnknown;
        case Exited(code, oomKilled) =>
          if code == 0 && !oomKilled && !config.detectCleanExit {
            return CleanExit;
          }
      }
      if config.timeout != 0 && lastCrash.Some? && lastCrash.value + config.timeout * SECOND > checked {
        return TooFrequent;
      }
      lastCrash := Some(stamped);
      restarts := restarts + [stamped];
      r := Restarted;
    }
  }

  /** With a timeout, any stretch of time shorter than it sees at most one automatic restart. */
  lemma {:induction false} RestartsAreApart(stamps: seq<int>, gap: int, i: nat, j: nat)
    requires Spaced(stamps, gap) && gap > 0 && i < j < |stamps|
    ensures stamps[j] - stamps[i] >= (j - i) * gap
    decreases j
  {
    if i < j - 1 {
      RestartsAreApart(stamps, gap, i, j - 1);
    }
    assert stamps[j - 1 + 1] - stamps[j - 1] >= gap;
    assert (j - i) * gap == (j - 1 - i) * gap + gap;
  }
}
