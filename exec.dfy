/**
 * The command runner of utils.go, made abstract: instead of starting
 * processes, a Runner records every invocation in a log and answers from a
 * script fixed when it is created. `output` returns the scripted listing
 * (its combined output, "" when the command failed); the k-th `run` over the
 * runner's life succeeds (starts and exits with status zero) as the k-th
 * scripted outcome says, and every run past the end of the script succeeds.
 */
module Exec {

  /** One external command: executable, argument list and the verbose flag it was given. */
  datatype Invocation =
    | OutputCall(executable: string, arguments: seq<string>, verbose: bool)
    | RunCall(executable: string, arguments: seq<string>, verbose: bool)

  /** Whether the run with index k starts and exits with status zero. */
  predicate Succeeds(outcomes: seq<bool>, k: nat) {
    k >= |outcomes| || outcomes[k]
  }

  class Runner {
    /** What `output` prints; "" stands for a command that failed. */
    const listing: string
    /** The scripted outcomes of the `run` calls, in order. */
    const outcomes: seq<bool>
    /** Every invocation so far, oldest first. */
    var log: seq<Invocation>
    /** The number of `run` invocations so far: the index of the next outcome in the script. */
    var runs: nat

    constructor (listing: string, outcomes: seq<bool>)
      ensures this.listing == listing && this.outcomes == outcomes && log == [] && runs == 0
    {
      this.listing := listing;
      this.outcomes := outcomes;
      log := [];
      runs := 0;
    }

    /** output (utils.go): run a command and return its combined output, "" on failure. */
    method Output(executable: string, arguments: seq<string>, verbose: bool) returns (text: string)
      modifies this`log
      ensures log == old(log) + [OutputCall(executable, arguments, verbose)]
      ensures text == listing
    {
      log := log + [OutputCall(executable, arguments, verbose)];
      text := listing;
    }

    /** run (utils.go): run a command; ok is false when it fails: a non-zero exit, or it could not be started. */
    method Run(executable: string, arguments: seq<string>, verbose: bool) returns (ok: bool)
      modifies this`log, this`runs
      ensures log == old(log) + [RunCall(executable, arguments, verbose)]
      ensures runs == old(runs) + 1
      ensures ok == Succeeds(outcomes, old(runs))
    {
      ok := Succeeds(outcomes, runs);
      log := log + [RunCall(executable, arguments, verbose)];
      runs := runs + 1;
    }
  }
}
