/**
 * The user-argument copy at the end of redwrapMain, as written. Its limit
 * check compares the index into the user's arguments, not the number of
 * entries already in argval, with MAX_BWRAP_ARGS; when it fires it only logs
 * and the copy goes on. The argument vector then always gets its NULL
 * terminator at index argcount, whether or not that slot exists.
 *
 * The rest of the model uses the corrected behaviour instead: ArgVector
 * refuses any write that would leave no slot for the NULL, and the run ends
 * with ArgCapacityExceeded before anything is executed (see
 * LaunchProperties.ExecArgvFits).
 */
module ArgLimitFinding {
  /**
   * The loop over the user's arguments, as written, from index `idx` on:
   * each argument is appended to `out`, and `logged` becomes true when the
   * loop index equals maxArgs. The result is the final vector and whether
   * the error was logged.
   */
  function CopyFrom(out: seq<string>, subargv: seq<string>, idx: nat, maxArgs: nat, logged: bool): (seq<string>, bool)
    requires idx <= |subargv|
    decreases |subargv| - idx
  {
    if idx == |subargv| then (out, logged)
    else CopyFrom(out + [subargv[idx]], subargv, idx + 1, maxArgs, logged || idx == maxArgs)
  }

  /** Lines 190-195 run after `argv` already holds the entries before the user's arguments. */
  function UserArgsAsWritten(argv: seq<string>, subargv: seq<string>, maxArgs: nat): (seq<string>, bool) {
    CopyFrom(argv, subargv, 0, maxArgs, false)
  }

  /** The loop as a method: the same vector and log flag as UserArgsAsWritten. */
  method AppendUserArgsAsWritten(argv: seq<string>, subargv: seq<string>, maxArgs: nat)
    returns (out: seq<string>, logged: bool)
    ensures (out, logged) == UserArgsAsWritten(argv, subargv, maxArgs)
  {
    out := argv;
    logged := false;
    var idx := 0;
    while idx < |subargv|
      invariant 0 <= idx <= |subargv|
      invariant CopyFrom(out, subargv, idx, maxArgs, logged) == UserArgsAsWritten(argv, subargv, maxArgs)
    {
      if idx == maxArgs {
        logged := true;
      }
      out := out + [subargv[idx]];
      idx := idx + 1;
    }
  }

  /** From index idx on, the copy appends the rest of subargv, and logs when some index from idx on equals maxArgs. */
  lemma {:induction false} CopyFromResult(out: seq<string>, subargv: seq<string>, idx: nat, maxArgs: nat, logged: bool)
    requires idx <= |subargv|
    ensures CopyFrom(out, subargv, idx, maxArgs, logged).0 == out + subargv[idx..]
    ensures CopyFrom(out, subargv, idx, maxArgs, logged).1 <==> logged || idx <= maxArgs < |subargv|
    decreases |subargv| - idx
  {
    if idx < |subargv| {
      CopyFromResult(out + [subargv[idx]], subargv, idx + 1, maxArgs, logged || idx == maxArgs);
      assert out + [subargv[idx]] + subargv[idx + 1..] == out + subargv[idx..];
    }
  }

  /** Every user argument is appended; the error is logged exactly when there are more than maxArgs of them. */
  lemma UserArgsAsWrittenResult(argv: seq<string>, subargv: seq<string>, maxArgs: nat)
    ensures UserArgsAsWritten(argv, subargv, maxArgs).0 == argv + subargv
    ensures UserArgsAsWritten(argv, subargv, maxArgs).1 <==> |subargv| > maxArgs
  {
    CopyFromResult(argv, subargv, 0, maxArgs, false);
    assert subargv[0..] == subargv;
  }

  /** argval has maxArgs slots: the entries and their NULL terminator fit when there are fewer than maxArgs entries. */
  predicate NullFits(argcount: nat, maxArgs: nat) {
    argcount < maxArgs
  }

  /**
   * Whenever the loop logs, the copy has already run past argval; and with
   * the seven entries every run has before the user's arguments (command
   * name and the two --setenv triples), maxArgs - 7 user arguments fill
   * argval to exactly maxArgs entries, so the NULL of line 207 is written
   * outside it, and nothing is logged.
   */
  lemma LimitCheckMissesOverflow(argv: seq<string>, subargv: seq<string>, maxArgs: nat)
    requires |argv| >= 1
    ensures var (out, logged) := UserArgsAsWritten(argv, subargv, maxArgs);
            logged ==> !NullFits(|out|, maxArgs)
    ensures var (out, logged) := UserArgsAsWritten(argv, subargv, maxArgs);
            |argv| == 7 && maxArgs >= 7 && |subargv| == maxArgs - 7 ==>
              !logged && |out| == maxArgs && !NullFits(|out|, maxArgs)
  {
    UserArgsAsWrittenResult(argv, subargv, maxArgs);
  }
}
