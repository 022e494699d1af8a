/**
 * The launcher's argument vector: `const char *argval[MAX_BWRAP_ARGS]`
 * filled by `argval[argcount++] = ...`. One slot is always kept free for
 * the NULL that terminates the vector before execv. A write that would take
 * that slot is refused, never performed, and the vector remembers that it
 * overflowed, so that the launcher can abort before it executes anything.
 */
module ArgVec {

  class ArgVector {
    const argval: array<string>
    var argcount: nat
    var overflowed: bool
    /** Every entry the launcher has asked to write, in order, whether written or refused. */
    ghost var Requested: seq<string>

    /**
     * The written entries leave room for the terminating NULL; the vector has
     * overflowed exactly when the requested entries and the NULL do not fit;
     * until then what is written is exactly what was requested.
     */
    ghost predicate Valid()
      reads this, argval
    {
      && argcount < argval.Length
      && overflowed == (|Requested| >= argval.Length)
      && (!overflowed ==> argval[..argcount] == Requested)
    }

    constructor (maxArgs: nat)
      requires maxArgs >= 1
      ensures Valid() && fresh(argval) && argval.Length == maxArgs
      ensures Requested == [] && !overflowed
    {
      argval := new string[maxArgs];
      argcount := 0;
      overflowed := false;
      Requested := [];
    }

    /** argval[argcount++] = s, refused when it would leave no slot for the NULL. */
    method Push(s: string)
      requires Valid()
      modifies this, argval
      ensures Valid()
      ensures Requested == old(Requested) + [s]
    {
      if overflowed || argcount + 1 >= argval.Length {
        overflowed := true;
      } else {
        argval[argcount] := s;
        argcount := argcount + 1;
      }
      Requested := Requested + [s];
    }

    /** Writes `ss` one entry at a time, each write checked against the bound. */
    method PushAll(ss: seq<string>)
      requires Valid()
      modifies this, argval
      ensures Valid()
      ensures Requested == old(Requested) + ss
    {
      var i := 0;
      while i < |ss|
        invariant 0 <= i <= |ss|
        invariant Valid()
        invariant Requested == old(Requested) + ss[..i]
      {
        Push(ss[i]);
        assert ss[..i + 1] == ss[..i] + [ss[i]];
        i := i + 1;
      }
      assert ss[..i] == ss;
    }

    /** The finished vector (without its NULL), when nothing overflowed. */
    method Written() returns (argv: seq<string>)
      requires Valid()
      requires !overflowed
      ensures argv == Requested && |argv| < argval.Length
    {
      argv := argval[..argcount];
    }
  }
}
