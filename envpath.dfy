/**
 * The two search-path buffers of redwrapMain (pathString / ldpathString with
 * their pathIdx / ldpathIdx), filled node after node by RedConfAppendEnvKey
 * with the separator ":" and bounded by BWRAP_MAXVAR_LEN.
 *
 * RedConfAppendEnvKey itself is not part of this model. Its behaviour is
 * assumed to be: a NULL value leaves the buffer unchanged; any other value
 * is appended, after a ":" when the buffer already holds something; the
 * call fails when the result and its terminating NUL would not fit.
 */
module EnvPath {
  import opened Wrappers

  /** The buffer after appending one fragment (when it fits). */
  function JoinStep(buf: string, value: Option<string>): string {
    match value
    case None => buf
    case Some(s) => if buf == [] then s else buf + ":" + s
  }

  /** Whether appending `value` keeps the buffer and its NUL within `capacity` characters. */
  predicate Fits(buf: string, value: Option<string>, capacity: nat) {
    |JoinStep(buf, value)| < capacity
  }

  /** The buffer after appending every fragment of `values`, in order, to an empty buffer. */
  function JoinFragments(values: seq<Option<string>>): string
  {
    if values == [] then "" else JoinStep(JoinFragments(values[..|values| - 1]), values[|values| - 1])
  }

  /** Reference definition: the values separated by ":". */
  function Intercalate(values: seq<string>): string
  {
    if values == [] then ""
    else if |values| == 1 then values[0]
    else Intercalate(values[..|values| - 1]) + ":" + values[|values| - 1]
  }

  function SomeAll(values: seq<string>): (r: seq<Option<string>>)
    ensures |r| == |values| && forall i :: 0 <= i < |values| ==> r[i] == Some(values[i])
  {
    if values == [] then [] else SomeAll(values[..|values| - 1]) + [Some(values[|values| - 1])]
  }

  /** With every fragment present and non-empty, the buffer is the fragments joined by ":". */
  lemma {:induction false} JoinIsIntercalate(values: seq<string>)
    requires forall i :: 0 <= i < |values| ==> values[i] != ""
    ensures JoinFragments(SomeAll(values)) == Intercalate(values)
  {
    if values != [] {
      var init := values[..|values| - 1];
      var xs := SomeAll(values);
      assert xs[..|xs| - 1] == SomeAll(init);
      JoinIsIntercalate(init);
      if |values| > 1 {
        IntercalateNonEmpty(init);
      } else {
        assert init == [];
      }
    }
  }

  lemma {:induction false} IntercalateNonEmpty(values: seq<string>)
    requires values != []
    requires forall i :: 0 <= i < |values| ==> values[i] != ""
    ensures Intercalate(values) != ""
  {
    if |values| > 1 {
      assert |Intercalate(values)| >= 1;
    }
  }

  /** Missing (NULL) fragments contribute nothing. */
  lemma {:induction false} JoinSkipsMissing(values: seq<Option<string>>)
    ensures JoinFragments(values + [None]) == JoinFragments(values)
  {
    var xs := values + [None];
    assert xs[..|xs| - 1] == values;
  }

  /** The values that are present (not NULL), in order. */
  function Present(values: seq<Option<string>>): (r: seq<string>)
    ensures |r| <= |values|
    ensures (forall i :: 0 <= i < |values| && values[i].Some? ==> values[i].value != "") ==>
              forall j :: 0 <= j < |r| ==> r[j] != ""
  {
    if values == [] then []
    else
      var init := Present(values[..|values| - 1]);
      match values[|values| - 1]
      case None => init
      case Some(s) => init + [s]
  }

  /**
   * Whatever NULLs are among the fragments, when every present fragment is
   * non-empty the buffer is the present ones joined by ":", in order.
   */
  lemma {:induction false} JoinIsIntercalatePresent(values: seq<Option<string>>)
    requires forall i :: 0 <= i < |values| && values[i].Some? ==> values[i].value != ""
    ensures JoinFragments(values) == Intercalate(Present(values))
  {
    if values != [] {
      var init := values[..|values| - 1];
      JoinIsIntercalatePresent(init);
      var p := Present(init);
      match values[|values| - 1]
      case None =>
      case Some(s) =>
        var q := p + [s];
        assert q[..|q| - 1] == p;
        if p != [] {
          IntercalateNonEmpty(p);
        }
    }
  }

  /** A three-node family whose path fragments are "a", "b", "c", leaf first, yields "a:b:c". */
  lemma ThreeFragmentsExample()
    ensures JoinFragments([Some("a"), Some("b"), Some("c")]) == "a:b:c"
  {
    var xs := [Some("a"), Some("b"), Some("c")];
    assert xs[..2] == [Some("a"), Some("b")];
    assert xs[..2][..1] == [Some("a")];
    assert [Some("a")][..0] == [];
  }

  /** A fixed char[BWRAP_MAXVAR_LEN] buffer with its write index. */
  class EnvBuffer {
    const data: array<char>
    var idx: nat

    /** The written characters and their NUL always fit. */
    ghost predicate Valid()
      reads this
    {
      idx < data.Length
    }

    /** The C string held in the buffer (what strdup copies out of it). */
    function Contents(): string
      reads this, data
      requires Valid()
    {
      data[..idx]
    }

    constructor (capacity: nat)
      requires capacity >= 1
      ensures Valid() && fresh(data) && data.Length == capacity
      ensures Contents() == ""
    {
      data := new char[capacity];
      idx := 0;
    }

    /** RedConfAppendEnvKey(data, &idx, capacity, value, NULL, ":", NULL). */
    method Append(value: Option<string>) returns (ok: bool)
      requires Valid()
      modifies this, data
      ensures Valid()
      ensures ok == Fits(old(Contents()), value, data.Length)
      ensures Contents() == if ok then JoinStep(old(Contents()), value) else old(Contents())
    {
      if value.None? {
        ok := true;
        return;
      }
      var piece := if idx == 0 then value.value else ":" + value.value;
      assert JoinStep(Contents(), value) == Contents() + piece;
      if idx + |piece| >= data.Length {
        ok := false;
        return;
      }
      var k := 0;
      while k < |piece|
        invariant 0 <= k <= |piece|
        invariant idx == old(idx) && idx + |piece| < data.Length
        invariant data[..idx + k] == old(data[..idx]) + piece[..k]
      {
        data[idx + k] := piece[k];
        assert data[..idx + k + 1] == data[..idx + k] + [piece[k]];
        k := k + 1;
      }
      idx := idx + |piece|;
      ok := true;
    }
  }
}
