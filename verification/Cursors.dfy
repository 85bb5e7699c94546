/** The specification of an iterator: a position in a list of entries. */
module Cursors {
  import opened Format

  /** The first index whose entry is not before t. */
  function LowerBound(xs: seq<Entry>, t: Entry): nat {
    if xs == [] || !Before(xs[0], t) then 0 else 1 + LowerBound(xs[1..], t)
  }

  /** `b` separates the entries before t from the others. */
  ghost predicate IsLowerBound(xs: seq<Entry>, t: Entry, b: nat) {
    && b <= |xs|
    && (forall i :: 0 <= i < b ==> Before(xs[i], t))
    && (forall i :: b <= i < |xs| ==> !Before(xs[i], t))
  }

  lemma {:induction false} LowerBoundIs(xs: seq<Entry>, t: Entry)
    requires Sorted(xs)
    ensures IsLowerBound(xs, t, LowerBound(xs, t))
  {
    if xs != [] && Before(xs[0], t) {
      LowerBoundIs(xs[1..], t);
      assert forall i :: 1 <= i < |xs| ==> xs[i] == xs[1..][i - 1];
    } else if xs != [] {
      assert forall i :: 0 < i < |xs| ==> Before(xs[0], xs[i]);
    }
  }

  lemma LowerBoundUnique(xs: seq<Entry>, t: Entry, b: nat)
    requires Sorted(xs) && IsLowerBound(xs, t, b)
    ensures LowerBound(xs, t) == b
  {
    LowerBoundIs(xs, t);
    var c := LowerBound(xs, t);
    assert b < |xs| ==> (Before(xs[b], t) <==> b < c);
    assert c < |xs| ==> (Before(xs[c], t) <==> c < b);
  }

  lemma LowerBoundOfMember(xs: seq<Entry>, i: nat)
    requires Sorted(xs) && i < |xs|
    ensures LowerBound(xs, xs[i]) == i
  {
    LowerBoundUnique(xs, xs[i], i);
  }

  /** pos == |xs| stands for "not valid". */
  datatype Cursor = Cursor(xs: seq<Entry>, pos: nat) {
    predicate Valid() { pos < |xs| }

    function Current(): Entry
      requires Valid()
    { xs[pos] }

    function SeekToFirst(): Cursor { Cursor(xs, 0) }

    function SeekToLast(): Cursor { Cursor(xs, if xs == [] then 0 else |xs| - 1) }

    function Seek(t: Entry): Cursor { Cursor(xs, LowerBound(xs, t)) }

    function Next(): Cursor
      requires Valid()
    { Cursor(xs, pos + 1) }

    function Prev(): Cursor
      requires Valid()
    { Cursor(xs, if pos == 0 then |xs| else pos - 1) }
  }
}
