/**
 * List edits shared by the block, metric and image handlers: dropping one index
 * (`filter((_, i) => i !== index)`) and dnd-kit's `arrayMove`, which takes the
 * element out of its old index and puts it back in at the new one.
 */
module Seqs {

  function RemoveAt<T>(s: seq<T>, i: nat): (r: seq<T>)
    requires i < |s|
    ensures |r| == |s| - 1
    ensures forall k :: 0 <= k < i ==> r[k] == s[k]
    ensures forall k :: i <= k < |r| ==> r[k] == s[k + 1]
  {
    s[..i] + s[i + 1..]
  }

  function InsertAt<T>(s: seq<T>, i: nat, x: T): (r: seq<T>)
    requires i <= |s|
    ensures |r| == |s| + 1 && r[i] == x
    ensures forall k :: 0 <= k < i ==> r[k] == s[k]
    ensures forall k :: i < k < |r| ==> r[k] == s[k - 1]
  {
    s[..i] + [x] + s[i..]
  }

  /** `arrayMove(s, from, to)`: the element at `from` ends up at `to`, the rest keep their order. */
  function ArrayMove<T>(s: seq<T>, from: nat, to: nat): (r: seq<T>)
    requires from < |s| && to < |s|
    ensures |r| == |s|
    ensures r[to] == s[from]
    ensures RemoveAt(r, to) == RemoveAt(s, from)
    ensures multiset(r) == multiset(s)
  {
    var rest := RemoveAt(s, from);
    var r := InsertAt(rest, to, s[from]);
    assert RemoveAt(r, to) == rest;
    calc {
      multiset(r);
      multiset(rest[..to]) + multiset([s[from]]) + multiset(rest[to..]);
      { assert rest == rest[..to] + rest[to..]; }
      multiset(rest) + multiset([s[from]]);
      { assert s == s[..from] + [s[from]] + s[from + 1..]; }
      multiset(s);
    }
    r
  }

  /** Moving an element onto its own index leaves the list as it was. */
  lemma ArrayMoveInPlace<T>(s: seq<T>, i: nat)
    requires i < |s|
    ensures ArrayMove(s, i, i) == s
  {
    assert s == s[..i] + [s[i]] + s[i + 1..];
  }

  /** `s.filter((_, idx) => idx !== i)`: drops the element at index i, if there is one. */
  function WithoutIndex<T>(s: seq<T>, i: int): (r: seq<T>)
    ensures 0 <= i < |s| ==> r == RemoveAt(s, i)
    ensures !(0 <= i < |s|) ==> r == s
    decreases |s|
  {
    if s == [] then []
    else
      var rest := WithoutIndex(s[1..], i - 1);
      if i == 0 then
        assert s[1..] == RemoveAt(s, 0);
        rest
      else
        assert 0 < i < |s| ==> RemoveAt(s, i) == [s[0]] + RemoveAt(s[1..], i - 1);
        assert !(0 <= i < |s|) ==> s == [s[0]] + s[1..];
        [s[0]] + rest
  }
}
