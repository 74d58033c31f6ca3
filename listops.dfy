/**
  The list operations the drag-and-drop and reveal handlers perform on copies of the
  column and university lists: `findIndex` by id, the two-`splice` move, and the swap
  through a temporary.
*/
module ListOps {

  /** `s.findIndex(x => idOf(x) === id)`: the first index whose id matches, or -1. */
  function IndexOf<T>(s: seq<T>, id: string, idOf: T -> string): (r: int)
    ensures -1 <= r < |s|
    ensures r == -1 <==> forall i :: 0 <= i < |s| ==> idOf(s[i]) != id
    ensures r >= 0 ==> idOf(s[r]) == id && forall i :: 0 <= i < r ==> idOf(s[i]) != id
  {
    if s == [] then -1
    else if idOf(s[0]) == id then 0
    else
      var k := IndexOf(s[1..], id, idOf);
      if k == -1 then -1 else k + 1
  }

  /** `const [removed] = s.splice(from, 1); s.splice(to, 0, removed)` on a copy of `s`. */
  function Move<T>(s: seq<T>, from: nat, to: nat): (r: seq<T>)
    requires from < |s| && to < |s|
    ensures |r| == |s|
    ensures r[to] == s[from]
    ensures multiset(r) == multiset(s)
  {
    var rest := s[..from] + s[from + 1..];
    assert s == s[..from] + [s[from]] + s[from + 1..];
    assert rest == rest[..to] + rest[to..];
    assert multiset(rest) + multiset{s[from]} == multiset(s);
    assert multiset(rest[..to] + [s[from]] + rest[to..]) == multiset(rest[..to]) + multiset{s[from]} + multiset(rest[to..]);
    rest[..to] + [s[from]] + rest[to..]
  }

  /** Where each element of the input ends up after a move: the dragged element lands at
      `to`, the elements between the two positions shift by one towards `from`, and every
      other element stays in place. */
  lemma MoveAt<T>(s: seq<T>, from: nat, to: nat, k: nat)
    requires from < |s| && to < |s| && k < |s|
    ensures Move(s, from, to)[k] ==
      if k == to then s[from]
      else if from < to && from <= k < to then s[k + 1]
      else if to < from && to < k <= from then s[k - 1]
      else s[k]
  {
  }

  /** The swap through a temporary: `t := s[i]; s[i] := s[j]; s[j] := t`. */
  function Swap<T>(s: seq<T>, i: nat, j: nat): (r: seq<T>)
    requires i < |s| && j < |s|
    ensures |r| == |s| && r[i] == s[j] && r[j] == s[i]
    ensures forall k :: 0 <= k < |s| && k != i && k != j ==> r[k] == s[k]
  {
    s[i := s[j]][j := s[i]]
  }

  lemma {:induction false} SwapPermutes<T>(s: seq<T>, i: nat, j: nat)
    requires i < |s| && j < |s|
    ensures multiset(Swap(s, i, j)) == multiset(s)
  {
    if i != j {
      var t := s[i := s[j]];
      assert multiset(t) == multiset(s) - multiset{s[i]} + multiset{s[j]};
      assert multiset(t[j := s[i]]) == multiset(t) - multiset{t[j]} + multiset{s[i]};
    }
  }
}
