/** Searching and counting in sequences, the `iter().position`, `iter().find` and
  `filter().count` idioms of the Rust code. */
module Seqs {
  import opened Wrappers

  /** The position of the first element satisfying `f`. */
  function FirstWhere<T>(s: seq<T>, f: T -> bool): (r: Option<nat>)
    ensures r.None? <==> forall i :: 0 <= i < |s| ==> !f(s[i])
    ensures r.Some? ==> r.value < |s| && f(s[r.value]) && forall j :: 0 <= j < r.value ==> !f(s[j])
  {
    if |s| == 0 then None
    else if f(s[0]) then Some(0)
    else
      assert forall i :: 1 <= i < |s| ==> s[i] == s[1..][i - 1];
      match FirstWhere(s[1..], f)
      case None => None
      case Some(i) => Some(i + 1)
  }

  /** The number of elements satisfying `f`. */
  function Count<T>(s: seq<T>, f: T -> bool): (n: nat)
    ensures n <= |s|
    ensures n == 0 <==> forall i :: 0 <= i < |s| ==> !f(s[i])
  {
    if |s| == 0 then 0
    else
      assert forall i :: 1 <= i < |s| ==> s[i] == s[1..][i - 1];
      (if f(s[0]) then 1 else 0) + Count(s[1..], f)
  }

  /** The position of the last element satisfying `f`. */
  function LastWhere<T>(s: seq<T>, f: T -> bool): (r: Option<nat>)
    ensures r.None? <==> forall i :: 0 <= i < |s| ==> !f(s[i])
    ensures r.Some? ==> r.value < |s| && f(s[r.value]) && forall j :: r.value < j < |s| ==> !f(s[j])
  {
    if |s| == 0 then None
    else if f(s[|s| - 1]) then Some(|s| - 1)
    else
      assert forall i :: 0 <= i < |s| - 1 ==> s[i] == s[..|s| - 1][i];
      LastWhere(s[..|s| - 1], f)
  }

  /** The concatenation of the parts, in order: `flat_map` over per-item results. */
  function Flatten<T(!new)>(ps: seq<seq<T>>): (r: seq<T>)
    ensures forall x :: x in r <==> exists i :: 0 <= i < |ps| && x in ps[i]
    ensures r == [] <==> forall i :: 0 <= i < |ps| ==> ps[i] == []
  {
    if |ps| == 0 then []
    else
      var rest := Flatten(ps[1..]);
      assert forall i :: 1 <= i < |ps| ==> ps[i] == ps[1..][i - 1];
      ps[0] + rest
  }

  /** The elements satisfying `f`, in order: `iter().filter()`. */
  function Filter<T(!new)>(s: seq<T>, f: T -> bool): (r: seq<T>)
    ensures forall x :: x in r <==> x in s && f(x)
    ensures |r| <= |s|
  {
    if |s| == 0 then []
    else (if f(s[0]) then [s[0]] else []) + Filter(s[1..], f)
  }
}
