// Results and small facts about sequences shared by the whole project.

module Basics {

  datatype Option<+T> = None | Some(value: T)

  // A call that returns a value or raises: the message of the exception is not modelled.
  datatype Result<+T> = Ok(value: T) | Err

  ghost predicate Distinct<T>(s: seq<T>) {
    forall i, j :: 0 <= i < j < |s| ==> s[i] != s[j]
  }

  ghost function Elements<T>(s: seq<T>): set<T> {
    set x | x in s
  }

  lemma SplitSame<T>(a: seq<T>, b: seq<T>, s: seq<T>, t: seq<T>)
    requires a + s == b + t
    requires |a| == |b|
    ensures a == b && s == t
  {
    assert a == (a + s)[..|a|] == (b + t)[..|b|] == b;
    assert s == (a + s)[|a|..] == (b + t)[|b|..] == t;
  }

  lemma Regroup<T>(a: seq<T>, b: seq<T>, c: seq<T>, d: seq<T>)
    ensures (a + b) + c + d == a + (b + c + d)
  {
  }

  // n times the same.
  function Copies<T>(x: T, n: nat): (s: seq<T>)
    ensures |s| == n && forall i | 0 <= i < n :: s[i] == x
  {
    if n == 0 then [] else Copies(x, n - 1) + [x]
  }
}
