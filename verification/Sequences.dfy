/** Lists of process indices: what a linked queue holds.  NONE stands for a NULL link. */
module Sequences {
  const NONE := -1

  ghost predicate NoDup(s: seq<nat>) {
    forall i, j :: 0 <= i < j < |s| ==> s[i] != s[j]
  }

  /** `s` without the first `x`. */
  function Without(s: seq<nat>, x: nat): seq<nat> {
    if s == [] then [] else if s[0] == x then s[1..] else [s[0]] + Without(s[1..], x)
  }

  lemma NoDupCons(x: nat, s: seq<nat>)
    ensures NoDup([x] + s) <==> NoDup(s) && x !in s
  {
    var c := [x] + s;
    if NoDup(c) {
      forall i | 0 <= i < |s|
        ensures s[i] != x
      {
        assert c[i + 1] == s[i] && c[0] == x;
      }
      forall i, j | 0 <= i < j < |s|
        ensures s[i] != s[j]
      {
        assert c[i + 1] == s[i] && c[j + 1] == s[j];
      }
    }
  }

  lemma {:induction false} WithoutFacts(s: seq<nat>, x: nat)
    requires NoDup(s)
    ensures NoDup(Without(s, x))
    ensures forall y :: y in Without(s, x) <==> y in s && y != x
  {
    if s != [] {
      assert s == [s[0]] + s[1..];
      NoDupCons(s[0], s[1..]);
      if s[0] != x {
        WithoutFacts(s[1..], x);
        NoDupCons(s[0], Without(s[1..], x));
      }
    }
  }

  lemma {:induction false} WithoutAbsent(s: seq<nat>, x: nat)
    ensures x !in s ==> Without(s, x) == s
  {
    if s != [] {
      WithoutAbsent(s[1..], x);
    }
  }

  lemma {:induction false} WithoutAt(s: seq<nat>, i: nat)
    requires i < |s| && forall j :: 0 <= j < i ==> s[j] != s[i]
    ensures Without(s, s[i]) == s[..i] + s[i + 1..]
  {
    if i > 0 {
      assert s[1..][i - 1] == s[i];
      assert forall j :: 0 <= j < i - 1 ==> s[1..][j] == s[j + 1];
      WithoutAt(s[1..], i - 1);
      assert s == [s[0]] + s[1..];
    }
  }

  lemma ConsConcat(x: nat, s: seq<nat>, t: seq<nat>)
    ensures [x] + (s + t) == ([x] + s) + t
  {
  }
}
