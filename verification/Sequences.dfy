/** Lists without repetition, and the filters the program applies to them. */
module Sequences {

  ghost predicate NoDup<T>(s: seq<T>) {
    forall i, j :: 0 <= i < j < |s| ==> s[i] != s[j]
  }

  /** `s.filter(n => !xs.includes(n))` */
  function Without<T(!new, ==)>(s: seq<T>, xs: seq<T>): (r: seq<T>)
    ensures forall x {:trigger x in r} :: x in r <==> x in s && x !in xs
    ensures NoDup(s) ==> NoDup(r)
    ensures |r| <= |s|
  {
    if s == [] then []
    else
      var rest := Without(s[1..], xs);
      assert NoDup(s) ==> NoDup(s[1..]) && s[0] !in s[1..];
      assert s[0] in rest ==> s[0] in s[1..];
      assert NoDup(s) ==> s[0] !in rest;
      if s[0] in xs then rest else [s[0]] + rest
  }

  /** Removing the one occurrence of x shortens a repetition-free list by one. */
  lemma {:induction false} WithoutOne<T(!new)>(s: seq<T>, x: T)
    requires NoDup(s)
    ensures |Without(s, [x])| == if x in s then |s| - 1 else |s|
  {
    if s != [] {
      assert x in s <==> s[0] == x || x in s[1..];
      WithoutOne(s[1..], x);
    }
  }

  lemma NoDupAppend<T(!new)>(s: seq<T>, t: seq<T>)
    requires NoDup(s) && NoDup(t)
    requires forall x :: x in t ==> x !in s
    ensures NoDup(s + t)
  {
    assert forall j :: 0 <= j < |t| ==> t[j] in t;
  }
}
