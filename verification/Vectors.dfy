/** `insert` and `erase` on vectors. */
module Vectors {

  ghost predicate Inserted<E>(s: seq<E>, at: nat, x: E, r: seq<E>) {
    && at <= |s| && |r| == |s| + 1 && r[at] == x
    && (forall i :: 0 <= i < at ==> r[i] == s[i])
    && (forall i :: at < i < |r| ==> r[i] == s[i - 1])
  }

  ghost predicate Erased<E>(s: seq<E>, at: nat, r: seq<E>) {
    && at < |s| && |r| == |s| - 1
    && (forall i :: 0 <= i < at ==> r[i] == s[i])
    && (forall i :: at <= i < |r| ==> r[i] == s[i + 1])
  }

  function InsertAt<E>(s: seq<E>, at: nat, x: E): (r: seq<E>)
    requires at <= |s|
    ensures Inserted(s, at, x, r)
  {
    s[..at] + [x] + s[at..]
  }

  function EraseAt<E>(s: seq<E>, at: nat): (r: seq<E>)
    requires at < |s|
    ensures Erased(s, at, r)
  {
    s[..at] + s[at + 1..]
  }
}
