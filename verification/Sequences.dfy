/** Search, flattening and slicing of sequences, as the byte-stream components use them:
    `find`, `b"".join`, and the clamped slices of the source language. */
module Sequences {

  type byte = x: int | 0 <= x < 256

  datatype Option<+T> = None | Some(value: T)

  /** `p` occurs in `s` at position `i`. */
  predicate At<T(==)>(s: seq<T>, p: seq<T>, i: int) {
    0 <= i && i + |p| <= |s| && s[i..i + |p|] == p
  }

  /** First position at or after `i` where `p` occurs, or -1. */
  function FindFrom<T(==)>(s: seq<T>, p: seq<T>, i: nat): (r: int)
    ensures r == -1 ==> forall j :: i <= j ==> !At(s, p, j)
    ensures r != -1 ==> i <= r && At(s, p, r) && forall j :: i <= j < r ==> !At(s, p, j)
    decreases |s| - i
  {
    if i + |p| > |s| then -1
    else if At(s, p, i) then i
    else FindFrom(s, p, i + 1)
  }

  function Find<T(==)>(s: seq<T>, p: seq<T>): (r: int)
    ensures r == -1 ==> forall j :: 0 <= j ==> !At(s, p, j)
    ensures r != -1 ==> 0 <= r && At(s, p, r) && forall j :: 0 <= j < r ==> !At(s, p, j)
  {
    FindFrom(s, p, 0)
  }

  predicate Contains<T(==)>(s: seq<T>, p: seq<T>) {
    Find(s, p) != -1
  }

  lemma AtExtend<T>(s: seq<T>, t: seq<T>, p: seq<T>, i: int)
    ensures At(s, p, i) ==> At(s + t, p, i)
    ensures 0 <= i && i + |p| <= |s| ==> (At(s, p, i) <==> At(s + t, p, i))
  {
    if 0 <= i && i + |p| <= |s| {
      assert (s + t)[i..i + |p|] == s[i..i + |p|];
    }
  }

  /** An answer already found does not move when more arrives behind it. */
  lemma FindExtend<T>(s: seq<T>, t: seq<T>, p: seq<T>)
    requires Find(s, p) != -1
    ensures Find(s + t, p) == Find(s, p)
  {
    var r := Find(s, p);
    AtExtend(s, t, p, r);
    forall j | 0 <= j < r ensures !At(s + t, p, j) {
      AtExtend(s, t, p, j);
    }
  }

  /** A one-element needle is found at its first position. */
  lemma FindSingle<T>(s: seq<T>, c: T, t: seq<T>)
    requires c !in s
    ensures Find(s + [c] + t, [c]) == |s|
  {
    var w := s + [c] + t;
    assert w[|s|..|s| + 1] == [c];
    assert At(w, [c], |s|);
    forall j | 0 <= j < |s| ensures !At(w, [c], j) {
      assert w[j..j + 1] == [s[j]];
    }
  }

  /** A needle whose last element is nowhere else in it cannot straddle its own first
      full occurrence: after a prefix without it, it is found exactly where it was put. */
  lemma FindAfterPrefix<T>(junk: seq<T>, p: seq<T>, rest: seq<T>)
    requires p != [] && p[|p| - 1] !in p[..|p| - 1]
    requires !Contains(junk, p)
    ensures Find(junk + p + rest, p) == |junk|
  {
    var w := junk + p + rest;
    assert w[|junk|..|junk| + |p|] == p;
    assert At(w, p, |junk|);
    forall j | 0 <= j < |junk| ensures !At(w, p, j) {
      if j + |p| <= |junk| {
        assert w == junk + (p + rest);
        AtExtend(junk, p + rest, p, j);
      } else {
        var e := j + |p| - 1;
        assert w[j..j + |p|][|p| - 1] == w[e] == p[e - |junk|];
        assert p[e - |junk|] in p[..|p| - 1];
      }
    }
  }

  function Flatten<T>(ss: seq<seq<T>>): seq<T> {
    if ss == [] then [] else ss[0] + Flatten(ss[1..])
  }

  lemma {:induction false} FlattenAppend<T>(a: seq<seq<T>>, b: seq<seq<T>>)
    ensures Flatten(a + b) == Flatten(a) + Flatten(b)
  {
    if a == [] {
      assert a + b == b;
    } else {
      assert (a + b)[1..] == a[1..] + b;
      FlattenAppend(a[1..], b);
    }
  }

  lemma FlattenSnoc<T>(a: seq<seq<T>>, x: seq<T>)
    ensures Flatten(a + [x]) == Flatten(a) + x
  {
    FlattenAppend(a, [x]);
    assert Flatten([x]) == x;
  }

  lemma DropPrefix<T>(s: seq<T>, a: seq<T>, b: seq<T>)
    requires s == a + b
    ensures s[..|a|] == a && s[|a|..] == b
  {
  }

  /** A slice bound of the source language: negative counts from the end, then clamped. */
  function SliceBound(len: nat, b: int): (r: nat)
    ensures r <= len
  {
    var c := if b < 0 then b + len else b;
    if c < 0 then 0 else if c > len then len else c
  }

  /** `s[a:b]` of the source language. */
  function Slice<T>(s: seq<T>, a: int, b: int): (r: seq<T>)
    ensures |r| <= |s|
  {
    var lo, hi := SliceBound(|s|, a), SliceBound(|s|, b);
    if lo <= hi then s[lo..hi] else []
  }

  /** `s[:n]` and `s[n:]` of the source language for a bound that is not negative. */
  function Head<T>(s: seq<T>, n: nat): seq<T> {
    if n <= |s| then s[..n] else s
  }

  function Beyond<T>(s: seq<T>, n: nat): seq<T> {
    if n <= |s| then s[n..] else []
  }
}
