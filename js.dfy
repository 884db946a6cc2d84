/**
 * The few pieces of JavaScript semantics that the slot/fill registries and
 * the Buttons block rely on: truthiness of optional values, default
 * parameters, and the array built-ins `findIndex`, `splice` and `filter`.
 */
module Js {

  /** A value that is either a truthy object (`Some`) or a falsy one such as
      `null` or `undefined` (`None`). */
  datatype Option<+T> = None | Some(value: T)

  /** An argument to a parameter that has a default value: the default is
      taken only for `undefined` (omitted or passed explicitly), while any
      other falsy value (`null`, `false`) is kept as given. */
  datatype Arg<+T> = Undefined | Falsy | Given(value: T)

  /** An attribute bag such as `fillProps`; `map[]` is the literal `{}`. */
  type Props<V> = map<string, V>

  /** `Array.prototype.findIndex`: the first index whose element satisfies
      `p`, or -1 when there is none. */
  function FindIndex<T>(s: seq<T>, p: T -> bool): (i: int)
    ensures -1 <= i < |s|
    ensures 0 <= i ==> p(s[i]) && forall k :: 0 <= k < i ==> !p(s[k])
    ensures i == -1 <==> forall k :: 0 <= k < |s| ==> !p(s[k])
  {
    if |s| == 0 then -1
    else if p(s[0]) then 0
    else
      var j := FindIndex(s[1..], p);
      if j == -1 then -1 else j + 1
  }

  /** The position at which `splice(start, …)` works on an array of length
      `len`: a negative start counts from the end, and either way the
      position is clamped into 0..len. */
  function SpliceStart(len: nat, start: int): (k: nat)
    ensures k <= len
    ensures 0 <= start <= len ==> k == start
    ensures start > len ==> k == len
    ensures start < 0 ==> k == if len + start < 0 then 0 else len + start
  {
    if start < 0 then (if len + start < 0 then 0 else len + start)
    else if start > len then len
    else start
  }

  /** `[...s.slice(0, i), x, ...s.slice(i)]` for an index inside the array. */
  function InsertAt<T>(s: seq<T>, i: nat, x: T): (r: seq<T>)
    requires i <= |s|
    ensures |r| == |s| + 1 && r[i] == x
    ensures RemoveAt(r, i) == s
    ensures multiset(r) == multiset(s) + multiset{x}
  {
    assert s == s[..i] + s[i..];
    var r := s[..i] + [x] + s[i..];
    assert r[..i] == s[..i] && r[i + 1..] == s[i..];
    r
  }

  /** The sequence with the element at `i` taken out. */
  function RemoveAt<T>(s: seq<T>, i: nat): seq<T>
    requires i < |s|
  {
    s[..i] + s[i + 1..]
  }

  /** `s.splice(start, 0, x)` applied to a copy of `s`: the array after `x`
      has been inserted at the clamped start position. */
  function SpliceInsert<T>(s: seq<T>, start: int, x: T): (r: seq<T>)
    ensures |r| == |s| + 1
    ensures r[SpliceStart(|s|, start)] == x
    ensures RemoveAt(r, SpliceStart(|s|, start)) == s
  {
    InsertAt(s, SpliceStart(|s|, start), x)
  }

  /** `s.filter((y) => y !== x)`. */
  function Without<T(==)>(s: seq<T>, x: T): (r: seq<T>)
    ensures |r| <= |s|
    ensures x !in r
    ensures multiset(r) == multiset(s)[x := 0]
  {
    if s == [] then []
    else if s[0] == x then
      assert s == [s[0]] + s[1..];
      Without(s[1..], x)
    else
      assert s == [s[0]] + s[1..];
      [s[0]] + Without(s[1..], x)
  }

  /** Filtering works element by element, so it keeps the relative order of
      what it does not remove. */
  lemma {:induction false} WithoutConcat<T>(a: seq<T>, b: seq<T>, x: T)
    ensures Without(a + b, x) == Without(a, x) + Without(b, x)
  {
    if a != [] {
      assert (a + b)[1..] == a[1..] + b;
      WithoutConcat(a[1..], b, x);
    } else {
      assert a + b == b;
    }
  }

  /** Filtering out a value that is not there gives back the same array. */
  lemma {:induction false} WithoutAbsent<T>(s: seq<T>, x: T)
    requires x !in s
    ensures Without(s, x) == s
  {
    if s != [] {
      assert x !in s[1..];
      WithoutAbsent(s[1..], x);
    }
  }

  /** Filtering the same value twice is the same as filtering it once. */
  lemma WithoutIdempotent<T>(s: seq<T>, x: T)
    ensures Without(Without(s, x), x) == Without(s, x)
  {
    WithoutAbsent(Without(s, x), x);
  }
}
