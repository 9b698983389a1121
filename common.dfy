/**
 * Values shared by the models of the browser scripts and the server code:
 * optional values, results with an error, the exceptions the JavaScript
 * engine raises in the modelled code, and two small sequence helpers.
 */
module Common {

  datatype Option<+T> = None | Some(value: T)

  /** A value, or the exception that stopped the computation. */
  datatype Result<+T, +E> = Ok(value: T) | Err(error: E) {
    predicate IsFailure() { Err? }

    function PropagateFailure<U>(): Result<U, E>
      requires Err?
    {
      Err(error)
    }

    function Extract(): T
      requires Ok?
    {
      value
    }
  }

  /** Exceptions the JavaScript engine throws in the modelled scripts. */
  datatype JsError =
    | TypeError       // a property read on `undefined`
    | ReferenceError  // a read of a name that no scope defines
    | RangeError      // the call stack is exhausted by recursion

  /**
   * The property key JavaScript uses for a value that may be `undefined`:
   * `obj[undefined]` reads the property named "undefined".
   */
  function JsKey(name: Option<string>): string {
    match name
    case Some(s) => s
    case None => "undefined"
  }

  /** `m[k]` where a missing key reads as `undefined`. */
  function Lookup<K, V>(m: map<K, V>, k: K): (r: Option<V>)
    ensures r.Some? <==> k in m
    ensures r.Some? ==> r.value == m[k]
  {
    if k in m then Some(m[k]) else None
  }

  /**
   * The index of the last element of `s` whose key is `k`: the element that
   * wins when a loop stores every element of `s` in a map under its key.
   */
  function LastIndexOf<T, K(==)>(s: seq<T>, key: T -> K, k: K): (r: Option<nat>)
    ensures r.Some? ==> r.value < |s| && key(s[r.value]) == k
    ensures r.Some? ==> forall j :: r.value < j < |s| ==> key(s[j]) != k
    ensures r.None? ==> forall j :: 0 <= j < |s| ==> key(s[j]) != k
  {
    if s == [] then None
    else if key(s[|s| - 1]) == k then Some(|s| - 1)
    else LastIndexOf(s[..|s| - 1], key, k)
  }

  /** Appending an element: it is the last one with its key, other keys keep their answer. */
  lemma {:induction false} LastIndexOfSnoc<T, K>(s: seq<T>, x: T, key: T -> K, k: K)
    ensures LastIndexOf(s + [x], key, k) == if key(x) == k then Some(|s|) else LastIndexOf(s, key, k)
  {
    assert (s + [x])[..|s|] == s;
  }

  /** The last element of `s` whose key is `k`. */
  function LastWith<T, K(==)>(s: seq<T>, key: T -> K, k: K): (r: Option<T>)
    ensures r.None? <==> forall j :: 0 <= j < |s| ==> key(s[j]) != k
    ensures r.Some? ==> exists j :: 0 <= j < |s| && s[j] == r.value && key(s[j]) == k
  {
    match LastIndexOf(s, key, k)
    case None => None
    case Some(j) => Some(s[j])
  }

  lemma LastWithSnoc<T, K>(s: seq<T>, x: T, key: T -> K, k: K)
    ensures LastWith(s + [x], key, k) == if key(x) == k then Some(x) else LastWith(s, key, k)
  {
    LastIndexOfSnoc(s, x, key, k);
  }

  /**
   * The map a loop builds by storing `val(x)` under `key(x)` for each `x` of
   * `s` in turn, so that a later element overwrites an earlier one.
   */
  function IndexBy<T, K(==), V>(s: seq<T>, key: T -> K, val: T -> V): map<K, V> {
    if s == [] then map[]
    else IndexBy(s[..|s| - 1], key, val)[key(s[|s| - 1]) := val(s[|s| - 1])]
  }

  /** Each key holds the value of the last element with that key, and no other key is present. */
  lemma {:induction false} IndexByLastWins<T, K, V>(s: seq<T>, key: T -> K, val: T -> V, k: K)
    ensures Lookup(IndexBy(s, key, val), k) == match LastWith(s, key, k) case None => None case Some(x) => Some(val(x))
  {
    if s != [] {
      var init, x := s[..|s| - 1], s[|s| - 1];
      assert s == init + [x];
      IndexByLastWins(init, key, val, k);
      LastWithSnoc(init, x, key, k);
    }
  }

  /** The concatenation of a sequence of sequences, in order. */
  function Flatten<T>(ss: seq<seq<T>>): seq<T> {
    if ss == [] then [] else Flatten(ss[..|ss| - 1]) + ss[|ss| - 1]
  }

  /** The number of elements before `ss[i]` once `ss` is flattened. */
  function Offset<T>(ss: seq<seq<T>>, i: nat): nat
    requires i <= |ss|
  {
    if i == 0 then 0 else Offset(ss, i - 1) + |ss[i - 1]|
  }

  /**
   * Flattening keeps every inner element, in outer order then inner order:
   * element `j` of `ss[i]` lands at `Offset(ss, i) + j`, and there are
   * `Offset(ss, |ss|)` elements in all.
   */
  lemma {:induction false} FlattenAt<T>(ss: seq<seq<T>>, i: nat, j: nat)
    requires i < |ss| && j < |ss[i]|
    ensures |Flatten(ss)| == Offset(ss, |ss|)
    ensures Offset(ss, i) + j < |Flatten(ss)|
    ensures Flatten(ss)[Offset(ss, i) + j] == ss[i][j]
  {
    var n := |ss| - 1;
    var init := ss[..n];
    OffsetPrefix(ss, n, n);
    FlattenLength(init);
    assert Flatten(ss) == Flatten(init) + ss[n];
    if i < n {
      OffsetPrefix(ss, n, i);
      FlattenAt(init, i, j);
      OffsetMonotone(init, i + 1, n);
    }
  }

  lemma {:induction false} FlattenLength<T>(ss: seq<seq<T>>)
    ensures |Flatten(ss)| == Offset(ss, |ss|)
  {
    if ss != [] {
      var n := |ss| - 1;
      FlattenLength(ss[..n]);
      OffsetPrefix(ss, n, n);
    }
  }

  /** Offsets depend only on the sequences before the index. */
  lemma {:induction false} OffsetPrefix<T>(ss: seq<seq<T>>, n: nat, i: nat)
    requires i <= n <= |ss|
    ensures Offset(ss[..n], i) == Offset(ss, i)
  {
    if i > 0 {
      OffsetPrefix(ss, n, i - 1);
    }
  }

  lemma {:induction false} OffsetMonotone<T>(ss: seq<seq<T>>, i: nat, k: nat)
    requires i <= k <= |ss|
    ensures Offset(ss, i) <= Offset(ss, k)
  {
    if i < k {
      OffsetMonotone(ss, i, k - 1);
    }
  }
}
