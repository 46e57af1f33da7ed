/** The `java.util.stream` steps the services use: `filter(...).toList()` and
    `collect(Collectors.toMap(key, x -> x))`. */
module Streams {
  import opened Wrappers
  import opened Exceptions

  /** `filter(p).toList()`: the elements satisfying `p`, in their order. */
  function Filter<T>(xs: seq<T>, p: T -> bool): (r: seq<T>)
    ensures |r| <= |xs|
    ensures forall x | x in r :: x in xs && p(x)
    ensures forall x | x in xs :: x in r <==> p(x)
  {
    if xs == [] then []
    else
      assert xs == [xs[0]] + xs[1..];
      (if p(xs[0]) then [xs[0]] else []) + Filter(xs[1..], p)
  }

  /** Filtering keeps the relative order: it distributes over concatenation. */
  lemma {:induction false} FilterAppend<T>(xs: seq<T>, ys: seq<T>, p: T -> bool)
    ensures Filter(xs + ys, p) == Filter(xs, p) + Filter(ys, p)
  {
    if xs == [] {
      assert xs + ys == ys;
    } else {
      assert (xs + ys)[0] == xs[0];
      assert (xs + ys)[1..] == xs[1..] + ys;
      FilterAppend(xs[1..], ys, p);
      var h := if p(xs[0]) then [xs[0]] else [];
      calc {
        Filter(xs + ys, p);
        h + Filter(xs[1..] + ys, p);
        h + (Filter(xs[1..], p) + Filter(ys, p));
        (h + Filter(xs[1..], p)) + Filter(ys, p);
      }
    }
  }

  /** Nothing passes a filter that no element satisfies. */
  lemma {:induction false} FilterNone<T>(xs: seq<T>, p: T -> bool)
    requires forall x | x in xs :: !p(x)
    ensures Filter(xs, p) == []
  {
    if xs != [] {
      assert xs[0] in xs;
      FilterNone(xs[1..], p);
    }
  }

  /** Filtering a non-empty sequence: its first element, if it passes,
      followed by the filtered rest. */
  lemma FilterFirst<T>(xs: seq<T>, p: T -> bool)
    requires xs != []
    ensures Filter(xs, p) == (if p(xs[0]) then [xs[0]] else []) + Filter(xs[1..], p)
  {
  }

  /** When every element passes, filtering changes nothing. */
  lemma {:induction false} FilterAll<T>(xs: seq<T>, p: T -> bool)
    requires forall x | x in xs :: p(x)
    ensures Filter(xs, p) == xs
  {
    if xs != [] {
      assert xs[0] in xs;
      assert forall x | x in xs[1..] :: x in xs;
      FilterAll(xs[1..], p);
    }
  }

  /** No two positions of `xs` carry the same key. */
  ghost predicate UniqueKeys<T>(xs: seq<T>, key: T -> string)
  {
    forall i, j | 0 <= i < j < |xs| :: key(xs[i]) != key(xs[j])
  }

  /** No two positions of `xs` whose elements pass `p` carry the same key. */
  ghost predicate UniqueKeysWhere<T>(xs: seq<T>, key: T -> string, p: T -> bool)
  {
    forall i, j | 0 <= i < j < |xs| && p(xs[i]) && p(xs[j]) :: key(xs[i]) != key(xs[j])
  }

  lemma UniqueKeysCons<T>(h: T, t: seq<T>, key: T -> string)
    ensures UniqueKeys([h] + t, key) <==>
      UniqueKeys(t, key) && forall x | x in t :: key(x) != key(h)
  {
    var s := [h] + t;
    assert forall i | 0 <= i < |t| :: s[i + 1] == t[i];
    if UniqueKeys(t, key) && forall x | x in t :: key(x) != key(h) {
      forall i, j | 0 <= i < j < |s| ensures key(s[i]) != key(s[j]) {
        if i == 0 {
          assert s[j] == t[j - 1] && s[j] in t;
        }
      }
    }
    if UniqueKeys(s, key) {
      assert s[0] == h;
      forall i, j | 0 <= i < j < |t| ensures key(t[i]) != key(t[j]) {
        assert s[i + 1] == t[i] && s[j + 1] == t[j];
      }
      forall x | x in t ensures key(x) != key(h) {
        var k :| 0 <= k < |t| && t[k] == x;
        assert s[k + 1] == x;
      }
    }
  }

  lemma UniqueKeysWhereCons<T>(h: T, t: seq<T>, key: T -> string, p: T -> bool)
    ensures UniqueKeysWhere([h] + t, key, p) <==>
      UniqueKeysWhere(t, key, p) && (p(h) ==> forall x | x in t && p(x) :: key(x) != key(h))
  {
    var s := [h] + t;
    assert forall i | 0 <= i < |t| :: s[i + 1] == t[i];
    if UniqueKeysWhere(t, key, p) && (p(h) ==> forall x | x in t && p(x) :: key(x) != key(h)) {
      forall i, j | 0 <= i < j < |s| && p(s[i]) && p(s[j]) ensures key(s[i]) != key(s[j]) {
        if i == 0 {
          assert s[j] == t[j - 1] && s[j] in t;
        }
      }
    }
    if UniqueKeysWhere(s, key, p) && p(h) {
      assert s[0] == h;
      forall x | x in t && p(x) ensures key(x) != key(h) {
        var k :| 0 <= k < |t| && t[k] == x;
        assert s[k + 1] == x;
      }
    }
  }

  /** The filtered list has unique keys exactly when the elements that pass
      the filter had unique keys in the original list. */
  lemma {:induction false} FilterUniqueKeys<T>(xs: seq<T>, key: T -> string, p: T -> bool)
    ensures UniqueKeys(Filter(xs, p), key) <==> UniqueKeysWhere(xs, key, p)
  {
    if xs == [] {
    } else {
      var head, tail := xs[0], xs[1..];
      assert xs == [head] + tail;
      FilterUniqueKeys(tail, key, p);
      UniqueKeysWhereCons(head, tail, key, p);
      var rest := Filter(tail, p);
      if p(head) {
        assert Filter(xs, p) == [head] + rest;
        UniqueKeysCons(head, rest, key);
      } else {
        assert Filter(xs, p) == rest;
      }
    }
  }

  /** `Collectors.toMap(key, x -> x)`: accumulates left to right and throws on
      the first key met a second time. */
  function ToMap<T>(xs: seq<T>, key: T -> string): (r: Result<map<string, T>, Exception>)
    ensures r.Success? <==> UniqueKeys(xs, key)
    ensures r.Success? ==> forall k :: k in r.value <==> exists x :: x in xs && key(x) == k
    ensures r.Success? ==> forall x | x in xs :: r.value[key(x)] == x
    ensures r.Failure? ==>
      && r.error.DuplicateKey?
      && exists i, j :: 0 <= i < j < |xs| && key(xs[i]) == r.error.key && key(xs[j]) == r.error.key
  {
    if xs == [] then Success(map[])
    else
      var init, last := xs[..|xs| - 1], xs[|xs| - 1];
      UniqueKeysSnoc(xs, key);
      match ToMap(init, key)
      case Failure(e) =>
        DuplicateInPrefix(xs, init, key, e.key);
        Failure(e)
      case Success(m) =>
        if key(last) in m then
          DuplicateOfLast(xs, key);
          Failure(DuplicateKey(key(last)))
        else
          ToMapExtend(xs, key, m, m[key(last) := last]);
          Success(m[key(last) := last])
  }

  /** Appending one element keeps the keys distinct exactly when its key is new. */
  lemma UniqueKeysSnoc<T>(xs: seq<T>, key: T -> string)
    requires xs != []
    ensures UniqueKeys(xs, key) <==>
      UniqueKeys(xs[..|xs| - 1], key) && forall x | x in xs[..|xs| - 1] :: key(x) != key(xs[|xs| - 1])
  {
    var init := xs[..|xs| - 1];
    if UniqueKeys(xs, key) {
      forall x | x in init ensures key(x) != key(xs[|xs| - 1]) {
        var i :| 0 <= i < |init| && init[i] == x;
        assert xs[i] == x;
      }
    }
  }

  /** A key repeated in a prefix is repeated in the whole sequence. */
  lemma DuplicateInPrefix<T>(xs: seq<T>, init: seq<T>, key: T -> string, k: string)
    requires xs != [] && init == xs[..|xs| - 1]
    requires exists i, j :: 0 <= i < j < |init| && key(init[i]) == k && key(init[j]) == k
    ensures exists i, j :: 0 <= i < j < |xs| && key(xs[i]) == k && key(xs[j]) == k
  {
    var i, j :| 0 <= i < j < |init| && key(init[i]) == k && key(init[j]) == k;
    assert xs[i] == init[i] && xs[j] == init[j];
  }

  /** The last element's key already met earlier is a repeated key. */
  lemma DuplicateOfLast<T>(xs: seq<T>, key: T -> string)
    requires xs != []
    requires exists x :: x in xs[..|xs| - 1] && key(x) == key(xs[|xs| - 1])
    ensures exists i, j :: 0 <= i < j < |xs| && key(xs[i]) == key(xs[|xs| - 1]) && key(xs[j]) == key(xs[|xs| - 1])
  {
    var init := xs[..|xs| - 1];
    var x :| x in init && key(x) == key(xs[|xs| - 1]);
    var i :| 0 <= i < |init| && init[i] == x;
    assert xs[i] == x;
  }

  /** Filing the last element under its new key extends the map of the prefix. */
  lemma ToMapExtend<T>(xs: seq<T>, key: T -> string, m: map<string, T>, extended: map<string, T>)
    requires xs != []
    requires forall k :: k in m <==> exists x :: x in xs[..|xs| - 1] && key(x) == k
    requires forall x | x in xs[..|xs| - 1] :: m[key(x)] == x
    requires key(xs[|xs| - 1]) !in m
    requires extended == m[key(xs[|xs| - 1]) := xs[|xs| - 1]]
    ensures forall k :: k in extended <==> exists x :: x in xs && key(x) == k
    ensures forall x | x in xs :: extended[key(x)] == x
  {
    var init, last := xs[..|xs| - 1], xs[|xs| - 1];
    assert xs == init + [last];
  }

  /** Every value of a successful `ToMap` is an element filed under its own key. */
  lemma ToMapValues<T>(xs: seq<T>, key: T -> string)
    requires ToMap(xs, key).Success?
    ensures forall k | k in ToMap(xs, key).value ::
      ToMap(xs, key).value[k] in xs && key(ToMap(xs, key).value[k]) == k
  {
  }
}
