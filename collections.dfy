/**
 * The two dictionary-building patterns of the readers, as specifications over
 * the input rows: "assign `d[key(row)] = value(row)` for each row" and "append
 * `value(row)` to `d[key(row)]`, creating the list on first sight", plus the
 * `list(set(...))` de-duplication of `main`.
 */
module Collections {

  /** The keys the rows carry, as a set. */
  function KeysOf<R, K(==)>(rows: seq<R>, key: R -> K): (r: set<K>)
    ensures forall k :: k in r ==> exists i :: 0 <= i < |rows| && key(rows[i]) == k
    ensures forall i :: 0 <= i < |rows| ==> key(rows[i]) in r
  {
    if rows == [] then {}
    else
      var prev := rows[..|rows| - 1];
      var r := KeysOf(prev, key) + {key(rows[|rows| - 1])};
      assert forall i :: 0 <= i < |prev| ==> prev[i] == rows[i];
      r
  }

  /** Row `i` is the last row whose key is `k`. */
  predicate LastAt<R, K(==)>(rows: seq<R>, key: R -> K, k: K, i: int) {
    && 0 <= i < |rows|
    && key(rows[i]) == k
    && forall j :: i < j < |rows| ==> key(rows[j]) != k
  }

  /**
   * The dictionary after `for row in rows: d[key(row)] = value(row)` starting
   * from `base`: its keys are those of `base` and of the rows, and every value
   * comes from `base` or from a row with that key.
   */
  function Assigned<R, K(==), V>(base: map<K, V>, rows: seq<R>, key: R -> K, value: R -> V): (r: map<K, V>)
    ensures r.Keys == base.Keys + KeysOf(rows, key)
  {
    if rows == [] then base
    else
      var prev := rows[..|rows| - 1];
      var last := rows[|rows| - 1];
      var m := Assigned(base, prev, key, value);
      assert forall i :: 0 <= i < |prev| ==> prev[i] == rows[i];
      m[key(last) := value(last)]
  }

  /** A property every base value and every row's value has holds of every value assigned. */
  lemma {:induction false} AssignedKeeps<R, K, V>(base: map<K, V>, rows: seq<R>, key: R -> K, value: R -> V, p: V -> bool)
    requires forall k :: k in base ==> p(base[k])
    requires forall i :: 0 <= i < |rows| ==> p(value(rows[i]))
    ensures forall k :: k in Assigned(base, rows, key, value) ==> p(Assigned(base, rows, key, value)[k])
  {
    if rows != [] {
      var prev := rows[..|rows| - 1];
      assert forall i :: 0 <= i < |prev| ==> prev[i] == rows[i];
      AssignedKeeps(base, prev, key, value, p);
    }
  }

  /** Extending the rows by one is one more assignment. */
  lemma AssignedStep<R, K, V>(base: map<K, V>, rows: seq<R>, key: R -> K, value: R -> V, i: int)
    requires 0 <= i < |rows|
    ensures Assigned(base, rows[..i + 1], key, value) == Assigned(base, rows[..i], key, value)[key(rows[i]) := value(rows[i])]
  {
    assert rows[..i + 1][..i] == rows[..i];
  }

  /** The last row carrying a key decides its value: later assignments overwrite earlier ones. */
  lemma {:induction false} AssignedLast<R, K, V>(base: map<K, V>, rows: seq<R>, key: R -> K, value: R -> V, k: K, i: int)
    requires LastAt(rows, key, k, i)
    ensures k in Assigned(base, rows, key, value)
    ensures Assigned(base, rows, key, value)[k] == value(rows[i])
  {
    var n := |rows| - 1;
    var prev := rows[..n];
    var m := Assigned(base, prev, key, value);
    assert Assigned(base, rows, key, value) == m[key(rows[n]) := value(rows[n])];
    if i < n {
      assert rows[i] == prev[i];
      assert LastAt(prev, key, k, i);
      AssignedLast(base, prev, key, value, k, i);
      assert key(rows[n]) != k;
    }
  }

  /** A key no row carries keeps whatever `base` had for it. */
  lemma {:induction false} AssignedUntouched<R, K, V>(base: map<K, V>, rows: seq<R>, key: R -> K, value: R -> V, k: K)
    requires k !in KeysOf(rows, key)
    ensures k in Assigned(base, rows, key, value) <==> k in base
    ensures k in base ==> Assigned(base, rows, key, value)[k] == base[k]
  {
    if rows != [] {
      var prev := rows[..|rows| - 1];
      assert key(rows[|rows| - 1]) != k;
      AssignedUntouched(base, prev, key, value, k);
    }
  }

  /**
   * Reference definition: the values of the rows whose key is `k`, in row order
   * (the subsequence a group must hold).
   */
  function Select<R, K(==), V>(rows: seq<R>, key: R -> K, value: R -> V, k: K): seq<V> {
    if rows == [] then []
    else
      var last := rows[|rows| - 1];
      Select(rows[..|rows| - 1], key, value, k) + (if key(last) == k then [value(last)] else [])
  }

  /** A key has a non-empty selection exactly when some row carries it. */
  lemma {:induction false} SelectNonEmpty<R, K, V>(rows: seq<R>, key: R -> K, value: R -> V, k: K)
    ensures Select(rows, key, value, k) != [] <==> k in KeysOf(rows, key)
  {
    if rows != [] {
      var prev := rows[..|rows| - 1];
      SelectNonEmpty(prev, key, value, k);
      assert forall i :: 0 <= i < |prev| ==> prev[i] == rows[i];
    }
  }

  /**
   * The dictionary after `for row in rows: d.setdefault(key(row), []).append(value(row))`,
   * written the way the readers' loops build it.
   */
  function Grouped<R, K(==), V>(rows: seq<R>, key: R -> K, value: R -> V): (r: map<K, seq<V>>)
    ensures r.Keys == KeysOf(rows, key)
  {
    if rows == [] then map[]
    else
      var prev := rows[..|rows| - 1];
      var last := rows[|rows| - 1];
      var g := Grouped(prev, key, value);
      var k := key(last);
      assert forall i :: 0 <= i < |prev| ==> prev[i] == rows[i];
      g[k := (if k in g then g[k] else []) + [value(last)]]
  }

  /** Extending the rows by one appends one value to one group. */
  lemma GroupedStep<R, K, V>(rows: seq<R>, key: R -> K, value: R -> V, i: int)
    requires 0 <= i < |rows|
    ensures var g := Grouped(rows[..i], key, value);
      Grouped(rows[..i + 1], key, value) == g[key(rows[i]) := (if key(rows[i]) in g then g[key(rows[i])] else []) + [value(rows[i])]]
  {
    assert rows[..i + 1][..i] == rows[..i];
  }

  /**
   * Each group is exactly the subsequence of row values whose key is that group's
   * key, in input order, and no group is empty.
   */
  lemma {:induction false} GroupedIsSelect<R, K, V>(rows: seq<R>, key: R -> K, value: R -> V)
    ensures forall k :: k in Grouped(rows, key, value) ==>
      Grouped(rows, key, value)[k] == Select(rows, key, value, k) && Select(rows, key, value, k) != []
  {
    if rows != [] {
      var prev := rows[..|rows| - 1];
      GroupedIsSelect(prev, key, value);
      forall k | k in Grouped(rows, key, value)
        ensures Grouped(rows, key, value)[k] == Select(rows, key, value, k)
        ensures Select(rows, key, value, k) != []
      {
        SelectNonEmpty(prev, key, value, k);
      }
    }
  }

  /** A second update of the same key overrides the first. */
  lemma MapOverride<K, V>(m: map<K, V>, k: K, a: V, b: V)
    ensures m[k := a][k := b] == m[k := b]
  {
  }

  /** The outputs of `f` on each element, concatenated in order: a loop that appends per element. */
  function FlatMap<R, E>(xs: seq<R>, f: R -> seq<E>): seq<E> {
    if xs == [] then [] else FlatMap(xs[..|xs| - 1], f) + f(xs[|xs| - 1])
  }

  /** One more element appends its output. */
  lemma FlatMapStep<R, E>(xs: seq<R>, f: R -> seq<E>, i: int)
    requires 0 <= i < |xs|
    ensures FlatMap(xs[..i + 1], f) == FlatMap(xs[..i], f) + f(xs[i])
  {
    assert xs[..i + 1][..i] == xs[..i];
  }

  /** Elements do not affect one another's output: `FlatMap` distributes over concatenation. */
  lemma {:induction false} FlatMapAppend<R, E>(xs: seq<R>, ys: seq<R>, f: R -> seq<E>)
    ensures FlatMap(xs + ys, f) == FlatMap(xs, f) + FlatMap(ys, f)
  {
    if ys == [] {
      assert xs + ys == xs;
    } else {
      var ys' := ys[..|ys| - 1];
      assert (xs + ys)[..|xs + ys| - 1] == xs + ys';
      assert (xs + ys)[|xs + ys| - 1] == ys[|ys| - 1];
      FlatMapAppend(xs, ys', f);
    }
  }

  /** No element occurs twice. */
  predicate NoDups<T(==)>(xs: seq<T>) {
    forall i, j :: 0 <= i < j < |xs| ==> xs[i] != xs[j]
  }

  /**
   * `list(set(xs))`: the same elements, each once. (Python leaves the order
   * unspecified; this one keeps first occurrences.)
   */
  function Dedup<T(==)>(xs: seq<T>): (r: seq<T>)
    ensures NoDups(r)
    ensures forall i :: 0 <= i < |r| ==> r[i] in xs
    ensures forall i :: 0 <= i < |xs| ==> xs[i] in r
    ensures |r| <= |xs|
  {
    if xs == [] then []
    else
      var prev := xs[..|xs| - 1];
      var last := xs[|xs| - 1];
      var d := Dedup(prev);
      assert xs == prev + [last];
      if last in d then d else d + [last]
  }
}
