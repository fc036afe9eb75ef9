/**
 * The generator's grouping helpers: `group_by` builds a lookup table of
 * lists from a sequence, `mapv` transforms the values of a dictionary.
 */
module CcbvItertools {
  import opened Wrappers
  import opened Hierarchy

  /** The message of the error raised when no grouping function is given. */
  const MissingGrouping: string := "Expected either a `key` or `keyval` argument"

  /** The grouping function `group_by` uses: `keyval` when given, else `key` paired with the value. */
  function Chosen<T, K(==)>(key: Option<T -> K>, keyval: Option<T -> (K, T)>): Option<T -> (K, T)>
  {
    if keyval.Some? then keyval
    else if key.Some? then Some((v: T) => (key.value(v), v))
    else None
  }

  /** The list under `k`, or the empty list a new group starts from. */
  function Group<K(==), T>(lut: map<K, seq<T>>, k: K): seq<T>
  {
    if k in lut then lut[k] else []
  }

  /** The lookup table after the values `xs`, each appended to the list under its key. */
  function Lut<T, K(==)>(xs: seq<T>, f: T -> (K, T)): map<K, seq<T>>
  {
    if xs == [] then map[]
    else
      var lut := Lut(xs[..|xs| - 1], f);
      var kv := f(xs[|xs| - 1]);
      lut[kv.0 := Group(lut, kv.0) + [kv.1]]
  }

  /**
   * `group_by`: a `ValueError` when neither `key` nor `keyval` is given,
   * otherwise the lookup table of the chosen grouping function.
   */
  method GroupBy<T, K(==)>(iterable: seq<T>, key: Option<T -> K>, keyval: Option<T -> (K, T)>)
    returns (r: Result<map<K, seq<T>>>)
    ensures r.Err? <==> key.None? && keyval.None?
    ensures r.Err? ==> r.error == ValueError(MissingGrouping)
    ensures r.Ok? ==> r.value == Lut(iterable, Chosen(key, keyval).value)
  {
    var f;
    if keyval.None? {
      if key.None? {
        return Err(ValueError(MissingGrouping));
      }
      var k := key.value;
      f := (v: T) => (k(v), v);
    } else {
      f := keyval.value;
    }
    var lut := map[];
    for i := 0 to |iterable|
      invariant lut == Lut(iterable[..i], f)
    {
      var kv := f(iterable[i]);
      var s := if kv.0 in lut then lut[kv.0] else [];
      lut := lut[kv.0 := s + [kv.1]];
      assert iterable[..i + 1][..i] == iterable[..i];
    }
    assert iterable[..|iterable|] == iterable;
    return Ok(lut);
  }

  /** `keyval` wins over `key` when both are given. */
  lemma KeyvalTakesPrecedence<T, K>(key: Option<T -> K>, keyval: Option<T -> (K, T)>, v: T)
    requires key.Some? && keyval.Some?
    ensures Chosen(key, keyval).value(v) == keyval.value(v)
  {
  }

  /** The keys of the table are exactly the keys of the input values. */
  lemma {:induction false} LutKeys<T, K>(xs: seq<T>, f: T -> (K, T))
    ensures forall k :: k in Lut(xs, f) ==> exists i :: 0 <= i < |xs| && f(xs[i]).0 == k
    ensures forall i :: 0 <= i < |xs| ==> f(xs[i]).0 in Lut(xs, f)
  {
    if xs != [] {
      var init := xs[..|xs| - 1];
      LutKeys(init, f);
      forall k | k in Lut(xs, f)
        ensures exists i :: 0 <= i < |xs| && f(xs[i]).0 == k
      {
        if k != f(xs[|xs| - 1]).0 {
          assert k in Lut(init, f);
          var i :| 0 <= i < |init| && f(init[i]).0 == k;
          assert xs[i] == init[i];
        }
      }
      forall i | 0 <= i < |xs|
        ensures f(xs[i]).0 in Lut(xs, f)
      {
        if i < |init| {
          assert init[i] == xs[i];
        }
      }
    }
  }

  /** The values of `xs` whose key is `k`, in input order, as the grouping function rewrites them. */
  function Selected<T, K(==)>(xs: seq<T>, f: T -> (K, T), k: K): seq<T>
  {
    if xs == [] then []
    else
      var kv := f(xs[|xs| - 1]);
      Selected(xs[..|xs| - 1], f, k) + (if kv.0 == k then [kv.1] else [])
  }

  /** Each group keeps the input order of its values. */
  lemma {:induction false} LutGroupInOrder<T, K>(xs: seq<T>, f: T -> (K, T), k: K)
    ensures Group(Lut(xs, f), k) == Selected(xs, f, k)
  {
    if xs != [] {
      LutGroupInOrder(xs[..|xs| - 1], f, k);
    }
  }

  /** The total length of the groups listed in `ks`. */
  function SizeSum<K(==), T>(lut: map<K, seq<T>>, ks: seq<K>): nat
  {
    if ks == [] then 0 else |Group(lut, ks[0])| + SizeSum(lut, ks[1..])
  }

  /** An empty table has no values under any key. */
  lemma {:induction false} SizeSumEmpty<K, T>(lut: map<K, seq<T>>, ks: seq<K>)
    requires lut == map[]
    ensures SizeSum(lut, ks) == 0
  {
    if ks != [] {
      SizeSumEmpty(lut, ks[1..]);
    }
  }

  /** Appending one value under `k` adds one to the total when `k` is listed once. */
  lemma {:induction false} SizeSumAppend<K, T>(lut: map<K, seq<T>>, ks: seq<K>, k: K, v: T)
    requires NoDuplicates(ks)
    ensures SizeSum(lut[k := Group(lut, k) + [v]], ks) == SizeSum(lut, ks) + (if k in ks then 1 else 0)
  {
    if ks != [] {
      assert NoDuplicates(ks[1..]) by {
        forall i, j | 0 <= i < j < |ks[1..]| ensures ks[1..][i] != ks[1..][j] {
          assert ks[1..][i] == ks[i + 1] && ks[1..][j] == ks[j + 1];
        }
      }
      SizeSumAppend(lut, ks[1..], k, v);
      if ks[0] == k {
        assert k !in ks[1..] by {
          forall j | 0 <= j < |ks[1..]| ensures ks[1..][j] != k {
            assert ks[1..][j] == ks[j + 1];
          }
        }
      }
    }
  }

  /** Every input value lands in exactly one group: the group sizes sum to the input length. */
  lemma {:induction false} GroupSizesSum<T, K>(xs: seq<T>, f: T -> (K, T), ks: seq<K>)
    requires NoDuplicates(ks)
    requires forall i :: 0 <= i < |xs| ==> f(xs[i]).0 in ks
    ensures SizeSum(Lut(xs, f), ks) == |xs|
  {
    if xs != [] {
      var init := xs[..|xs| - 1];
      assert forall i :: 0 <= i < |init| ==> f(init[i]).0 in ks by {
        forall i | 0 <= i < |init| ensures f(init[i]).0 in ks {
          assert init[i] == xs[i];
        }
      }
      GroupSizesSum(init, f, ks);
      var kv := f(xs[|xs| - 1]);
      assert kv.0 in ks;
      assert Lut(xs, f) == Lut(init, f)[kv.0 := Group(Lut(init, f), kv.0) + [kv.1]];
      SizeSumAppend(Lut(init, f), ks, kv.0, kv.1);
    } else {
      SizeSumEmpty(Lut(xs, f), ks);
    }
  }

  /**
   * The first letter of a word, the grouping of the example in the `group_by`
   * documentation. It is meant for the example's non-empty words only: on
   * the empty word `s[0]` raises `IndexError`, and the empty key given here
   * is never used.
   */
  function FirstLetter(s: string): (string, string)
  {
    if s == [] then ("", s) else ([s[0]], s)
  }

  /**
   * In the documentation's example the group for `q` lists `'qux'` before
   * `'quux'`, following the input, not in the order the documentation shows.
   */
  lemma DocumentedExampleKeepsInputOrder()
    ensures Group(Lut(["foo", "bar", "baz", "qux", "quux"], FirstLetter), "q") == ["qux", "quux"]
  {
    var xs := ["foo", "bar", "baz", "qux", "quux"];
    LutGroupInOrder(xs, FirstLetter, "q");
    assert xs[..4] == ["foo", "bar", "baz", "qux"];
    assert xs[..4][..3] == ["foo", "bar", "baz"];
    assert Selected(["foo", "bar", "baz"], FirstLetter, "q") == [] by {
      assert ["foo", "bar", "baz"][..2] == ["foo", "bar"];
      assert ["foo", "bar"][..1] == ["foo"];
      assert ["foo"][..0] == [];
    }
  }

  /** `mapv`: the same keys, each value passed through `mapper`. */
  function MapV<K(==), A, B>(d: map<K, A>, mapper: A -> B): (r: map<K, B>)
    ensures r.Keys == d.Keys
  {
    map k | k in d :: mapper(d[k])
  }

  /** Mapping twice is mapping once with the composed function. */
  lemma MapVComposes<K, A, B, C>(d: map<K, A>, f: A -> B, g: B -> C)
    ensures MapV(MapV(d, f), g) == MapV(d, (a: A) => g(f(a)))
  {
  }

  /** Mapping the group lengths of a table gives, under every key, the number of its values. */
  lemma GroupLengths<T, K>(xs: seq<T>, f: T -> (K, T), k: K)
    requires k in Lut(xs, f)
    ensures MapV(Lut(xs, f), (s: seq<T>) => |s|)[k] == |Selected(xs, f, k)|
  {
    LutGroupInOrder(xs, f, k);
  }
}
