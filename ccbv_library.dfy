/**
 * The generator's class library: an insertion-ordered dictionary with a
 * default factory, and `classify`, which records every attribute and method
 * a class exposes, once per distinct value, under the class that first
 * exposes it along the resolution order read from the root.
 */
module CcbvLibrary {
  import opened Wrappers
  import opened Text
  import opened Hierarchy

  // ---------------------------------------------------------------------------
  // Insertion-ordered tables.

  /** The contents of an ordered dictionary: its keys in insertion order and its values. */
  datatype Table<V> = Table(keys: seq<string>, values: map<string, V>)

  /** Every key listed once, and exactly the keys that have a value. */
  ghost predicate WellFormed<V>(t: Table<V>)
  {
    NoDuplicates(t.keys) && forall k :: k in t.values <==> k in t.keys
  }

  /** `d[k] = v` on an ordered dictionary: a new key goes last, an existing one keeps its place. */
  function Put<V>(t: Table<V>, k: string, v: V): Table<V>
  {
    Table(if k in t.values then t.keys else t.keys + [k], t.values[k := v])
  }

  /** Assigning keeps a table well formed. */
  lemma PutWellFormed<V>(t: Table<V>, k: string, v: V)
    requires WellFormed(t)
    ensures WellFormed(Put(t, k, v))
  {
    if k !in t.values {
      assert forall i :: 0 <= i < |t.keys| ==> t.keys[i] != k;
    }
  }

  /** The key-value pairs of a well-formed table, in key order. */
  function ItemsOf<V>(keys: seq<string>, values: map<string, V>): (r: seq<(string, V)>)
    requires forall k :: k in keys ==> k in values
    ensures |r| == |keys|
    ensures forall i :: 0 <= i < |r| ==> r[i] == (keys[i], values[keys[i]])
  {
    if keys == [] then [] else [(keys[0], values[keys[0]])] + ItemsOf(keys[1..], values)
  }

  /** The table an ordered dictionary is built from: the pairs assigned in order. */
  function FromItems<V>(items: seq<(string, V)>): Table<V>
  {
    if items == [] then Table([], map[])
    else
      var last := items[|items| - 1];
      Put(FromItems(items[..|items| - 1]), last.0, last.1)
  }

  /** Building from pairs gives a well-formed table. */
  lemma {:induction false} FromItemsWellFormed<V>(items: seq<(string, V)>)
    ensures WellFormed(FromItems(items))
  {
    if items != [] {
      var last := items[|items| - 1];
      FromItemsWellFormed(items[..|items| - 1]);
      PutWellFormed(FromItems(items[..|items| - 1]), last.0, last.1);
    }
  }

  /** The keys of the built table are exactly the keys of the pairs. */
  lemma {:induction false} FromItemsKeys<V>(items: seq<(string, V)>)
    ensures forall k :: k in FromItems(items).values ==> exists i :: 0 <= i < |items| && items[i].0 == k
    ensures forall i :: 0 <= i < |items| ==> items[i].0 in FromItems(items).values
  {
    if items != [] {
      var init := items[..|items| - 1];
      var last := items[|items| - 1];
      FromItemsKeys(init);
      forall k | k in FromItems(items).values
        ensures exists i :: 0 <= i < |items| && items[i].0 == k
      {
        if k != last.0 {
          assert k in FromItems(init).values;
          var i :| 0 <= i < |init| && init[i].0 == k;
          assert items[i] == init[i];
        }
      }
      forall i | 0 <= i < |items|
        ensures items[i].0 in FromItems(items).values
      {
        if i < |init| {
          assert init[i] == items[i];
        }
      }
    }
  }

  /** Each key carries the value of its last assignment. */
  lemma {:induction false} FromItemsLastWins<V>(items: seq<(string, V)>, i: nat)
    requires i < |items|
    requires forall j :: i < j < |items| ==> items[j].0 != items[i].0
    ensures items[i].0 in FromItems(items).values && FromItems(items).values[items[i].0] == items[i].1
  {
    var init := items[..|items| - 1];
    if i < |init| {
      assert items[i] == init[i];
      assert forall j :: i < j < |init| ==> init[j] == items[j];
      FromItemsLastWins(init, i);
    }
  }

  /** The first `i` keys of `src` copied, in order, with their values. */
  ghost predicate CopiedPrefix<V>(src: Table<V>, done: Table<V>, i: nat)
  {
    i <= |src.keys| && done.keys == src.keys[..i] &&
    (forall k :: k in done.values <==> k in src.keys[..i]) &&
    (forall k :: k in done.values ==> k in src.values && done.values[k] == src.values[k])
  }

  /** Copying the next key extends the copied prefix by one. */
  lemma CopyStep<V>(src: Table<V>, done: Table<V>, i: nat)
    requires WellFormed(src) && i < |src.keys| && CopiedPrefix(src, done, i)
    ensures CopiedPrefix(src, Put(done, src.keys[i], src.values[src.keys[i]]), i + 1)
  {
    assert src.keys[i] !in src.keys[..i];
    assert src.keys[..i + 1] == src.keys[..i] + [src.keys[i]];
  }

  /** Once every key is copied the copy is the table itself. */
  lemma CopyDone<V>(src: Table<V>, done: Table<V>)
    requires WellFormed(src) && CopiedPrefix(src, done, |src.keys|)
    ensures done == src
  {
    assert src.keys[..|src.keys|] == src.keys;
    assert done.values == src.values;
  }

  // ---------------------------------------------------------------------------
  // DefaultOrderedDict

  /** What is passed as `default_factory`: nothing, a callable, or some other value. */
  datatype Factory<V> = NoFactory | Callable(make: () -> V) | NotCallable

  /** An ordered dictionary that fills a missing key from its default factory. */
  class DefaultOrderedDict<V> {
    var factory: Option<() -> V>
    var keys: seq<string>
    var values: map<string, V>

    ghost predicate Valid()
      reads this
    {
      WellFormed(Contents())
    }

    function Contents(): Table<V>
      reads this
    {
      Table(keys, values)
    }

    /** The items, in insertion order. */
    function Items(): seq<(string, V)>
      reads this
      requires Valid()
    {
      ItemsOf(keys, values)
    }

    /** An empty dictionary with the given (callable or absent) factory. */
    constructor Init(f: Option<() -> V>)
      ensures Valid() && factory == f && keys == [] && values == map[]
    {
      factory := f;
      keys := [];
      values := map[];
    }

    /**
     * `DefaultOrderedDict(default_factory, items)`: a `TypeError` for a
     * factory that cannot be called, otherwise the dictionary built from
     * the items.
     */
    static method Create(f: Factory<V>, items: seq<(string, V)>) returns (r: Result<DefaultOrderedDict<V>>)
      ensures r.Err? <==> f.NotCallable?
      ensures r.Err? ==> r.error == TypeError("first argument must be callable")
      ensures r.Ok? ==> fresh(r.value) && r.value.Valid() && r.value.Contents() == FromItems(items)
      ensures r.Ok? ==> r.value.factory == (if f.Callable? then Some(f.make) else None)
    {
      if f.NotCallable? {
        return Err(TypeError("first argument must be callable"));
      }
      var d := new DefaultOrderedDict.Init(if f.Callable? then Some(f.make) else None);
      for i := 0 to |items|
        invariant fresh(d) && d.Valid() && d.Contents() == FromItems(items[..i])
        invariant d.factory == (if f.Callable? then Some(f.make) else None)
      {
        d.Set(items[i].0, items[i].1);
        assert items[..i + 1][..i] == items[..i];
      }
      assert items[..|items|] == items;
      return Ok(d);
    }

    /** `d[key] = value`. */
    method Set(key: string, value: V)
      requires Valid()
      modifies this
      ensures Valid() && factory == old(factory)
      ensures Contents() == Put(old(Contents()), key, value)
    {
      PutWellFormed(Contents(), key, value);
      if key !in values {
        keys := keys + [key];
      }
      values := values[key := value];
    }

    /**
     * `d[key]`: the stored value when there is one, leaving the dictionary
     * as it was; otherwise a new value from the factory, stored last; a
     * `KeyError` when there is no factory.
     */
    method GetItem(key: string) returns (r: Result<V>)
      requires Valid()
      modifies this
      ensures Valid() && factory == old(factory)
      ensures key in old(values) ==> r == Ok(old(values)[key]) && Contents() == old(Contents())
      ensures key !in old(values) && factory.None? ==> r == Err(KeyError(key)) && Contents() == old(Contents())
      ensures key !in old(values) && factory.Some? ==>
                r == Ok(factory.value()) && keys == old(keys) + [key] &&
                values == old(values)[key := factory.value()]
    {
      if key in values {
        return Ok(values[key]);
      }
      if factory.None? {
        return Err(KeyError(key));
      }
      var v := factory.value();
      Set(key, v);
      return Ok(v);
    }

    /** `d.copy()`: a new dictionary with the same factory and the same items in the same order. */
    method Copy() returns (c: DefaultOrderedDict<V>)
      requires Valid()
      ensures fresh(c) && c.Valid() && c.factory == factory && c.Items() == Items()
    {
      c := new DefaultOrderedDict.Init(factory);
      for i := 0 to |keys|
        invariant fresh(c) && c.Valid() && c.factory == factory
        invariant CopiedPrefix(Contents(), c.Contents(), i)
      {
        CopyStep(Contents(), c.Contents(), i);
        c.Set(keys[i], values[keys[i]]);
      }
      CopyDone(Contents(), c.Contents());
    }
  }

  // ---------------------------------------------------------------------------
  // classify: one entry per distinct value under each name.

  /** The entries listed under `n`, or the empty list the default factory supplies. */
  function Lookup<E>(t: Table<seq<E>>, n: string): seq<E>
  {
    if n in t.values then t.values[n] else []
  }

  /** Some entry of `list` has key `q`. */
  predicate HasKey<E, Q(==)>(list: seq<E>, q: Q, key: E -> Q)
  {
    exists i :: 0 <= i < |list| && key(list[i]) == q
  }

  /** Append `e` under `n` unless an entry with the same key is already listed there. */
  function AddEntry<E, Q(==)>(t: Table<seq<E>>, n: string, e: E, key: E -> Q): Table<seq<E>>
  {
    var list := Lookup(t, n);
    Put(t, n, if HasKey(list, key(e), key) then list else list + [e])
  }

  /** The table after offering every `(name, entry)` pair of `pairs` in order. */
  function AddAll<E, Q(==)>(t: Table<seq<E>>, pairs: seq<(string, E)>, key: E -> Q): Table<seq<E>>
  {
    if pairs == [] then t
    else
      var last := pairs[|pairs| - 1];
      AddEntry(AddAll(t, pairs[..|pairs| - 1], key), last.0, last.1, key)
  }

  /** Offering two runs of pairs is offering their concatenation. */
  lemma {:induction false} AddAllConcat<E, Q>(t: Table<seq<E>>, a: seq<(string, E)>, b: seq<(string, E)>, key: E -> Q)
    ensures AddAll(t, a + b, key) == AddAll(AddAll(t, a, key), b, key)
    decreases |b|
  {
    if b == [] {
      assert a + b == a;
    } else {
      var init := b[..|b| - 1];
      assert a + b == (a + init) + [b[|b| - 1]];
      assert (a + b)[..|a + b| - 1] == a + init;
      AddAllConcat(t, a, init, key);
    }
  }

  /** No list holds two entries with the same key. */
  ghost predicate KeysDistinct<E, Q>(t: Table<seq<E>>, key: E -> Q)
  {
    forall n, i, j :: n in t.values && 0 <= i < j < |t.values[n]| ==> key(t.values[n][i]) != key(t.values[n][j])
  }

  /** Offering pairs keeps the table well formed and every list free of repeated keys. */
  lemma {:induction false} AddAllKeepsInvariant<E, Q>(t: Table<seq<E>>, pairs: seq<(string, E)>, key: E -> Q)
    requires WellFormed(t) && KeysDistinct(t, key)
    ensures WellFormed(AddAll(t, pairs, key)) && KeysDistinct(AddAll(t, pairs, key), key)
  {
    if pairs != [] {
      var last := pairs[|pairs| - 1];
      var before := AddAll(t, pairs[..|pairs| - 1], key);
      AddAllKeepsInvariant(t, pairs[..|pairs| - 1], key);
      var list := Lookup(before, last.0);
      PutWellFormed(before, last.0, if HasKey(list, key(last.1), key) then list else list + [last.1]);
    }
  }

  /**
   * Starting from an empty table, a key is listed under `n` exactly when
   * some offered pair for `n` carries it.
   */
  lemma {:induction false} AddAllKeysPresent<E, Q>(pairs: seq<(string, E)>, key: E -> Q, n: string, q: Q)
    ensures HasKey(Lookup(AddAll(Table([], map[]), pairs, key), n), q, key) <==>
              exists i :: 0 <= i < |pairs| && pairs[i].0 == n && key(pairs[i].1) == q
  {
    if pairs != [] {
      var init := pairs[..|pairs| - 1];
      var last := pairs[|pairs| - 1];
      var k := |pairs| - 1;
      AddAllKeysPresent(init, key, n, q);
      var before := Lookup(AddAll(Table([], map[]), init, key), n);
      var after := Lookup(AddAll(Table([], map[]), pairs, key), n);
      assert forall i :: 0 <= i < |init| ==> init[i] == pairs[i];
      var appended := last.0 == n && !HasKey(before, key(last.1), key);
      if appended {
        assert after == before + [last.1];
      } else {
        assert after == before;
      }
      if HasKey(after, q, key) {
        var i :| 0 <= i < |after| && key(after[i]) == q;
        if i < |before| {
          assert after[i] == before[i];
          assert HasKey(before, q, key);
        } else {
          assert pairs[k].0 == n && key(pairs[k].1) == q;
        }
      }
      if exists i :: 0 <= i < |pairs| && pairs[i].0 == n && key(pairs[i].1) == q {
        var i :| 0 <= i < |pairs| && pairs[i].0 == n && key(pairs[i].1) == q;
        if i < |init| {
          assert HasKey(before, q, key);
          var j :| 0 <= j < |before| && key(before[j]) == q;
          assert after[j] == before[j];
        } else if appended {
          assert after[|before|] == last.1;
        } else {
          var j :| 0 <= j < |before| && key(before[j]) == q;
          assert after[j] == before[j];
        }
      }
    }
  }

  /** Pair `i` is the first one offered for `n` with its key. */
  ghost predicate FirstWithKey<E, Q>(pairs: seq<(string, E)>, key: E -> Q, i: int)
    requires 0 <= i < |pairs|
  {
    forall j :: 0 <= j < i && pairs[j].0 == pairs[i].0 ==> key(pairs[j].1) != key(pairs[i].1)
  }

  /**
   * Starting from an empty table, the entries under `n` are exactly the
   * pairs for `n` that are the first offered with their key: a later pair
   * with a known key never replaces or joins the first.
   */
  lemma {:induction false} FirstOfferWins<E, Q>(pairs: seq<(string, E)>, key: E -> Q, n: string, e: E)
    ensures e in Lookup(AddAll(Table([], map[]), pairs, key), n) <==>
              exists i :: 0 <= i < |pairs| && pairs[i] == (n, e) && FirstWithKey(pairs, key, i)
  {
    if pairs != [] {
      var init := pairs[..|pairs| - 1];
      var last := pairs[|pairs| - 1];
      var k := |pairs| - 1;
      FirstOfferWins(init, key, n, e);
      AddAllKeysPresent(init, key, n, key(e));
      var before := Lookup(AddAll(Table([], map[]), init, key), n);
      var after := Lookup(AddAll(Table([], map[]), pairs, key), n);
      assert forall i :: 0 <= i < |init| ==> init[i] == pairs[i];
      assert forall i :: 0 <= i < |init| ==> (FirstWithKey(init, key, i) <==> FirstWithKey(pairs, key, i));
      if e in after && e !in before {
        assert last.0 == n && !HasKey(before, key(last.1), key) && after == before + [last.1];
        assert e == last.1;
      }
      if exists i :: 0 <= i < |pairs| && pairs[i] == (n, e) && FirstWithKey(pairs, key, i) {
        var i :| 0 <= i < |pairs| && pairs[i] == (n, e) && FirstWithKey(pairs, key, i);
        if i == k {
          assert !HasKey(before, key(e), key);
        }
      }
    }
  }

  /** A member `inspect.getmembers` reports, with what `classify` reads from it. */
  datatype Member = Member(
    name: string,
    isMethod: bool,
    obj: int,              // the member's value, compared by equality
    docstring: string,
    sourceLines: seq<string>,
    startLine: int,
    arguments: string,
    file: string)

  /** A class of the resolution order and its members. */
  datatype ClassInfo = ClassInfo(name: string, isObject: bool, members: seq<Member>)

  /** An attribute entry: the value and the class it is attributed to. */
  datatype AttributeEntry = AttributeEntry(obj: int, definingClass: string)

  /** A method entry, as `classify` records it. */
  datatype MethodEntry = MethodEntry(
    docstring: string,
    definingClass: string,
    arguments: string,
    code: string,
    start: int,
    total: nat,
    file: string)

  /** What `classify` stores about the class itself. */
  datatype ClassSummary = ClassSummary(name: string, ancestors: seq<string>)

  /** Members shown: `__init__` and every name that does not start with `__`. */
  predicate Shown(m: Member)
  {
    m.name == "__init__" || !StartsWith(m.name, "__")
  }

  function AttributeKey(e: AttributeEntry): int { e.obj }

  function CodeKey(e: MethodEntry): string { e.code }

  /** The attribute pairs a class offers, in member order. */
  function AttributePairs(cls: string, members: seq<Member>): seq<(string, AttributeEntry)>
  {
    if members == [] then []
    else
      var m := members[|members| - 1];
      AttributePairs(cls, members[..|members| - 1]) +
      (if Shown(m) && !m.isMethod then [(m.name, AttributeEntry(m.obj, cls))] else [])
  }

  /**
   * The method entry for `m`: its source joined and stripped, its first line
   * and its line count. The source lines are Python 2 byte strings, so the
   * strip removes ASCII whitespace only.
   */
  function MethodEntryOf(cls: string, m: Member): MethodEntry
  {
    MethodEntry(m.docstring, cls, m.arguments, AsciiStrip(Join(m.sourceLines, "")), m.startLine, |m.sourceLines|, m.file)
  }

  /** The method pairs a class offers, in member order. */
  function MethodPairs(cls: string, members: seq<Member>): seq<(string, MethodEntry)>
  {
    if members == [] then []
    else
      var m := members[|members| - 1];
      MethodPairs(cls, members[..|members| - 1]) +
      (if Shown(m) && m.isMethod then [(m.name, MethodEntryOf(cls, m))] else [])
  }

  /** The attribute pairs of the classes, class after class. */
  function AllAttributePairs(classes: seq<ClassInfo>): seq<(string, AttributeEntry)>
  {
    if classes == [] then []
    else
      var c := classes[|classes| - 1];
      AllAttributePairs(classes[..|classes| - 1]) + AttributePairs(c.name, c.members)
  }

  /** The method pairs of the classes, class after class. */
  function AllMethodPairs(classes: seq<ClassInfo>): seq<(string, MethodEntry)>
  {
    if classes == [] then []
    else
      var c := classes[|classes| - 1];
      AllMethodPairs(classes[..|classes| - 1]) + MethodPairs(c.name, c.members)
  }

  /** The resolution order without `object`, read from the root to the class itself. */
  function Resolved(mro: seq<ClassInfo>): seq<ClassInfo>
  {
    if mro == [] then []
    else (if mro[0].isObject then [] else [mro[0]]) + Resolved(mro[1..])
  }

  function Reversed<T>(s: seq<T>): (r: seq<T>)
    ensures |r| == |s|
    ensures forall i :: 0 <= i < |s| ==> r[i] == s[|s| - 1 - i]
  {
    if s == [] then [] else Reversed(s[1..]) + [s[0]]
  }

  /** `[k.__name__ for k in mro[:-1]]`: the names of all classes but the last. */
  function AncestorNames(classes: seq<ClassInfo>): (r: seq<string>)
    ensures |classes| >= 1 ==> |r| == |classes| - 1 && forall i :: 0 <= i < |r| ==> r[i] == classes[i].name
    ensures classes == [] ==> r == []
  {
    if classes == [] then [] else seq(|classes| - 1, i requires 0 <= i < |classes| - 1 => classes[i].name)
  }

  /** A dictionary whose factory makes empty lists. */
  ghost predicate ListDict<E>(d: DefaultOrderedDict<seq<E>>)
    reads d
  {
    d.Valid() && d.factory.Some? && d.factory.value() == []
  }

  /** Fetching from a list dictionary stores the list under the name, creating it when missing. */
  lemma FetchedIsPut<E>(before: Table<seq<E>>, after: Table<seq<E>>, n: string)
    requires (n in before.values && after == before) ||
             (n !in before.values && after == Table(before.keys + [n], before.values[n := []]))
    ensures after == Put(before, n, Lookup(before, n))
  {
    if n in before.values {
      assert before.values[n := before.values[n]] == before.values;
    }
  }

  /** Appending after fetching is one offer of the entry. */
  lemma AddEntryStep<E, Q>(before: Table<seq<E>>, fetched: Table<seq<E>>, n: string, e: E, key: E -> Q,
                           known: bool, after: Table<seq<E>>)
    requires fetched == Put(before, n, Lookup(before, n))
    requires known == HasKey(Lookup(before, n), key(e), key)
    requires after == if known then fetched else Put(fetched, n, Lookup(before, n) + [e])
    ensures after == AddEntry(before, n, e, key)
  {
  }

  /** One more pair offered is one more entry step. */
  lemma AddAllSnoc<E, Q>(t: Table<seq<E>>, pairs: seq<(string, E)>, j: nat, key: E -> Q)
    requires j < |pairs|
    ensures AddAll(t, pairs[..j + 1], key) == AddEntry(AddAll(t, pairs[..j], key), pairs[j].0, pairs[j].1, key)
  {
    assert pairs[..j + 1][..j] == pairs[..j];
  }

  /**
   * The body of the loops over one class's members: for each `(name, entry)`
   * fetch the list under the name, which the factory creates when missing,
   * and append the entry unless its key is already there.
   */
  method AddMembers<E, Q(==)>(d: DefaultOrderedDict<seq<E>>, pairs: seq<(string, E)>, key: E -> Q)
    requires ListDict(d)
    modifies d
    ensures ListDict(d) && d.factory == old(d.factory)
    ensures d.Contents() == AddAll(old(d.Contents()), pairs, key)
  {
    for j := 0 to |pairs|
      invariant ListDict(d) && d.factory == old(d.factory)
      invariant d.Contents() == AddAll(old(d.Contents()), pairs[..j], key)
    {
      var n := pairs[j].0;
      var e := pairs[j].1;
      ghost var before := d.Contents();
      var got := d.GetItem(n);
      var list := got.value;
      FetchedIsPut(before, d.Contents(), n);
      ghost var fetched := d.Contents();
      var known := exists i :: 0 <= i < |list| && key(list[i]) == key(e);
      if !known {
        d.Set(n, list + [e]);
      }
      AddEntryStep(before, fetched, n, e, key, known, d.Contents());
      AddAllSnoc(old(d.Contents()), pairs, j, key);
    }
    assert pairs[..|pairs|] == pairs;
  }

  /** Offering the members of one more class continues from the tables the earlier classes left. */
  lemma ClassifyStep(ta: Table<seq<AttributeEntry>>, tm: Table<seq<MethodEntry>>, classes: seq<ClassInfo>, i: nat)
    requires i < |classes|
    ensures AddAll(ta, AllAttributePairs(classes[..i + 1]), AttributeKey)
              == AddAll(AddAll(ta, AllAttributePairs(classes[..i]), AttributeKey),
                        AttributePairs(classes[i].name, classes[i].members), AttributeKey)
    ensures AddAll(tm, AllMethodPairs(classes[..i + 1]), CodeKey)
              == AddAll(AddAll(tm, AllMethodPairs(classes[..i]), CodeKey),
                        MethodPairs(classes[i].name, classes[i].members), CodeKey)
  {
    var c := classes[i];
    assert classes[..i + 1][..i] == classes[..i];
    AddAllConcat(ta, AllAttributePairs(classes[..i]), AttributePairs(c.name, c.members), AttributeKey);
    AddAllConcat(tm, AllMethodPairs(classes[..i]), MethodPairs(c.name, c.members), CodeKey);
  }

  /**
   * `classify`: an `Exception` when the object is not a class; otherwise
   * the class's name and the names of its ancestors from the root, and every
   * shown member of every class from the root down offered to the attribute
   * or method dictionary, keyed by value or by stripped source code.
   */
  method Classify(isClass: bool, mro: seq<ClassInfo>,
                  attributes: DefaultOrderedDict<seq<AttributeEntry>>, methods: DefaultOrderedDict<seq<MethodEntry>>)
    returns (r: Result<ClassSummary>)
    requires isClass ==> |mro| >= 1
    requires ListDict(attributes) && ListDict(methods)
    modifies attributes, methods
    ensures ListDict(attributes) && ListDict(methods)
    ensures !isClass ==> r == Err(Exception) && unchanged(attributes) && unchanged(methods)
    ensures isClass ==>
              var classes := Reversed(Resolved(mro));
              r == Ok(ClassSummary(mro[0].name, AncestorNames(classes))) &&
              attributes.Contents() == AddAll(old(attributes.Contents()), AllAttributePairs(classes), AttributeKey) &&
              methods.Contents() == AddAll(old(methods.Contents()), AllMethodPairs(classes), CodeKey)
  {
    if !isClass {
      return Err(Exception);
    }
    var classes := Reversed(Resolved(mro));
    var ancestors := AncestorNames(classes);
    for i := 0 to |classes|
      invariant ListDict(attributes) && ListDict(methods)
      invariant attributes.Contents() == AddAll(old(attributes.Contents()), AllAttributePairs(classes[..i]), AttributeKey)
      invariant methods.Contents() == AddAll(old(methods.Contents()), AllMethodPairs(classes[..i]), CodeKey)
    {
      var c := classes[i];
      ClassifyStep(old(attributes.Contents()), old(methods.Contents()), classes, i);
      AddMembers(attributes, AttributePairs(c.name, c.members), AttributeKey);
      AddMembers(methods, MethodPairs(c.name, c.members), CodeKey);
    }
    assert classes[..|classes|] == classes;
    return Ok(ClassSummary(mro[0].name, ancestors));
  }

  /**
   * Into fresh dictionaries, each value is recorded once per name, under the
   * first class from the root that exposes it: an attribute entry exists
   * exactly for the first offer of its value under its name.
   */
  lemma AttributeAttributedToFirstExposer(classes: seq<ClassInfo>, n: string, e: AttributeEntry)
    ensures e in Lookup(AddAll(Table([], map[]), AllAttributePairs(classes), AttributeKey), n) <==>
              var pairs := AllAttributePairs(classes);
              exists i :: 0 <= i < |pairs| && pairs[i] == (n, e) && FirstWithKey(pairs, AttributeKey, i)
  {
    FirstOfferWins(AllAttributePairs(classes), AttributeKey, n, e);
  }

  /** The same for methods: one entry per distinct stripped source under each name. */
  lemma MethodAttributedToFirstExposer(classes: seq<ClassInfo>, n: string, e: MethodEntry)
    ensures e in Lookup(AddAll(Table([], map[]), AllMethodPairs(classes), CodeKey), n) <==>
              var pairs := AllMethodPairs(classes);
              exists i :: 0 <= i < |pairs| && pairs[i] == (n, e) && FirstWithKey(pairs, CodeKey, i)
  {
    FirstOfferWins(AllMethodPairs(classes), CodeKey, n, e);
  }

  /** No attribute list ever holds two entries for the same value, nor a method list two for the same code. */
  lemma ClassifyKeepsListsDistinct(classes: seq<ClassInfo>)
    ensures KeysDistinct(AddAll(Table([], map[]), AllAttributePairs(classes), AttributeKey), AttributeKey)
    ensures KeysDistinct(AddAll(Table([], map[]), AllMethodPairs(classes), CodeKey), CodeKey)
  {
    AddAllKeepsInvariant(Table([], map[]), AllAttributePairs(classes), AttributeKey);
    AddAllKeepsInvariant(Table([], map[]), AllMethodPairs(classes), CodeKey);
  }
}
