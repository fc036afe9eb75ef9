/**
 * Storing one imported project version: bucketing the attribute observations
 * by (name, value), attributing each attribute to the classes that define it
 * rather than inherit it, and turning declared base lists into ordered
 * inheritance rows.
 */
module Storages {
  import opened Wrappers
  import opened Hierarchy
  import Models

  /** An attribute as the code importer reports it: the value seen on one class. */
  datatype ImportedAttribute = ImportedAttribute(name: string, value: string, lineNumber: int,
                                                 klassPath: string)

  /** A class as the code importer reports it, with its declared bases as dotted paths. */
  datatype ImportedKlass = ImportedKlass(name: string, moduleName: string, docstring: string,
                                         lineNumber: int, path: string, bases: seq<string>,
                                         bestImportPath: string)

  /** The bucket key of an attribute observation. */
  datatype AttributeKey = AttributeKey(name: string, value: string)

  /** Where a (name, value) pair was observed: the class path and the line. */
  datatype Observation = Observation(klassPath: string, lineNumber: int)

  /** A stored `Inheritance` row: `child` lists `parent` as its base number `order`. */
  datatype InheritanceRow = InheritanceRow(parent: KlassId, child: KlassId, order: nat)

  function KeyOf(a: ImportedAttribute): AttributeKey
  {
    AttributeKey(a.name, a.value)
  }

  function ObservationOf(a: ImportedAttribute): Observation
  {
    Observation(a.klassPath, a.lineNumber)
  }

  // ---------------------------------------------------------------------------
  // Bucketing the observations of the import stream by (name, value).

  /** The observations recorded under `key`, in stream order. */
  function Observed(stream: seq<ImportedAttribute>, key: AttributeKey): (r: seq<Observation>)
    ensures |r| <= |stream|
  {
    if stream == [] then []
    else
      var a := stream[|stream| - 1];
      Observed(stream[..|stream| - 1], key) + (if KeyOf(a) == key then [ObservationOf(a)] else [])
  }

  /** The keys of the stream in order of first appearance: the bucket dictionary's order. */
  function KeysInOrder(stream: seq<ImportedAttribute>): seq<AttributeKey>
  {
    if stream == [] then []
    else
      var init := KeysInOrder(stream[..|stream| - 1]);
      var k := KeyOf(stream[|stream| - 1]);
      if k in init then init else init + [k]
  }

  /** A bucket holds exactly the observations of the stream's records with its key. */
  lemma {:induction false} ObservedMembers(stream: seq<ImportedAttribute>, key: AttributeKey,
                                          o: Observation)
    ensures o in Observed(stream, key) <==>
              exists a :: a in stream && KeyOf(a) == key && ObservationOf(a) == o
    decreases |stream|
  {
    if stream != [] {
      var init := stream[..|stream| - 1];
      var a := stream[|stream| - 1];
      assert stream == init + [a];
      ObservedMembers(init, key, o);
      if b :| b in stream && KeyOf(b) == key && ObservationOf(b) == o {
        if b != a {
          assert b in init;
        }
      }
      if o in Observed(init, key) {
        var b :| b in init && KeyOf(b) == key && ObservationOf(b) == o;
        assert b in stream;
      }
    }
  }

  /** Every key occurs once, and exactly the keys with a non-empty bucket occur. */
  lemma {:induction false} KeysInOrderMembers(stream: seq<ImportedAttribute>)
    ensures NoDuplicates(KeysInOrder(stream))
    ensures forall k :: k in KeysInOrder(stream) <==> Observed(stream, k) != []
    decreases |stream|
  {
    if stream != [] {
      var init := stream[..|stream| - 1];
      KeysInOrderMembers(init);
      var prior := KeysInOrder(init);
      var k := KeyOf(stream[|stream| - 1]);
      if k !in prior {
        var r := prior + [k];
        forall i, j | 0 <= i < j < |r|
          ensures r[i] != r[j]
        {
          if j == |prior| {
            assert r[i] == prior[i];
          }
        }
      }
    }
  }

  /**
   * The bucketing loop of the import: each attribute record appends its
   * observation to the bucket of its (name, value), creating the bucket on
   * first sight.
   */
  method BucketObservations(stream: seq<ImportedAttribute>)
    returns (order: seq<AttributeKey>, buckets: map<AttributeKey, seq<Observation>>)
    ensures order == KeysInOrder(stream)
    ensures forall k :: k in buckets <==> k in order
    ensures forall k :: k in buckets ==> buckets[k] == Observed(stream, k)
  {
    order := [];
    buckets := map[];
    for i := 0 to |stream|
      invariant order == KeysInOrder(stream[..i])
      invariant forall k :: k in buckets <==> k in order
      invariant forall k :: k in buckets ==> buckets[k] == Observed(stream[..i], k)
    {
      KeysInOrderMembers(stream[..i]);
      var a := stream[i];
      var key := KeyOf(a);
      var prior := if key in buckets then buckets[key] else [];
      if key !in buckets {
        order := order + [key];
      }
      buckets := buckets[key := prior + [ObservationOf(a)]];
      assert stream[..i + 1][..i] == stream[..i];
    }
    assert stream[..|stream|] == stream;
  }

  // ---------------------------------------------------------------------------
  // Attributing each (name, value) group to its defining classes.

  /** Every observed class path is a known class. */
  predicate Known(lookup: map<string, KlassId>, obs: seq<Observation>)
  {
    forall o :: o in obs ==> o.klassPath in lookup
  }

  /** The class lookup only names stored classes. */
  ghost predicate Stored(s: Snapshot, lookup: map<string, KlassId>)
  {
    forall p :: p in lookup ==> lookup[p] in s.klasses
  }

  /** The first observed class path the lookup does not know, if any. */
  function FirstUnknown(lookup: map<string, KlassId>, obs: seq<Observation>): (r: Option<string>)
    ensures r.None? <==> Known(lookup, obs)
    ensures r.Some? ==> (r.value !in lookup &&
              exists i :: 0 <= i < |obs| && obs[i].klassPath == r.value && Known(lookup, obs[..i]))
  {
    if obs == [] then None
    else if obs[0].klassPath !in lookup then
      assert obs[..0] == [];
      Some(obs[0].klassPath)
    else
      assert obs == [obs[0]] + obs[1..];
      var r := FirstUnknown(lookup, obs[1..]);
      if r.Some? then
        var i :| 0 <= i < |obs[1..]| && obs[1..][i].klassPath == r.value && Known(lookup, obs[1..][..i]);
        assert obs[..i + 1] == [obs[0]] + obs[1..][..i];
        r
      else r
  }

  lemma {:induction false} FirstUnknownAt(lookup: map<string, KlassId>, obs: seq<Observation>, i: nat)
    requires i < |obs| && Known(lookup, obs[..i]) && obs[i].klassPath !in lookup
    ensures FirstUnknown(lookup, obs) == Some(obs[i].klassPath)
  {
    if i > 0 {
      assert obs[0] in obs[..i];
      assert obs[1..][..i - 1] == obs[1..i];
      forall o | o in obs[1..][..i - 1]
        ensures o.klassPath in lookup
      {
        assert o in obs[..i];
      }
      FirstUnknownAt(lookup, obs[1..], i - 1);
    }
  }

  /** The classes below some class observed in the group. */
  ghost function Below(s: Snapshot, lookup: map<string, KlassId>, obs: seq<Observation>): set<KlassId>
    requires Valid(s) && Known(lookup, obs)
  {
    if obs == [] then {}
    else
      assert forall o :: o in obs[..|obs| - 1] ==> o in obs;
      Below(s, lookup, obs[..|obs| - 1]) + Descendants(s, lookup[obs[|obs| - 1].klassPath])
  }

  lemma {:induction false} BelowMembers(s: Snapshot, lookup: map<string, KlassId>,
                                       obs: seq<Observation>, c: KlassId)
    requires Valid(s) && Known(lookup, obs)
    ensures c in Below(s, lookup, obs) <==>
              exists i :: 0 <= i < |obs| && c in Descendants(s, lookup[obs[i].klassPath])
    decreases |obs|
  {
    if obs != [] {
      var n := |obs| - 1;
      var init := obs[..n];
      assert forall o :: o in init ==> o in obs;
      BelowMembers(s, lookup, init, c);
      if c in Below(s, lookup, init) {
        var i :| 0 <= i < |init| && c in Descendants(s, lookup[init[i].klassPath]);
        assert obs[i] == init[i];
      }
      if i :| 0 <= i < |obs| && c in Descendants(s, lookup[obs[i].klassPath]) {
        if i < n {
          assert init[i] == obs[i];
        }
      }
    }
  }

  /** The stored attribute row for one observation. */
  function RowFor(lookup: map<string, KlassId>, key: AttributeKey, o: Observation): KlassAttribute
    requires o.klassPath in lookup
  {
    KlassAttribute(lookup[o.klassPath], key.name, key.value, o.lineNumber)
  }

  /** The rows of the observations whose class is not in `below`, in observation order. */
  function DefiningRows(lookup: map<string, KlassId>, key: AttributeKey, obs: seq<Observation>,
                        below: set<KlassId>): (r: seq<KlassAttribute>)
    requires Known(lookup, obs)
    ensures |r| <= |obs|
  {
    if obs == [] then []
    else
      var o := obs[|obs| - 1];
      assert forall x :: x in obs[..|obs| - 1] ==> x in obs;
      DefiningRows(lookup, key, obs[..|obs| - 1], below)
        + (if lookup[o.klassPath] in below then [] else [RowFor(lookup, key, o)])
  }

  /** The rows kept for one group: its observations on classes below no observed class. */
  ghost function ResolveGroup(s: Snapshot, lookup: map<string, KlassId>, key: AttributeKey,
                              obs: seq<Observation>): seq<KlassAttribute>
    requires Valid(s) && Known(lookup, obs)
  {
    DefiningRows(lookup, key, obs, Below(s, lookup, obs))
  }

  /** One group's outcome: a `KeyError` on the first unknown class path, else its kept rows. */
  ghost function GroupRows(s: Snapshot, lookup: map<string, KlassId>, key: AttributeKey,
                           obs: seq<Observation>): Result<seq<KlassAttribute>>
    requires Valid(s)
  {
    match FirstUnknown(lookup, obs)
    case Some(p) => Err(KeyError(p))
    case None => Ok(ResolveGroup(s, lookup, key, obs))
  }

  /** All groups in key order: the first failing group's error, else the rows of every group. */
  ghost function AttributeRows(s: Snapshot, lookup: map<string, KlassId>, keys: seq<AttributeKey>,
                               buckets: map<AttributeKey, seq<Observation>>): Result<seq<KlassAttribute>>
    requires Valid(s) && forall k :: k in keys ==> k in buckets
  {
    if keys == [] then Ok([])
    else
      var last := keys[|keys| - 1];
      match AttributeRows(s, lookup, keys[..|keys| - 1], buckets)
      case Err(e) => Err(e)
      case Ok(init) =>
        match GroupRows(s, lookup, last, buckets[last])
        case Err(e) => Err(e)
        case Ok(rows) => Ok(init + rows)
  }

  /**
   * The body of the group loop of `create_attributes`: collect the
   * descendants of every observed class, then keep the observations whose
   * class is not among them.
   */
  method DefiningAttributes(s: Snapshot, lookup: map<string, KlassId>, key: AttributeKey,
                            obs: seq<Observation>) returns (r: Result<seq<KlassAttribute>>)
    requires Valid(s) && Stored(s, lookup)
    ensures r == GroupRows(s, lookup, key, obs)
  {
    var below: set<KlassId> := {};
    for i := 0 to |obs|
      invariant Known(lookup, obs[..i])
      invariant below == Below(s, lookup, obs[..i])
    {
      var path := obs[i].klassPath;
      if path !in lookup {
        FirstUnknownAt(lookup, obs, i);
        return Err(KeyError(path));
      }
      var children := Models.GetAllChildren(s, lookup[path]);
      assert obs[..i + 1] == obs[..i] + [obs[i]];
      assert obs[..i + 1][..i] == obs[..i];
      below := below + children;
    }
    assert obs[..|obs|] == obs;
    var rows := [];
    for i := 0 to |obs|
      invariant rows == DefiningRows(lookup, key, obs[..i], below)
    {
      var o := obs[i];
      assert obs[..i + 1][..i] == obs[..i];
      if lookup[o.klassPath] !in below {
        rows := rows + [RowFor(lookup, key, o)];
      }
    }
    assert obs[..|obs|] == obs;
    r := Ok(rows);
  }

  lemma {:induction false} AttributeRowsErrPersists(s: Snapshot, lookup: map<string, KlassId>,
                                                   keys: seq<AttributeKey>,
                                                   buckets: map<AttributeKey, seq<Observation>>, m: nat)
    requires Valid(s) && forall k :: k in keys ==> k in buckets
    requires m <= |keys| && AttributeRows(s, lookup, keys[..m], buckets).Err?
    ensures AttributeRows(s, lookup, keys, buckets) == AttributeRows(s, lookup, keys[..m], buckets)
    decreases |keys| - m
  {
    if m < |keys| {
      var init := keys[..|keys| - 1];
      assert init[..m] == keys[..m];
      AttributeRowsErrPersists(s, lookup, init, buckets, m);
    } else {
      assert keys[..m] == keys;
    }
  }

  /**
   * `create_attributes`: resolve every group in key order; the first unknown
   * class path raises `KeyError` and nothing is stored.
   */
  method CreateAttributes(s: Snapshot, lookup: map<string, KlassId>, keys: seq<AttributeKey>,
                          buckets: map<AttributeKey, seq<Observation>>)
    returns (r: Result<seq<KlassAttribute>>)
    requires Valid(s) && Stored(s, lookup)
    requires forall k :: k in keys ==> k in buckets
    ensures r == AttributeRows(s, lookup, keys, buckets)
  {
    var rows := [];
    for i := 0 to |keys|
      invariant AttributeRows(s, lookup, keys[..i], buckets) == Ok(rows)
    {
      var key := keys[i];
      assert keys[..i + 1][..i] == keys[..i];
      var group := DefiningAttributes(s, lookup, key, buckets[key]);
      if group.Err? {
        AttributeRowsErrPersists(s, lookup, keys, buckets, i + 1);
        return Err(group.error);
      }
      rows := rows + group.value;
    }
    assert keys[..|keys|] == keys;
    r := Ok(rows);
  }

  // ---------------------------------------------------------------------------
  // What the attribution keeps.

  /** The kept rows are the rows of the observations whose class is outside `below`. */
  lemma {:induction false} DefiningRowsMembers(lookup: map<string, KlassId>, key: AttributeKey,
                                              obs: seq<Observation>, below: set<KlassId>,
                                              r: KlassAttribute)
    requires Known(lookup, obs)
    ensures r in DefiningRows(lookup, key, obs, below) <==>
              exists i :: 0 <= i < |obs| && lookup[obs[i].klassPath] !in below &&
                          r == RowFor(lookup, key, obs[i])
    decreases |obs|
  {
    if obs != [] {
      var n := |obs| - 1;
      var init := obs[..n];
      assert forall o :: o in init ==> o in obs;
      DefiningRowsMembers(lookup, key, init, below, r);
      if r in DefiningRows(lookup, key, init, below) {
        var i :| 0 <= i < |init| && lookup[init[i].klassPath] !in below &&
                 r == RowFor(lookup, key, init[i]);
        assert obs[i] == init[i];
      }
      if i :| 0 <= i < |obs| && lookup[obs[i].klassPath] !in below && r == RowFor(lookup, key, obs[i]) {
        if i < n {
          assert init[i] == obs[i];
        }
      }
    }
  }

  /** Filtering keeps the observation order: it distributes over concatenation. */
  lemma {:induction false} DefiningRowsConcat(lookup: map<string, KlassId>, key: AttributeKey,
                                             a: seq<Observation>, b: seq<Observation>,
                                             below: set<KlassId>)
    requires Known(lookup, a) && Known(lookup, b)
    ensures Known(lookup, a + b)
    ensures DefiningRows(lookup, key, a + b, below)
              == DefiningRows(lookup, key, a, below) + DefiningRows(lookup, key, b, below)
    decreases |b|
  {
    if b == [] {
      assert a + b == a;
    } else {
      var n := |b| - 1;
      assert forall o :: o in b[..n] ==> o in b;
      DefiningRowsConcat(lookup, key, a, b[..n], below);
      assert (a + b)[..|a + b| - 1] == a + b[..n];
    }
  }

  /**
   * An observation is kept exactly when its class is a descendant of no class
   * observed in the same group.
   */
  lemma KeptExactly(s: Snapshot, lookup: map<string, KlassId>, key: AttributeKey,
                    obs: seq<Observation>, i: nat)
    requires Valid(s) && Known(lookup, obs) && i < |obs|
    ensures RowFor(lookup, key, obs[i]) in ResolveGroup(s, lookup, key, obs) <==>
              forall j :: 0 <= j < |obs| ==>
                lookup[obs[i].klassPath] !in Descendants(s, lookup[obs[j].klassPath])
  {
    var below := Below(s, lookup, obs);
    var c := lookup[obs[i].klassPath];
    BelowMembers(s, lookup, obs, c);
    DefiningRowsMembers(lookup, key, obs, below, RowFor(lookup, key, obs[i]));
  }

  /**
   * Every kept row is an observation of the group, and its class is a
   * descendant of no class observed in the group.
   */
  lemma KeptRowsAreDefining(s: Snapshot, lookup: map<string, KlassId>, key: AttributeKey,
                            obs: seq<Observation>, r: KlassAttribute)
    requires Valid(s) && Known(lookup, obs) && r in ResolveGroup(s, lookup, key, obs)
    ensures r.name == key.name && r.value == key.value
    ensures exists i :: 0 <= i < |obs| && r == RowFor(lookup, key, obs[i])
    ensures forall j :: 0 <= j < |obs| ==> r.klass !in Descendants(s, lookup[obs[j].klassPath])
  {
    var below := Below(s, lookup, obs);
    DefiningRowsMembers(lookup, key, obs, below, r);
    BelowMembers(s, lookup, obs, r.klass);
  }

  /** No kept class inherits from another kept class of the same group. */
  lemma KeptClassesUnrelated(s: Snapshot, lookup: map<string, KlassId>, key: AttributeKey,
                             obs: seq<Observation>, r1: KlassAttribute, r2: KlassAttribute)
    requires Valid(s) && Known(lookup, obs)
    requires r1 in ResolveGroup(s, lookup, key, obs) && r2 in ResolveGroup(s, lookup, key, obs)
    ensures r1.klass !in Descendants(s, r2.klass)
  {
    KeptRowsAreDefining(s, lookup, key, obs, r1);
    KeptRowsAreDefining(s, lookup, key, obs, r2);
  }

  /** A group fails exactly when one of its class paths is unknown. */
  lemma {:induction false} AttributeRowsOutcome(s: Snapshot, lookup: map<string, KlassId>,
                                               keys: seq<AttributeKey>,
                                               buckets: map<AttributeKey, seq<Observation>>)
    requires Valid(s) && forall k :: k in keys ==> k in buckets
    ensures AttributeRows(s, lookup, keys, buckets).Ok? <==>
              forall k :: k in keys ==> Known(lookup, buckets[k])
    decreases |keys|
  {
    if keys != [] {
      var init := keys[..|keys| - 1];
      AttributeRowsOutcome(s, lookup, init, buckets);
      assert forall k :: k in keys <==> k in init || k == keys[|keys| - 1];
    }
  }

  /** One step of `AttributeRows`: the rows of all keys are the rows before the last plus its group's. */
  lemma AttributeRowsLast(s: Snapshot, lookup: map<string, KlassId>, keys: seq<AttributeKey>,
                          buckets: map<AttributeKey, seq<Observation>>)
    requires Valid(s) && keys != [] && forall k :: k in keys ==> k in buckets
    ensures var init := keys[..|keys| - 1];
            var last := keys[|keys| - 1];
            AttributeRows(s, lookup, keys, buckets).Ok? <==>
              AttributeRows(s, lookup, init, buckets).Ok? && GroupRows(s, lookup, last, buckets[last]).Ok?
    ensures var init := keys[..|keys| - 1];
            var last := keys[|keys| - 1];
            AttributeRows(s, lookup, keys, buckets).Ok? ==>
              AttributeRows(s, lookup, keys, buckets).value ==
                AttributeRows(s, lookup, init, buckets).value + GroupRows(s, lookup, last, buckets[last]).value
  {
  }

  /** Groups are resolved independently: the rows of two key lists are the rows of each. */
  lemma {:induction false} AttributeRowsConcat(s: Snapshot, lookup: map<string, KlassId>,
                                              k1: seq<AttributeKey>, k2: seq<AttributeKey>,
                                              buckets: map<AttributeKey, seq<Observation>>,
                                              rows1: seq<KlassAttribute>, rows2: seq<KlassAttribute>)
    requires Valid(s) && forall k :: k in k1 + k2 ==> k in buckets
    requires AttributeRows(s, lookup, k1, buckets) == Ok(rows1)
    requires AttributeRows(s, lookup, k2, buckets) == Ok(rows2)
    ensures AttributeRows(s, lookup, k1 + k2, buckets) == Ok(rows1 + rows2)
    decreases |k2|
  {
    if k2 == [] {
      assert k1 + k2 == k1;
      assert rows1 + rows2 == rows1;
    } else {
      var init := k2[..|k2| - 1];
      assert forall k :: k in k1 + init ==> k in k1 + k2;
      AttributeRowsLast(s, lookup, k2, buckets);
      var rowsInit := AttributeRows(s, lookup, init, buckets).value;
      AttributeRowsConcat(s, lookup, k1, init, buckets, rows1, rowsInit);
      AttributeRowsConcatStep(s, lookup, k1, k2, buckets, rows1, rows2);
    }
  }

  /** The step of `AttributeRowsConcat`, given the claim for all but the last key of `k2`. */
  lemma AttributeRowsConcatStep(s: Snapshot, lookup: map<string, KlassId>,
                                k1: seq<AttributeKey>, k2: seq<AttributeKey>,
                                buckets: map<AttributeKey, seq<Observation>>,
                                rows1: seq<KlassAttribute>, rows2: seq<KlassAttribute>)
    requires Valid(s) && k2 != [] && forall k :: k in k1 + k2 ==> k in buckets
    requires AttributeRows(s, lookup, k2, buckets) == Ok(rows2)
    requires AttributeRows(s, lookup, k2[..|k2| - 1], buckets).Ok?
    requires forall k :: k in k1 + k2[..|k2| - 1] ==> k in buckets
    requires AttributeRows(s, lookup, k1 + k2[..|k2| - 1], buckets)
               == Ok(rows1 + AttributeRows(s, lookup, k2[..|k2| - 1], buckets).value)
    ensures AttributeRows(s, lookup, k1 + k2, buckets) == Ok(rows1 + rows2)
  {
    var init := k2[..|k2| - 1];
    var last := k2[|k2| - 1];
    var whole := k1 + k2;
    assert whole[..|whole| - 1] == k1 + init;
    assert whole[|whole| - 1] == last;
    AttributeRowsLast(s, lookup, k2, buckets);
    AttributeRowsLast(s, lookup, whole, buckets);
    var rowsInit := AttributeRows(s, lookup, init, buckets).value;
    var g := GroupRows(s, lookup, last, buckets[last]).value;
    assert rows1 + rows2 == (rows1 + rowsInit) + g;
  }

  // ---------------------------------------------------------------------------
  // The reflection over-reporting case: an inherited value is kept once.

  function ChainLookup(): map<string, KlassId>
  {
    map["a" := 1, "b" := 2, "c" := 3]
  }

  function ChainObservations(): seq<Observation>
  {
    [Observation("a", 10), Observation("b", 20), Observation("c", 30)]
  }

  /** In the chain, B and C are below an observed class and A is below none. */
  lemma ChainBelow()
    ensures Valid(LinearSnapshot()) && Known(ChainLookup(), ChainObservations())
    ensures var below := Below(LinearSnapshot(), ChainLookup(), ChainObservations());
            1 !in below && 2 in below && 3 in below
  {
    var s := LinearSnapshot();
    var lookup := ChainLookup();
    var obs := ChainObservations();
    LinearChain();
    assert Parents(s, 2) == [1] && Parents(s, 3) == [2];
    assert 1 in Parents(s, 2) && 2 in Parents(s, 3);
    assert IsAncestor(s, 1, 2);
    assert IsAncestor(s, 2, 3);
    assert lookup[obs[0].klassPath] == 1 && lookup[obs[1].klassPath] == 2;
    assert 2 in Descendants(s, lookup[obs[0].klassPath]);
    assert 3 in Descendants(s, lookup[obs[1].klassPath]);
    BelowMembers(s, lookup, obs, 1);
    BelowMembers(s, lookup, obs, 2);
    BelowMembers(s, lookup, obs, 3);
    forall j | 0 <= j < |obs|
      ensures 1 !in Descendants(s, lookup[obs[j].klassPath])
    {
      assert Parents(s, 1) == [];
    }
  }

  /** Filtering the chain's observations with B and C excluded keeps only A's row. */
  lemma ChainDefiningRows(below: set<KlassId>)
    requires 1 !in below && 2 in below && 3 in below
    ensures DefiningRows(ChainLookup(), AttributeKey("x", "1"), ChainObservations(), below)
              == [KlassAttribute(1, "x", "1", 10)]
  {
    var lookup := ChainLookup();
    var key := AttributeKey("x", "1");
    var obs := ChainObservations();
    assert obs[..2] == [Observation("a", 10), Observation("b", 20)];
    assert obs[..2][..1] == [Observation("a", 10)];
    assert obs[..2][..1][..0] == [];
    assert DefiningRows(lookup, key, obs[..2][..1], below) == [KlassAttribute(1, "x", "1", 10)];
    assert DefiningRows(lookup, key, obs[..2], below) == [KlassAttribute(1, "x", "1", 10)];
  }

  /**
   * In the chain `C(B(A))` a value observed on A, B and C is stored only on A,
   * the class that defines it.
   */
  lemma InheritedValueKeptOnce()
    ensures Valid(LinearSnapshot()) && Known(ChainLookup(), ChainObservations())
    ensures ResolveGroup(LinearSnapshot(), ChainLookup(), AttributeKey("x", "1"), ChainObservations())
            == [KlassAttribute(1, "x", "1", 10)]
  {
    ChainBelow();
    ChainDefiningRows(Below(LinearSnapshot(), ChainLookup(), ChainObservations()));
  }

  // ---------------------------------------------------------------------------
  // Inheritance rows from declared base lists.

  /** The edges of one class: one per known base, numbered by its declared position. */
  function KnownBaseEdges(lookup: map<string, KlassId>, bases: seq<string>, child: KlassId)
    : (r: seq<InheritanceRow>)
    ensures |r| <= |bases|
  {
    if bases == [] then []
    else
      var i := |bases| - 1;
      KnownBaseEdges(lookup, bases[..i], child)
        + (if bases[i] in lookup then [InheritanceRow(lookup[bases[i]], child, i)] else [])
  }

  predicate HasKnownBase(lookup: map<string, KlassId>, bases: seq<string>)
  {
    exists b :: b in bases && b in lookup
  }

  /**
   * The rows of all classes in order, or the `KeyError` of the first class
   * that has a known base but whose own path is not a known class.
   */
  function InheritanceRows(klasses: seq<ImportedKlass>, lookup: map<string, KlassId>)
    : Result<seq<InheritanceRow>>
  {
    if klasses == [] then Ok([])
    else
      var kl := klasses[|klasses| - 1];
      match InheritanceRows(klasses[..|klasses| - 1], lookup)
      case Err(e) => Err(e)
      case Ok(rows) =>
        if kl.path in lookup then Ok(rows + KnownBaseEdges(lookup, kl.bases, lookup[kl.path]))
        else if HasKnownBase(lookup, kl.bases) then Err(KeyError(kl.path))
        else Ok(rows)
  }

  lemma {:induction false} InheritanceRowsErrPersists(klasses: seq<ImportedKlass>,
                                                     lookup: map<string, KlassId>, m: nat)
    requires m <= |klasses| && InheritanceRows(klasses[..m], lookup).Err?
    ensures InheritanceRows(klasses, lookup) == InheritanceRows(klasses[..m], lookup)
    decreases |klasses| - m
  {
    if m < |klasses| {
      var init := klasses[..|klasses| - 1];
      assert init[..m] == klasses[..m];
      InheritanceRowsErrPersists(init, lookup, m);
    } else {
      assert klasses[..m] == klasses;
    }
  }

  /** `create_inheritance`: one row per known declared base, skipping unknown ones. */
  method CreateInheritance(klasses: seq<ImportedKlass>, lookup: map<string, KlassId>)
    returns (r: Result<seq<InheritanceRow>>)
    ensures r == InheritanceRows(klasses, lookup)
  {
    var rows := [];
    for n := 0 to |klasses|
      invariant InheritanceRows(klasses[..n], lookup) == Ok(rows)
    {
      var kl := klasses[n];
      assert klasses[..n + 1][..n] == klasses[..n];
      var edges := [];
      for i := 0 to |kl.bases|
        invariant kl.path in lookup ==> edges == KnownBaseEdges(lookup, kl.bases[..i], lookup[kl.path])
        invariant kl.path !in lookup ==> edges == [] && !HasKnownBase(lookup, kl.bases[..i])
      {
        var ancestor := kl.bases[i];
        assert kl.bases[..i + 1][..i] == kl.bases[..i];
        assert kl.bases[..i + 1] == kl.bases[..i] + [ancestor];
        if ancestor in lookup {
          if kl.path !in lookup {
            assert HasKnownBase(lookup, kl.bases);
            InheritanceRowsErrPersists(klasses, lookup, n + 1);
            return Err(KeyError(kl.path));
          }
          edges := edges + [InheritanceRow(lookup[ancestor], lookup[kl.path], i)];
        }
      }
      assert kl.bases[..|kl.bases|] == kl.bases;
      assert klasses[..n + 1][n] == kl;
      assert kl.path !in lookup ==> !HasKnownBase(lookup, kl.bases);
      assert kl.path in lookup ==> edges == KnownBaseEdges(lookup, kl.bases, lookup[kl.path]);
      var prefix := klasses[..n + 1];
      assert prefix != [] && prefix[..|prefix| - 1] == klasses[..n] && prefix[|prefix| - 1] == kl;
      if kl.path in lookup {
        assert InheritanceRows(prefix, lookup) == Ok(rows + edges);
      } else {
        assert InheritanceRows(prefix, lookup) == Ok(rows);
        assert rows + edges == rows;
      }
      rows := rows + edges;
    }
    assert klasses[..|klasses|] == klasses;
    r := Ok(rows);
  }

  /**
   * The edges of one class are exactly its known bases, each with the class
   * as child and its declared index as order.
   */
  lemma {:induction false} KnownBaseEdgesMembers(lookup: map<string, KlassId>, bases: seq<string>,
                                                child: KlassId, e: InheritanceRow)
    ensures e in KnownBaseEdges(lookup, bases, child) <==>
              exists i :: 0 <= i < |bases| && bases[i] in lookup &&
                          e == InheritanceRow(lookup[bases[i]], child, i)
    decreases |bases|
  {
    if bases != [] {
      var n := |bases| - 1;
      var init := bases[..n];
      KnownBaseEdgesMembers(lookup, init, child, e);
      if e in KnownBaseEdges(lookup, init, child) {
        var i :| 0 <= i < |init| && init[i] in lookup && e == InheritanceRow(lookup[init[i]], child, i);
        assert bases[i] == init[i];
      }
      if i :| 0 <= i < |bases| && bases[i] in lookup && e == InheritanceRow(lookup[bases[i]], child, i) {
        if i < n {
          assert init[i] == bases[i];
        }
      }
    }
  }

  /**
   * The orders of one class's edges strictly increase and stay below the
   * number of declared bases, so sorting by order gives the declared order.
   */
  lemma {:induction false} KnownBaseEdgesOrdered(lookup: map<string, KlassId>, bases: seq<string>,
                                                child: KlassId)
    ensures forall a, b :: 0 <= a < b < |KnownBaseEdges(lookup, bases, child)| ==>
              KnownBaseEdges(lookup, bases, child)[a].order < KnownBaseEdges(lookup, bases, child)[b].order
    ensures forall e :: e in KnownBaseEdges(lookup, bases, child) ==> e.order < |bases|
    decreases |bases|
  {
    if bases != [] {
      KnownBaseEdgesOrdered(lookup, bases[..|bases| - 1], child);
    }
  }

  /** An unknown base in the middle leaves a gap: the orders are not renumbered. */
  lemma UnknownBaseLeavesGap()
    ensures KnownBaseEdges(map["a" := 1, "b" := 2], ["a", "x", "b"], 4)
              == [InheritanceRow(1, 4, 0), InheritanceRow(2, 4, 2)]
  {
    var lookup := map["a" := 1, "b" := 2];
    var bases := ["a", "x", "b"];
    assert bases[..2] == ["a", "x"] && bases[..2][..1] == ["a"] && bases[..1][..0] == [];
    assert "x" !in lookup;
  }

  /** Storing fails exactly when a class with a known base is itself unknown. */
  lemma {:induction false} InheritanceRowsOutcome(klasses: seq<ImportedKlass>, lookup: map<string, KlassId>)
    ensures InheritanceRows(klasses, lookup).Ok? <==>
              forall kl :: kl in klasses && HasKnownBase(lookup, kl.bases) ==> kl.path in lookup
    decreases |klasses|
  {
    if klasses != [] {
      var init := klasses[..|klasses| - 1];
      InheritanceRowsOutcome(init, lookup);
      assert forall kl :: kl in klasses <==> kl in init || kl == klasses[|klasses| - 1];
    }
  }

  /** Every stored edge is an edge of some known class's own base list, and conversely. */
  lemma {:induction false} InheritanceRowsMembers(klasses: seq<ImportedKlass>,
                                                 lookup: map<string, KlassId>,
                                                 rows: seq<InheritanceRow>, e: InheritanceRow)
    requires InheritanceRows(klasses, lookup) == Ok(rows)
    ensures e in rows <==>
              exists kl :: kl in klasses && kl.path in lookup &&
                           e in KnownBaseEdges(lookup, kl.bases, lookup[kl.path])
    decreases |klasses|
  {
    if klasses != [] {
      var init := klasses[..|klasses| - 1];
      var kl := klasses[|klasses| - 1];
      assert forall x :: x in klasses <==> x in init || x == kl;
      match InheritanceRows(init, lookup)
      case Ok(prior) =>
        InheritanceRowsMembers(init, lookup, prior, e);
    }
  }
}
