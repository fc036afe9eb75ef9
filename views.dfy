/**
 * The class detail view's override ordering: same-named methods listed in
 * inheritance order, and attributes flagged when an earlier class in the
 * linearisation defines the same name.
 */
module Views {
  import opened Wrappers
  import opened Hierarchy
  import opened Models

  // ---------------------------------------------------------------------------
  // Positions in a class order.

  /** `order.index(c)`: the first position of `c`. */
  function Position(order: seq<KlassId>, c: KlassId): (i: nat)
    requires c in order
    ensures i < |order| && order[i] == c && c !in order[..i]
  {
    if order[0] == c then 0
    else
      var i := Position(order[1..], c) + 1;
      assert order[..i] == [order[0]] + order[1..][..i - 1];
      i
  }

  /** Every entry's class is in `order`, and the classes appear in strictly increasing position. */
  ghost predicate InOrder(order: seq<KlassId>, ms: seq<Method>)
  {
    (forall i :: 0 <= i < |ms| ==> ms[i].klass in order) &&
    forall i, j :: 0 <= i < j < |ms| ==> Position(order, ms[i].klass) < Position(order, ms[j].klass)
  }

  /** Entries of an ordered list whose class is first in the order come first. */
  lemma OwnMethodFirst(order: seq<KlassId>, ms: seq<Method>, j: nat)
    requires |order| > 0 && InOrder(order, ms) && j < |ms| && ms[j].klass == order[0]
    ensures j == 0
  {
    var first := Position(order, ms[0].klass);
    assert Position(order, ms[j].klass) == 0;
  }

  // ---------------------------------------------------------------------------
  // The namesake ordering, as a function.

  /** The number of entries of class `c`. */
  function ClassCount(ms: seq<Method>, c: KlassId): (n: nat)
    ensures n == 0 <==> forall j :: 0 <= j < |ms| ==> ms[j].klass != c
    ensures n <= |ms|
  {
    if ms == [] then 0 else (if ms[0].klass == c then 1 else 0) + ClassCount(ms[1..], c)
  }

  lemma {:induction false} ClassCountConcat(a: seq<Method>, b: seq<Method>, c: KlassId)
    ensures ClassCount(a + b, c) == ClassCount(a, c) + ClassCount(b, c)
  {
    if a != [] {
      assert (a + b)[0] == a[0] && (a + b)[1..] == a[1..] + b;
      ClassCountConcat(a[1..], b, c);
    } else {
      assert a + b == b;
    }
  }

  /** `ms` without its entry at position `i`, as `list.pop(i)` leaves it. */
  function RemoveAt(ms: seq<Method>, i: nat): (r: seq<Method>)
    requires i < |ms|
    ensures |r| == |ms| - 1
    ensures multiset(r) + multiset{ms[i]} == multiset(ms)
  {
    assert ms == ms[..i] + [ms[i]] + ms[i + 1..];
    ms[..i] + ms[i + 1..]
  }

  lemma ClassCountRemoveAt(ms: seq<Method>, i: nat, c: KlassId)
    requires i < |ms|
    ensures ClassCount(RemoveAt(ms, i), c) == ClassCount(ms, c) - (if ms[i].klass == c then 1 else 0)
  {
    assert ms == ms[..i] + ([ms[i]] + ms[i + 1..]);
    ClassCountConcat(ms[..i], [ms[i]] + ms[i + 1..], c);
    ClassCountConcat([ms[i]], ms[i + 1..], c);
    ClassCountConcat(ms[..i], ms[i + 1..], c);
  }

  /** The position of the first entry of class `c`, as `next(m for m in ms if m.klass == c)` finds it. */
  function FirstOfClass(ms: seq<Method>, c: KlassId): (r: Option<nat>)
    ensures r.Some? ==> r.value < |ms| && ms[r.value].klass == c &&
                        forall j :: 0 <= j < r.value ==> ms[j].klass != c
    ensures r.None? <==> ClassCount(ms, c) == 0
  {
    if ms == [] then None
    else if ms[0].klass == c then Some(0)
    else match FirstOfClass(ms[1..], c)
      case None => None
      case Some(i) => Some(i + 1)
  }

  /** The entries moved to the result, and those left behind. */
  datatype Arrangement = Arrangement(picked: seq<Method>, left: seq<Method>)

  /** For each class of `order` in turn, move its first remaining entry from `ms` to the result. */
  function Arrange(order: seq<KlassId>, ms: seq<Method>): Arrangement
    decreases |order|
  {
    if order == [] then Arrangement([], ms)
    else match FirstOfClass(ms, order[0])
      case None => Arrange(order[1..], ms)
      case Some(i) =>
        var rest := Arrange(order[1..], RemoveAt(ms, i));
        Arrangement([ms[i]] + rest.picked, rest.left)
  }

  /** Nothing is lost: the picked and the left-over entries together are the input. */
  lemma {:induction false} ArrangeKeepsEntries(order: seq<KlassId>, ms: seq<Method>)
    ensures multiset(Arrange(order, ms).picked) + multiset(Arrange(order, ms).left) == multiset(ms)
    decreases |order|
  {
    if order != [] {
      match FirstOfClass(ms, order[0])
      case None =>
        ArrangeKeepsEntries(order[1..], ms);
      case Some(i) =>
        ArrangeKeepsEntries(order[1..], RemoveAt(ms, i));
    }
  }

  lemma PositionInTail(order: seq<KlassId>, c: KlassId)
    requires NoDuplicates(order) && |order| > 0 && c in order[1..]
    ensures NoDuplicates(order[1..]) && Position(order, c) == Position(order[1..], c) + 1
  {
    var j := Position(order[1..], c);
    assert order[0] != order[j + 1];
  }

  /** Entries ordered by the tail of the order are ordered by the whole order, after its first class. */
  lemma InOrderTail(order: seq<KlassId>, p: seq<Method>)
    requires NoDuplicates(order) && |order| > 0 && InOrder(order[1..], p)
    ensures InOrder(order, p)
    ensures forall j :: 0 <= j < |p| ==> Position(order, p[j].klass) > 0
  {
    forall j | 0 <= j < |p|
      ensures p[j].klass in order && Position(order, p[j].klass) == Position(order[1..], p[j].klass) + 1
    {
      PositionInTail(order, p[j].klass);
    }
  }

  /** An entry of the first class put before entries of later classes keeps the order. */
  lemma InOrderCons(order: seq<KlassId>, m: Method, p: seq<Method>)
    requires |order| > 0 && m.klass == order[0] && InOrder(order, p)
    requires forall j :: 0 <= j < |p| ==> Position(order, p[j].klass) > 0
    ensures InOrder(order, [m] + p)
  {
    assert forall j :: 0 < j <= |p| ==> ([m] + p)[j] == p[j - 1];
  }

  /** The picked entries follow the class order. */
  lemma {:induction false} ArrangeIsOrdered(order: seq<KlassId>, ms: seq<Method>)
    requires NoDuplicates(order)
    ensures InOrder(order, Arrange(order, ms).picked)
    decreases |order|
  {
    if order != [] {
      var tail := order[1..];
      assert NoDuplicates(tail);
      match FirstOfClass(ms, order[0])
      case None =>
        ArrangeIsOrdered(tail, ms);
        InOrderTail(order, Arrange(tail, ms).picked);
      case Some(i) =>
        var rest := RemoveAt(ms, i);
        ArrangeIsOrdered(tail, rest);
        InOrderTail(order, Arrange(tail, rest).picked);
        InOrderCons(order, ms[i], Arrange(tail, rest).picked);
    }
  }

  /**
   * The arrangement can succeed: a class of `order` has at most one entry,
   * and a class outside `order` has none.
   */
  ghost predicate Placeable(order: seq<KlassId>, ms: seq<Method>)
  {
    forall c :: ClassCount(ms, c) <= (if c in order then 1 else 0)
  }

  /** Nothing is left over exactly when the entries are placeable. */
  lemma {:induction false} ArrangeLeavesNothing(order: seq<KlassId>, ms: seq<Method>)
    requires NoDuplicates(order)
    ensures Arrange(order, ms).left == [] <==> Placeable(order, ms)
    decreases |order|
  {
    if order == [] {
      if ms != [] {
        assert ClassCount(ms, ms[0].klass) > 0;
      }
    } else {
      var c := order[0];
      var tail := order[1..];
      assert NoDuplicates(tail);
      assert c !in tail by {
        forall j | 0 <= j < |tail| ensures tail[j] != c
        {
          assert order[0] != order[j + 1];
        }
      }
      match FirstOfClass(ms, c)
      case None =>
        ArrangeLeavesNothing(tail, ms);
        assert Placeable(order, ms) <==> Placeable(tail, ms) by {
          forall c' ensures (if c' in order then 1 else 0) == (if c' in tail then 1 else 0) || ClassCount(ms, c') == 0
          {
          }
        }
      case Some(i) =>
        var rest := RemoveAt(ms, i);
        ArrangeLeavesNothing(tail, rest);
        forall c' ensures ClassCount(rest, c') == ClassCount(ms, c') - (if c' == c then 1 else 0)
        {
          ClassCountRemoveAt(ms, i, c');
        }
        if Placeable(order, ms) {
          forall c' ensures ClassCount(rest, c') <= (if c' in tail then 1 else 0)
          {
            assert ClassCount(ms, c') <= (if c' in order then 1 else 0);
          }
        }
        if Placeable(tail, rest) {
          forall c' ensures ClassCount(ms, c') <= (if c' in order then 1 else 0)
          {
            assert ClassCount(rest, c') <= (if c' in tail then 1 else 0);
          }
        }
    }
  }

  // ---------------------------------------------------------------------------
  // The namesake loop.

  /** The search and `pop` of one step: the position of the first entry of class `c`. */
  method FindFirstOfClass(ms: seq<Method>, c: KlassId) returns (r: Option<nat>)
    ensures r == FirstOfClass(ms, c)
  {
    var j := 0;
    while j < |ms|
      invariant 0 <= j <= |ms|
      invariant forall j' :: 0 <= j' < j ==> ms[j'].klass != c
    {
      if ms[j].klass == c {
        assert ClassCount(ms, c) != 0;
        return Some(j);
      }
      j := j + 1;
    }
    r := None;
  }

  /** One step of `Arrange` from position `i` of the order. */
  lemma ArrangeStep(order: seq<KlassId>, i: nat, ms: seq<Method>)
    requires i < |order|
    ensures FirstOfClass(ms, order[i]).None? ==> Arrange(order[i..], ms) == Arrange(order[i + 1..], ms)
    ensures FirstOfClass(ms, order[i]).Some? ==>
              var j := FirstOfClass(ms, order[i]).value;
              var rest := Arrange(order[i + 1..], RemoveAt(ms, j));
              Arrange(order[i..], ms) == Arrangement([ms[j]] + rest.picked, rest.left)
  {
    assert order[i..][0] == order[i] && order[i..][1..] == order[i + 1..];
  }

  /** The loop of `OrderNamesakes` keeps the whole arrangement split between what it has done and what is left. */
  lemma OrderStep(order: seq<KlassId>, i: nat, rest: seq<Method>, result: seq<Method>, whole: Arrangement)
    requires i < |order|
    requires whole.picked == result + Arrange(order[i..], rest).picked
    requires whole.left == Arrange(order[i..], rest).left
    ensures FirstOfClass(rest, order[i]).None? ==>
              whole.picked == result + Arrange(order[i + 1..], rest).picked &&
              whole.left == Arrange(order[i + 1..], rest).left
    ensures FirstOfClass(rest, order[i]).Some? ==>
              var j := FirstOfClass(rest, order[i]).value;
              var next := Arrange(order[i + 1..], RemoveAt(rest, j));
              whole.picked == (result + [rest[j]]) + next.picked && whole.left == next.left
  {
    ArrangeStep(order, i, rest);
    if FirstOfClass(rest, order[i]).Some? {
      var j := FirstOfClass(rest, order[i]).value;
      var next := Arrange(order[i + 1..], RemoveAt(rest, j));
      assert result + ([rest[j]] + next.picked) == (result + [rest[j]]) + next.picked;
    }
  }

  /** What the arrangement of the whole order promises. */
  lemma ArrangeOutcome(order: seq<KlassId>, ms: seq<Method>)
    requires NoDuplicates(order)
    ensures var a := Arrange(order, ms);
            (a.left == [] <==> Placeable(order, ms)) &&
            (a.left == [] ==> multiset(a.picked) == multiset(ms)) &&
            InOrder(order, a.picked)
  {
    ArrangeKeepsEntries(order, ms);
    ArrangeIsOrdered(order, ms);
    ArrangeLeavesNothing(order, ms);
  }

  /**
   * The shared body of the three `namesake_methods` routines: with `order`
   * the class followed by its linearised ancestors, move each class's first
   * namesake to the result; fail when there is no namesake or some are left.
   */
  method OrderNamesakes(order: seq<KlassId>, namesakes: seq<Method>) returns (r: Result<seq<Method>>)
    requires NoDuplicates(order)
    ensures r.Ok? <==> namesakes != [] && Placeable(order, namesakes)
    ensures r.Err? ==> r.error == AssertionError
    ensures r.Ok? ==> multiset(r.value) == multiset(namesakes) && InOrder(order, r.value)
  {
    if namesakes == [] {
      return Err(AssertionError);
    }
    var rest := namesakes;
    var result := [];
    ghost var whole := Arrange(order, namesakes);
    for i := 0 to |order|
      invariant whole.picked == result + Arrange(order[i..], rest).picked
      invariant whole.left == Arrange(order[i..], rest).left
    {
      OrderStep(order, i, rest, result, whole);
      var found := FindFirstOfClass(rest, order[i]);
      if found.Some? {
        result := result + [rest[found.value]];
        rest := RemoveAt(rest, found.value);
      }
    }
    assert order[|order|..] == [];
    assert Arrange(order[|order|..], rest) == Arrangement([], rest);
    assert result == whole.picked && rest == whole.left;
    ArrangeOutcome(order, namesakes);
    if rest != [] {
      return Err(AssertionError);
    }
    r := Ok(result);
  }

  // ---------------------------------------------------------------------------
  // `KlassDetailView._namesake_methods`.

  /** The visible methods called `name`: those of the class and of its ancestors. */
  ghost function Namesakes(s: Snapshot, k: KlassId, name: string): set<Method>
    requires Valid(s) && k in s.klasses
  {
    set m | m in s.methods && m.name == name && Sees(s, k, m.klass)
  }

  /** No class holds two entries. */
  ghost predicate OnePerClass(ms: seq<Method>)
  {
    forall i, j :: 0 <= i < j < |ms| ==> ms[i].klass != ms[j].klass
  }

  /** Every class has at most one entry. */
  ghost predicate AtMostOneEach(ms: seq<Method>)
  {
    forall c :: ClassCount(ms, c) <= 1
  }

  lemma {:induction false} OnePerClassBoundsCounts(ms: seq<Method>, c: KlassId)
    requires OnePerClass(ms)
    ensures ClassCount(ms, c) <= 1
  {
    if ms != [] {
      var tail := ms[1..];
      assert OnePerClass(tail) by {
        forall i, j | 0 <= i < j < |tail| ensures tail[i].klass != tail[j].klass
        {
          assert ms[i + 1].klass != ms[j + 1].klass;
        }
      }
      OnePerClassBoundsCounts(tail, c);
      if ms[0].klass == c {
        forall j | 0 <= j < |tail| ensures tail[j].klass != c
        {
          assert ms[0].klass != ms[j + 1].klass;
        }
      }
    }
  }

  lemma {:induction false} CountsBoundOnePerClass(ms: seq<Method>)
    requires AtMostOneEach(ms)
    ensures OnePerClass(ms)
  {
    if ms != [] {
      var tail := ms[1..];
      assert AtMostOneEach(tail) by {
        forall c ensures ClassCount(tail, c) <= 1
        {
          assert ClassCount(ms, c) <= 1;
        }
      }
      CountsBoundOnePerClass(tail);
      assert ClassCount(tail, ms[0].klass) == 0 by {
        assert ClassCount(ms, ms[0].klass) <= 1;
      }
      forall i, j | 0 <= i < j < |ms| ensures ms[i].klass != ms[j].klass
      {
        if i == 0 {
          assert tail[j - 1] == ms[j];
        } else {
          assert tail[i - 1] == ms[i] && tail[j - 1] == ms[j];
        }
      }
    }
  }

  /** No class holds two entries exactly when every class count is at most one. */
  lemma {:induction false} OnePerClassCounts(ms: seq<Method>)
    ensures OnePerClass(ms) <==> AtMostOneEach(ms)
  {
    if OnePerClass(ms) {
      forall c ensures ClassCount(ms, c) <= 1
      {
        OnePerClassBoundsCounts(ms, c);
      }
    }
    if AtMostOneEach(ms) {
      CountsBoundOnePerClass(ms);
    }
  }

  /** The classes seen by `k`, in linearised order. */
  lemma LinearisedOrder(s: Snapshot, k: KlassId)
    requires Valid(s) && k in s.klasses
    ensures NoDuplicates([k] + AllAncestors(s, k))
    ensures forall c :: Sees(s, k, c) <==> c in [k] + AllAncestors(s, k)
  {
    var order := [k] + AllAncestors(s, k);
    forall c ensures Sees(s, k, c) <==> c in order
    {
      AncestorsAreClosure(s, k, c);
    }
    forall i, j | 0 <= i < j < |order| ensures order[i] != order[j]
    {
      if i == 0 {
        assert order[j] in AllAncestors(s, k);
      } else {
        assert order[i] == AllAncestors(s, k)[i - 1] && order[j] == AllAncestors(s, k)[j - 1];
      }
    }
  }

  /** The `namesakes` list: the visible methods called `name`. */
  method CollectNamesakes(s: Snapshot, k: KlassId, name: string) returns (namesakes: seq<Method>)
    requires Valid(s) && k in s.klasses
    ensures forall m :: m in namesakes <==> m in Namesakes(s, k, name)
    ensures NoDuplicates(namesakes)
  {
    var methods := GetMethods(s, k);
    var named := set m | m in methods && m.name == name;
    namesakes := SetToSeq(named);
  }

  /**
   * `KlassDetailView._namesake_methods`: the visible methods called `name`,
   * the class's own first and then by ancestor; an `AssertionError` when
   * there is none, or when one class holds two of them.
   */
  method NamesakeMethods(s: Snapshot, k: KlassId, name: string) returns (r: Result<seq<Method>>)
    requires Valid(s) && k in s.klasses
    ensures r.Ok? <==>
              Namesakes(s, k, name) != {} &&
              forall m1, m2 :: m1 in Namesakes(s, k, name) && m2 in Namesakes(s, k, name) && m1.klass == m2.klass ==> m1 == m2
    ensures r.Err? ==> r.error == AssertionError
    ensures r.Ok? ==> (forall m :: m in r.value <==> m in Namesakes(s, k, name)) && NoDuplicates(r.value)
    ensures r.Ok? ==> InOrder([k] + AllAncestors(s, k), r.value)
    ensures r.Ok? ==> forall j :: 0 <= j < |r.value| && r.value[j].klass == k ==> j == 0
  {
    var namesakes := CollectNamesakes(s, k, name);
    var ancestors := GetAllAncestors(s, k);
    LinearisedOrder(s, k);
    var order := [k] + ancestors;
    r := OrderNamesakes(order, namesakes);
    NamesakeOutcome(s, k, name, namesakes, r);
  }

  /** What `OrderNamesakes` promises about the collected namesakes, restated over the set. */
  lemma NamesakeOutcome(s: Snapshot, k: KlassId, name: string, namesakes: seq<Method>, r: Result<seq<Method>>)
    requires Valid(s) && k in s.klasses
    requires forall m :: m in namesakes <==> m in Namesakes(s, k, name)
    requires NoDuplicates(namesakes)
    requires var order := [k] + AllAncestors(s, k);
             NoDuplicates(order) &&
             (r.Ok? <==> namesakes != [] && Placeable(order, namesakes)) &&
             (r.Ok? ==> multiset(r.value) == multiset(namesakes) && InOrder(order, r.value))
    ensures r.Ok? <==>
              Namesakes(s, k, name) != {} &&
              forall m1, m2 :: m1 in Namesakes(s, k, name) && m2 in Namesakes(s, k, name) && m1.klass == m2.klass ==> m1 == m2
    ensures r.Ok? ==> (forall m :: m in r.value <==> m in Namesakes(s, k, name)) && NoDuplicates(r.value)
    ensures r.Ok? ==> forall j :: 0 <= j < |r.value| && r.value[j].klass == k ==> j == 0
  {
    var order := [k] + AllAncestors(s, k);
    LinearisedOrder(s, k);
    var n := Namesakes(s, k, name);
    OnePerClassCounts(namesakes);
    // Every namesake's class is in the order, so placeable means one per class.
    assert Placeable(order, namesakes) <==> AtMostOneEach(namesakes) by {
      forall c | ClassCount(namesakes, c) > 0 ensures c in order
      {
        var j :| 0 <= j < |namesakes| && namesakes[j].klass == c;
        assert namesakes[j] in n;
      }
    }
    assert OnePerClass(namesakes) <==>
             forall m1, m2 :: m1 in n && m2 in n && m1.klass == m2.klass ==> m1 == m2 by {
      if OnePerClass(namesakes) {
        forall m1, m2 | m1 in n && m2 in n && m1.klass == m2.klass ensures m1 == m2
        {
          var i :| 0 <= i < |namesakes| && namesakes[i] == m1;
          var j :| 0 <= j < |namesakes| && namesakes[j] == m2;
        }
      }
    }
    if namesakes == [] {
      if n != {} {
        NonEmptyHasMember(n);
        assert false;
      }
    } else {
      assert namesakes[0] in n;
    }
    if r.Ok? {
      forall m ensures m in r.value <==> m in n
      {
        assert m in r.value <==> m in multiset(r.value);
        assert m in namesakes <==> m in multiset(namesakes);
      }
      forall i, j | 0 <= i < j < |r.value| ensures r.value[i] != r.value[j]
      {
        assert Position(order, r.value[i].klass) < Position(order, r.value[j].klass);
      }
      forall j | 0 <= j < |r.value| && r.value[j].klass == k ensures j == 0
      {
        OwnMethodFirst(order, r.value, j);
      }
    }
  }

  // ---------------------------------------------------------------------------
  // `KlassDetailView._get_prepared_attributes`.

  /** The sort key: -1 for an attribute of the class itself, else its class's ancestor position. */
  function SortKey(ancestors: seq<KlassId>, a: KlassAttribute): int
  {
    if a.klass in ancestors then Position(ancestors, a.klass) else -1
  }

  /** Entry `i` comes before entry `j` in the stable sort of their name group. */
  predicate SortsBefore(ancestors: seq<KlassId>, attrs: seq<KlassAttribute>, i: nat, j: nat)
    requires i < |attrs| && j < |attrs|
  {
    var ki := SortKey(ancestors, attrs[i]);
    var kj := SortKey(ancestors, attrs[j]);
    ki < kj || (ki == kj && i < j)
  }

  /** Entry `j` is not first in the sorted group of its name. */
  ghost predicate Overridden(ancestors: seq<KlassId>, attrs: seq<KlassAttribute>, j: nat)
    requires j < |attrs|
  {
    exists i :: 0 <= i < |attrs| && attrs[i].name == attrs[j].name && SortsBefore(ancestors, attrs, i, j)
  }

  /** The positions before `j` holding an attribute called `n`, ascending. */
  function IndicesOf(attrs: seq<KlassAttribute>, n: string, j: nat): (r: seq<nat>)
    requires j <= |attrs|
    ensures forall u :: 0 <= u < |r| ==> r[u] < j
  {
    if j == 0 then []
    else IndicesOf(attrs, n, j - 1) + (if attrs[j - 1].name == n then [j - 1] else [])
  }

  /** The positions listed are exactly those before `j` holding `n`, each once, ascending. */
  lemma {:induction false} IndicesOfMembers(attrs: seq<KlassAttribute>, n: string, j: nat)
    requires j <= |attrs|
    ensures var r := IndicesOf(attrs, n, j);
            (forall u :: 0 <= u < |r| ==> attrs[r[u]].name == n) &&
            (forall x :: 0 <= x < j && attrs[x].name == n ==> x in r) &&
            (forall u, v :: 0 <= u < v < |r| ==> r[u] < r[v])
  {
    if j > 0 {
      IndicesOfMembers(attrs, n, j - 1);
    }
  }

  lemma IndicesOfStep(attrs: seq<KlassAttribute>, n: string, j: nat)
    requires j < |attrs|
    ensures IndicesOf(attrs, n, j + 1) == IndicesOf(attrs, n, j) + (if attrs[j].name == n then [j] else [])
  {
  }

  /** `attribute_names[n]`, with the empty list for a name not in the dictionary. */
  function GroupOf(groups: map<string, seq<nat>>, n: string): seq<nat>
  {
    if n in groups then groups[n] else []
  }

  /** The `attribute_names` dictionary: each name to the positions holding it, in order. */
  method GroupByName(attrs: seq<KlassAttribute>) returns (groups: map<string, seq<nat>>)
    ensures forall n :: GroupOf(groups, n) == IndicesOf(attrs, n, |attrs|)
  {
    groups := map[];
    for j := 0 to |attrs|
      invariant forall n :: GroupOf(groups, n) == IndicesOf(attrs, n, j)
    {
      var n := attrs[j].name;
      var extended := groups[n := GroupOf(groups, n) + [j]];
      GroupStep(attrs, groups, extended, j);
      groups := extended;
    }
  }

  /** Appending position `j` under its name extends the grouping by that position. */
  lemma GroupStep(attrs: seq<KlassAttribute>, groups: map<string, seq<nat>>, after: map<string, seq<nat>>, j: nat)
    requires j < |attrs|
    requires forall n :: GroupOf(groups, n) == IndicesOf(attrs, n, j)
    requires after == groups[attrs[j].name := GroupOf(groups, attrs[j].name) + [j]]
    ensures forall n' :: GroupOf(after, n') == IndicesOf(attrs, n', j + 1)
  {
    var n := attrs[j].name;
    forall n' ensures GroupOf(after, n') == IndicesOf(attrs, n', j + 1)
    {
      IndicesOfStep(attrs, n', j);
      if n' != n {
        assert GroupOf(after, n') == GroupOf(groups, n');
      }
    }
  }

  /** `sorted(group, key=_key)[0]`: the entry of the group that no other entry sorts before. */
  method StableFirst(ancestors: seq<KlassId>, attrs: seq<KlassAttribute>, g: seq<nat>) returns (best: nat)
    requires |g| > 0 && forall u :: 0 <= u < |g| ==> g[u] < |attrs|
    requires forall u, v :: 0 <= u < v < |g| ==> g[u] < g[v]
    ensures best < |g|
    ensures forall u :: 0 <= u < |g| ==> !SortsBefore(ancestors, attrs, g[u], g[best])
  {
    best := 0;
    for t := 1 to |g|
      invariant best < t
      invariant forall u :: 0 <= u < t ==> !SortsBefore(ancestors, attrs, g[u], g[best])
    {
      if SortKey(ancestors, attrs[g[t]]) < SortKey(ancestors, attrs[g[best]]) {
        best := t;
      }
    }
  }

  /** `for a in sorted_attrs[1:]: a.overridden = True`. */
  method MarkAllBut(overridden: seq<bool>, g: seq<nat>, best: nat) returns (r: seq<bool>)
    requires best < |g| && forall u :: 0 <= u < |g| ==> g[u] < |overridden|
    requires forall u, v :: 0 <= u < v < |g| ==> g[u] < g[v]
    ensures |r| == |overridden|
    ensures forall j :: 0 <= j < |r| ==> (r[j] <==> overridden[j] || (j in g && j != g[best]))
  {
    r := overridden;
    for t := 0 to |g|
      invariant |r| == |overridden|
      invariant forall j :: 0 <= j < |r| ==> (r[j] <==> overridden[j] || (j in g[..t] && j != g[best]))
    {
      assert g[..t + 1] == g[..t] + [g[t]];
      if t != best {
        r := r[g[t] := true];
      }
    }
    assert g[..|g|] == g;
  }

  /** Within one name group, the stable-first entry is the one not overridden. */
  lemma GroupVerdict(ancestors: seq<KlassId>, attrs: seq<KlassAttribute>, n: string, best: nat, j: nat)
    requires var g := IndicesOf(attrs, n, |attrs|);
             best < |g| && forall u :: 0 <= u < |g| ==> !SortsBefore(ancestors, attrs, g[u], g[best])
    requires j < |attrs| && attrs[j].name == n
    ensures Overridden(ancestors, attrs, j) <==> j != IndicesOf(attrs, n, |attrs|)[best]
  {
    var g := IndicesOf(attrs, n, |attrs|);
    IndicesOfMembers(attrs, n, |attrs|);
    var w := g[best];
    if j != w {
      assert SortsBefore(ancestors, attrs, w, j) by {
        var u :| 0 <= u < |g| && g[u] == j;
        assert !SortsBefore(ancestors, attrs, g[u], w);
      }
    } else {
      forall i | 0 <= i < |attrs| && attrs[i].name == n
        ensures !SortsBefore(ancestors, attrs, i, j)
      {
        assert i in g;
        var u :| 0 <= u < |g| && g[u] == i;
      }
    }
  }

  /** One pass of the loop over `attribute_names.values()`: flag the group of name `n`. */
  method MarkGroup(ancestors: seq<KlassId>, attrs: seq<KlassAttribute>, overridden: seq<bool>, n: string, g: seq<nat>)
    returns (r: seq<bool>)
    requires |overridden| == |attrs|
    requires g == IndicesOf(attrs, n, |attrs|)
    ensures |r| == |attrs|
    ensures forall j :: 0 <= j < |attrs| ==>
              (r[j] <==> overridden[j] || (attrs[j].name == n && Overridden(ancestors, attrs, j)))
  {
    IndicesOfMembers(attrs, n, |attrs|);
    if |g| <= 1 {
      r := overridden;
      forall j | 0 <= j < |attrs| && attrs[j].name == n
        ensures !Overridden(ancestors, attrs, j)
      {
        assert j in g;
        GroupVerdict(ancestors, attrs, n, 0, j);
      }
    } else {
      var best := StableFirst(ancestors, attrs, g);
      r := MarkAllBut(overridden, g, best);
      forall j | 0 <= j < |attrs|
        ensures r[j] <==> overridden[j] || (attrs[j].name == n && Overridden(ancestors, attrs, j))
      {
        if attrs[j].name == n {
          assert j in g;
          GroupVerdict(ancestors, attrs, n, best, j);
        } else {
          assert j !in g;
        }
      }
    }
  }

  /**
   * The flags `_get_prepared_attributes` sets: each attribute is overridden
   * exactly when another attribute of the same name sorts before it.
   */
  method MarkOverridden(ancestors: seq<KlassId>, attrs: seq<KlassAttribute>) returns (overridden: seq<bool>)
    ensures |overridden| == |attrs|
    ensures forall j :: 0 <= j < |attrs| ==> (overridden[j] <==> Overridden(ancestors, attrs, j))
  {
    var groups := GroupByName(attrs);
    overridden := seq(|attrs|, _ => false);
    var names := groups.Keys;
    forall j | 0 <= j < |attrs| ensures attrs[j].name in names
    {
      IndicesOfMembers(attrs, attrs[j].name, |attrs|);
      assert j in IndicesOf(attrs, attrs[j].name, |attrs|);
      assert GroupOf(groups, attrs[j].name) != [];
    }
    while names != {}
      invariant names <= groups.Keys
      invariant |overridden| == |attrs|
      invariant forall j :: 0 <= j < |attrs| ==>
                  (overridden[j] <==> attrs[j].name !in names && Overridden(ancestors, attrs, j))
      decreases names
    {
      var n := Pick(names);
      assert n in groups && GroupOf(groups, n) == groups[n];
      overridden := MarkGroup(ancestors, attrs, overridden, n, groups[n]);
      names := names - {n};
    }
  }

  /**
   * `KlassDetailView._get_prepared_attributes`: the visible attributes, each
   * flagged as overridden when another attribute of the same name sorts
   * before it (the class's own first, then by ancestor position).
   */
  method GetPreparedAttributes(s: Snapshot, k: KlassId) returns (attrs: seq<KlassAttribute>, overridden: seq<bool>)
    requires Valid(s) && k in s.klasses
    ensures forall a :: a in attrs <==> a in s.attributes && Sees(s, k, a.klass)
    ensures NoDuplicates(attrs)
    ensures |overridden| == |attrs|
    ensures forall j :: 0 <= j < |attrs| ==> (overridden[j] <==> Overridden(AllAncestors(s, k), attrs, j))
  {
    var attributes := GetAttributes(s, k);
    attrs := SetToSeq(attributes);
    var ancestors := GetAllAncestors(s, k);
    overridden := MarkOverridden(ancestors, attrs);
  }

  /** The entry of a name group that no other entry sorts before. */
  ghost function Survivor(ancestors: seq<KlassId>, attrs: seq<KlassAttribute>, g: seq<nat>): (b: nat)
    requires |g| > 0 && forall u :: 0 <= u < |g| ==> g[u] < |attrs|
    requires forall u, v :: 0 <= u < v < |g| ==> g[u] < g[v]
    ensures b < |g| && forall v :: 0 <= v < |g| ==> !SortsBefore(ancestors, attrs, g[v], g[b])
  {
    if |g| == 1 then 0
    else
      var last := |g| - 1;
      var b := Survivor(ancestors, attrs, g[..last]);
      assert forall v :: 0 <= v < last ==> g[..last][v] == g[v];
      if SortKey(ancestors, attrs[g[last]]) < SortKey(ancestors, attrs[g[b]]) then last else b
  }

  /** Every attribute name keeps exactly one entry that is not overridden. */
  lemma OneSurvivorPerName(ancestors: seq<KlassId>, attrs: seq<KlassAttribute>, j: nat)
    requires j < |attrs|
    ensures exists w :: 0 <= w < |attrs| && attrs[w].name == attrs[j].name && !Overridden(ancestors, attrs, w)
    ensures forall w1, w2 ::
              (0 <= w1 < |attrs| && 0 <= w2 < |attrs| &&
               attrs[w1].name == attrs[j].name && attrs[w2].name == attrs[j].name &&
               !Overridden(ancestors, attrs, w1) && !Overridden(ancestors, attrs, w2)) ==> w1 == w2
  {
    var n := attrs[j].name;
    var g := IndicesOf(attrs, n, |attrs|);
    IndicesOfMembers(attrs, n, |attrs|);
    assert j in g;
    var b := Survivor(ancestors, attrs, g);
    GroupVerdict(ancestors, attrs, n, b, g[b]);
    forall w1, w2 | 0 <= w1 < |attrs| && 0 <= w2 < |attrs| &&
                   attrs[w1].name == n && attrs[w2].name == n &&
                   !Overridden(ancestors, attrs, w1) && !Overridden(ancestors, attrs, w2)
      ensures w1 == w2
    {
      GroupVerdict(ancestors, attrs, n, b, w1);
      GroupVerdict(ancestors, attrs, n, b, w2);
    }
  }

  /** The stored attributes respect `unique_together = ("klass", "name")`. */
  ghost predicate UniqueAttributeNames(s: Snapshot)
  {
    forall i, j ::
      (0 <= i < |s.attributes| && 0 <= j < |s.attributes| &&
       s.attributes[i].klass == s.attributes[j].klass && s.attributes[i].name == s.attributes[j].name) ==>
      s.attributes[i] == s.attributes[j]
  }

  /** For a visible attribute, the sort key is its class's position in `[k] + ancestors`, less one. */
  lemma SortKeyIsPosition(s: Snapshot, k: KlassId, a: KlassAttribute)
    requires Valid(s) && k in s.klasses && Sees(s, k, a.klass)
    ensures a.klass in [k] + AllAncestors(s, k)
    ensures SortKey(AllAncestors(s, k), a) == Position([k] + AllAncestors(s, k), a.klass) - 1
  {
    var ancestors := AllAncestors(s, k);
    LinearisedOrder(s, k);
    var order := [k] + ancestors;
    if a.klass != k {
      assert order[1..] == ancestors;
      PositionInTail(order, a.klass);
    }
  }

  /**
   * With one attribute per class and name, an attribute is overridden exactly
   * when a class before its own in the linearisation (the class first)
   * defines the same name: the nearest definition wins.
   */
  lemma NearestDefinitionWins(s: Snapshot, k: KlassId, attrs: seq<KlassAttribute>, j: nat)
    requires Valid(s) && k in s.klasses && UniqueAttributeNames(s)
    requires forall a :: a in attrs <==> a in s.attributes && Sees(s, k, a.klass)
    requires NoDuplicates(attrs) && j < |attrs|
    ensures var order := [k] + AllAncestors(s, k);
            attrs[j].klass in order &&
            (Overridden(AllAncestors(s, k), attrs, j) <==>
              exists i :: 0 <= i < |attrs| && attrs[i].name == attrs[j].name && attrs[i].klass in order &&
                Position(order, attrs[i].klass) < Position(order, attrs[j].klass))
  {
    var ancestors := AllAncestors(s, k);
    var order := [k] + ancestors;
    forall i | 0 <= i < |attrs|
      ensures attrs[i].klass in order
      ensures SortKey(ancestors, attrs[i]) == Position(order, attrs[i].klass) - 1
    {
      assert attrs[i] in attrs;
      SortKeyIsPosition(s, k, attrs[i]);
    }
    forall i | 0 <= i < |attrs| && attrs[i].name == attrs[j].name && i != j
      ensures attrs[i].klass != attrs[j].klass
    {
      assert attrs[i] in attrs && attrs[j] in attrs;
      var p :| 0 <= p < |s.attributes| && s.attributes[p] == attrs[i];
      var q :| 0 <= q < |s.attributes| && s.attributes[q] == attrs[j];
    }
  }
}
