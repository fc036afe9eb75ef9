/**
 * The catalogue's template filters: `namesake_methods`, the same override
 * ordering as the class detail view, and `is_final`, which marks the last
 * entry of a list.
 */
module CbvTags {
  import opened Wrappers
  import opened Hierarchy
  import Views

  /**
   * The `namesake_methods` filter. Its body is the detail view's routine, so
   * it succeeds under the same condition; here the outcome is stated from
   * the template's side: when the class defines `name` itself, that
   * definition heads the list, every visible namesake is listed once and
   * nothing else is, in the order of the class and then its ancestors.
   */
  method NamesakeMethods(s: Snapshot, k: KlassId, name: string) returns (r: Result<seq<Method>>)
    requires Valid(s) && k in s.klasses
    ensures r.Err? <==>
              Views.Namesakes(s, k, name) == {} ||
              exists m1, m2 :: m1 in Views.Namesakes(s, k, name) && m2 in Views.Namesakes(s, k, name) &&
                               m1.klass == m2.klass && m1 != m2
    ensures r.Err? ==> r.error == AssertionError
    ensures r.Ok? ==> forall m :: m in Views.Namesakes(s, k, name) ==> multiset(r.value)[m] == 1
    ensures r.Ok? ==> forall m :: m in Views.Namesakes(s, k, name) && m.klass == k ==> r.value[0] == m
    ensures r.Ok? ==> forall m :: m in r.value ==> m in Views.Namesakes(s, k, name)
    ensures r.Ok? ==> Views.InOrder([k] + AllAncestors(s, k), r.value)
  {
    r := Views.NamesakeMethods(s, k, name);
    if r.Ok? {
      OwnDefinitionLeads(k, Views.Namesakes(s, k, name), r.value);
      OncePerEntry(Views.Namesakes(s, k, name), r.value);
    }
  }

  /** With the own class only at index 0, an own namesake is the head of the list. */
  lemma OwnDefinitionLeads(k: KlassId, namesakes: set<Method>, ms: seq<Method>)
    requires forall m :: m in ms <==> m in namesakes
    requires forall j :: 0 <= j < |ms| && ms[j].klass == k ==> j == 0
    requires forall m1, m2 :: m1 in namesakes && m2 in namesakes && m1.klass == m2.klass ==> m1 == m2
    ensures forall m :: m in namesakes && m.klass == k ==> ms[0] == m
  {
    forall m | m in namesakes && m.klass == k
      ensures ms[0] == m
    {
      var j :| 0 <= j < |ms| && ms[j] == m;
    }
  }

  /** A list without duplicates holds each of its members exactly once. */
  lemma {:induction false} OncePerEntry(namesakes: set<Method>, ms: seq<Method>)
    requires forall m :: m in ms <==> m in namesakes
    requires NoDuplicates(ms)
    ensures forall m :: m in namesakes ==> multiset(ms)[m] == 1
  {
    if ms != [] {
      var last := ms[|ms| - 1];
      var init := ms[..|ms| - 1];
      assert ms == init + [last];
      assert last !in init;
      OncePerEntry((set m | m in init), init);
    }
  }

  /** The `is_final` filter: whether `obj` is the given last element. */
  predicate IsFinal<T(==)>(obj: T, last: T)
  {
    obj == last
  }

  /** Over a list without duplicates, `is_final(xs[i], xs[-1])` singles out the last index. */
  lemma IsFinalMarksLast<T>(xs: seq<T>, i: nat)
    requires NoDuplicates(xs) && i < |xs|
    ensures IsFinal(xs[i], xs[|xs| - 1]) <==> i == |xs| - 1
  {
  }

  /** With a repeated element the filter also marks the earlier copy. */
  lemma IsFinalMarksRepeats()
    ensures IsFinal([7, 8, 7][0], [7, 8, 7][2])
  {
  }
}
