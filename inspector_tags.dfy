/**
 * The legacy inspector's `namesake_methods` filter. It is a copy of the
 * catalogue's filter, but the inspector's class model has no ancestor
 * linearisation to iterate.
 */
module InspectorTags {
  import opened Wrappers
  import opened Hierarchy
  import Models
  import Views
  import InspectorModels

  /** The message of the lookup of the missing ancestor query. */
  const MissingLinearisation: string := "'Klass' object has no attribute 'get_all_ancestors'"

  /**
   * The filter as written: it gathers the namesakes through the inspector's
   * `get_methods`, asserts there is one, and then asks the class for
   * `get_all_ancestors`, which the inspector's model does not define. So it
   * never returns a list.
   */
  method NamesakeMethodsAsWritten(s: Snapshot, k: KlassId, name: string) returns (r: Result<seq<Method>>)
    requires Valid(s) && k in s.klasses
    ensures r.Err?
    ensures r.error == AssertionError <==> Views.Namesakes(s, k, name) == {}
    ensures r.error != AssertionError ==> r.error == AttributeError(MissingLinearisation)
  {
    var methods := InspectorModels.GetMethods(s, k);
    var namesakes := set m | m in methods && m.name == name;
    assert forall m :: m in namesakes <==> m in Views.Namesakes(s, k, name);
    if namesakes == {} {
      return Err(AssertionError);
    }
    return Err(AttributeError(MissingLinearisation));
  }

  /**
   * The filter as intended: the inspector's namesakes put in the order of the
   * catalogue's linearisation.
   */
  method NamesakeMethods(s: Snapshot, k: KlassId, name: string) returns (r: Result<seq<Method>>)
    requires Valid(s) && k in s.klasses
    ensures r.Ok? <==>
              Views.Namesakes(s, k, name) != {} &&
              forall m1, m2 :: (m1 in Views.Namesakes(s, k, name) && m2 in Views.Namesakes(s, k, name) &&
                                m1.klass == m2.klass) ==> m1 == m2
    ensures r.Err? ==> r.error == AssertionError
    ensures r.Ok? ==> (forall m :: m in r.value <==> m in Views.Namesakes(s, k, name)) && NoDuplicates(r.value)
    ensures r.Ok? ==> Views.InOrder([k] + AllAncestors(s, k), r.value)
  {
    var methods := InspectorModels.GetMethods(s, k);
    var named := set m | m in methods && m.name == name;
    var namesakes := Models.SetToSeq(named);
    var ancestors := Models.GetAllAncestors(s, k);
    Views.LinearisedOrder(s, k);
    r := Views.OrderNamesakes([k] + ancestors, namesakes);
    Views.NamesakeOutcome(s, k, name, namesakes, r);
  }

  /** `C(B(A))` where only A defines `get`: a namesake the corrected filter lists. */
  function GetOnRoot(): Snapshot
  {
    var s := LinearSnapshot();
    Snapshot(s.klasses, [Method(1, "get", "", "", "", 1)], [])
  }

  /**
   * For `C` in that hierarchy the only namesake is A's `get`: one namesake,
   * one class, so the assertion of the filter passes.
   */
  lemma RootNamesakeListed()
    ensures Valid(GetOnRoot()) && 3 in GetOnRoot().klasses
    ensures Views.Namesakes(GetOnRoot(), 3, "get") == {Method(1, "get", "", "", "", 1)}
  {
    var s := GetOnRoot();
    LinearChain();
    assert Valid(s) by {
      assert s.klasses == LinearSnapshot().klasses;
    }
    assert Parents(s, 3) == [2] && Parents(s, 2) == [1];
    assert IsAncestor(s, 1, 2);
    assert IsAncestor(s, 1, 3);
  }

  /** On that hierarchy the filter as written fails with an `AttributeError`, the intended one lists A's `get`. */
  method RootNamesakeOutcome() returns (asWritten: Result<seq<Method>>, intended: Result<seq<Method>>)
    ensures asWritten == Err(AttributeError(MissingLinearisation))
    ensures intended == Ok([Method(1, "get", "", "", "", 1)])
  {
    var s := GetOnRoot();
    var m := Method(1, "get", "", "", "", 1);
    RootNamesakeListed();
    asWritten := NamesakeMethodsAsWritten(s, 3, "get");
    intended := NamesakeMethods(s, 3, "get");
    OnlyNamesake(intended, Views.Namesakes(s, 3, "get"), m);
  }

  /** A duplicate-free list of exactly the members of `{m}` is `[m]`. */
  lemma OnlyNamesake(r: Result<seq<Method>>, namesakes: set<Method>, m: Method)
    requires namesakes == {m}
    requires r.Ok? <==> (namesakes != {} &&
                         forall m1, m2 :: (m1 in namesakes && m2 in namesakes && m1.klass == m2.klass) ==> m1 == m2)
    requires r.Ok? ==> (forall x :: x in r.value <==> x in namesakes) && NoDuplicates(r.value)
    ensures r == Ok([m])
  {
    assert m in namesakes;
    assert r.Ok?;
    var v := r.value;
    assert m in v;
    assert forall i :: 0 <= i < |v| ==> v[i] in v;
    AllSameIsShort(v, m);
    assert v == [m];
  }

  /** A duplicate-free list whose every entry is `m` holds at most one entry. */
  lemma AllSameIsShort(v: seq<Method>, m: Method)
    requires NoDuplicates(v) && forall i :: 0 <= i < |v| ==> v[i] == m
    ensures |v| <= 1
  {
    if |v| > 1 {
      FirstTwoDiffer(v);
      assert false;
    }
  }

  lemma FirstTwoDiffer(v: seq<Method>)
    requires NoDuplicates(v) && |v| > 1
    ensures v[0] != v[1]
  {
  }
}
