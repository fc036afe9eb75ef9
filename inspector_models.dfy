/**
 * The legacy inspector's class model: the direct-parent query, the two-level
 * children query, the member unions that recurse through direct parents, and
 * the text renderings of its rows.
 */
module InspectorModels {
  import opened Wrappers
  import opened Text
  import opened Hierarchy
  import Models

  /** `Klass.get_ancestors`: the direct parents only, as an unordered query result. */
  function GetAncestors(s: Snapshot, k: KlassId): (r: set<KlassId>)
    requires k in s.klasses
    ensures forall c :: c in r <==> c in Parents(s, k)
  {
    set c | c in Parents(s, k)
  }

  /** In `C(B(A))`, A is an ancestor of C but is not among C's `get_ancestors`. */
  lemma DirectParentsOnly()
    ensures Valid(LinearSnapshot())
    ensures GetAncestors(LinearSnapshot(), 3) == {2} && IsAncestor(LinearSnapshot(), 1, 3)
  {
    var s := LinearSnapshot();
    LinearChain();
    assert Parents(s, 3) == [2] && Parents(s, 2) == [1];
    assert IsAncestor(s, 1, 2);
  }

  // ---------------------------------------------------------------------------
  // get_all_children, as written: children and grandchildren only.

  /** The children of `k` and the children of those children. */
  ghost function ChildrenAndGrandchildren(s: Snapshot, k: KlassId): set<KlassId>
  {
    Children(s, k) + set c, g | c in Children(s, k) && g in Children(s, c) :: g
  }

  /**
   * `Klass.get_all_children` of the inspector: the loop runs over the first
   * query result, so each child adds its own children and nothing deeper.
   */
  method GetAllChildren(s: Snapshot, k: KlassId) returns (r: set<KlassId>)
    ensures r == ChildrenAndGrandchildren(s, k)
  {
    var children := Children(s, k);
    r := children;
    var rest := children;
    while rest != {}
      invariant rest <= children
      invariant forall x :: x in r <==>
                  x in children || exists c :: c in children - rest && x in Children(s, c)
      decreases rest
    {
      var c := Models.Pick(rest);
      r := r + Children(s, c);
      rest := rest - {c};
    }
    assert forall x :: x in r <==> x in ChildrenAndGrandchildren(s, k);
  }

  /** Everything the two-level query finds is a descendant. */
  lemma TwoLevelsAreDescendants(s: Snapshot, k: KlassId, x: KlassId)
    requires Valid(s) && x in ChildrenAndGrandchildren(s, k)
    ensures x in Descendants(s, k)
  {
    if x in Children(s, k) {
      assert k in Parents(s, x);
    } else {
      var c :| c in Children(s, k) && x in Children(s, c);
      assert k in Parents(s, c);
      assert IsAncestor(s, k, c);
      assert c in Parents(s, x);
    }
  }

  /** `D(C(B(A)))` with ids a = 1, b = 2, c = 3, d = 4. */
  function ChainOfFour(): Snapshot
  {
    Snapshot(map[1 := Row("a", [], 0), 2 := Row("b", [1], 1), 3 := Row("c", [2], 2),
                 4 := Row("d", [3], 3)], [], [])
  }

  /** In a chain of four, the great-grandchild D of A is a descendant the query misses. */
  lemma GreatGrandchildMissed()
    ensures Valid(ChainOfFour())
    ensures 4 in Descendants(ChainOfFour(), 1) && 4 !in ChildrenAndGrandchildren(ChainOfFour(), 1)
  {
    ChainOfFourShape();
    ChainOfFourDescends();
    ChainOfFourTwoLevels();
  }

  lemma ChainOfFourShape()
    ensures Valid(ChainOfFour())
    ensures ChainOfFour().klasses.Keys == {1, 2, 3, 4}
    ensures Parents(ChainOfFour(), 1) == [] && Parents(ChainOfFour(), 2) == [1]
    ensures Parents(ChainOfFour(), 3) == [2] && Parents(ChainOfFour(), 4) == [3]
  {
  }

  lemma ChainOfFourDescends()
    ensures Valid(ChainOfFour()) && 4 in Descendants(ChainOfFour(), 1)
  {
    var s := ChainOfFour();
    ChainOfFourShape();
    assert 1 in Parents(s, 2);
    assert IsAncestor(s, 1, 2);
    assert 2 in Parents(s, 3);
    assert IsAncestor(s, 1, 3);
    assert 3 in Parents(s, 4);
    assert IsAncestor(s, 1, 4);
  }

  lemma ChainOfFourTwoLevels()
    ensures ChildrenAndGrandchildren(ChainOfFour(), 1) == {2, 3}
  {
    var s := ChainOfFour();
    ChainOfFourShape();
    assert Children(s, 1) == {2} by {
      forall c | c in Children(s, 1) ensures c == 2 {
        assert c in s.klasses.Keys;
      }
      assert 2 in Children(s, 1);
    }
    assert Children(s, 2) == {3} by {
      forall c | c in Children(s, 2) ensures c == 3 {
        assert c in s.klasses.Keys;
      }
      assert 3 in Children(s, 2);
    }
  }

  // ---------------------------------------------------------------------------
  // get_methods / get_attributes: recursion through the direct parents.

  /**
   * The shared body of the inspector's `get_methods` and `get_attributes`:
   * the rows of `pool` owned by `k`, united with the same query on every
   * direct parent.
   */
  method CollectMembers<M(==)>(s: Snapshot, k: KlassId, pool: seq<M>, owner: M -> KlassId)
    returns (r: set<M>)
    requires Valid(s) && k in s.klasses
    ensures forall m :: m in r <==> m in pool && Sees(s, k, owner(m))
    decreases Rank(s, k)
  {
    r := set m | m in pool && owner(m) == k;
    var parents := Models.SetToSeq(GetAncestors(s, k));
    for i := 0 to |parents|
      invariant forall m :: m in r <==>
                  m in pool && (owner(m) == k || exists j :: 0 <= j < i && Sees(s, parents[j], owner(m)))
    {
      var inherited := CollectMembers(s, parents[i], pool, owner);
      r := r + inherited;
    }
    forall m | m in pool
      ensures Sees(s, k, owner(m)) <==>
                owner(m) == k || exists j :: 0 <= j < |parents| && Sees(s, parents[j], owner(m))
    {
      var c := owner(m);
      if IsAncestor(s, c, k) {
        var p :| p in Parents(s, k) && (p == c || IsAncestor(s, c, p));
        var j :| 0 <= j < |parents| && parents[j] == p;
      }
      if j :| 0 <= j < |parents| && Sees(s, parents[j], c) {
        assert parents[j] in Parents(s, k);
      }
    }
  }

  /** The inspector's `Klass.get_methods`: the same rows as the linearised union. */
  method GetMethods(s: Snapshot, k: KlassId) returns (r: set<Method>)
    requires Valid(s) && k in s.klasses
    ensures forall m :: m in r <==> m in s.methods && Sees(s, k, m.klass)
  {
    r := CollectMembers(s, k, s.methods, (m: Method) => m.klass);
  }

  /** The inspector's `Klass.get_attributes`: the same rows as the linearised union. */
  method GetAttributes(s: Snapshot, k: KlassId) returns (r: set<KlassAttribute>)
    requires Valid(s) && k in s.klasses
    ensures forall a :: a in r <==> a in s.attributes && Sees(s, k, a.klass)
  {
    r := CollectMembers(s, k, s.attributes, (a: KlassAttribute) => a.klass);
  }

  // ---------------------------------------------------------------------------
  // Text renderings.

  /** `ProjectVersion.__unicode__`: the project name, a space and the version number. */
  function ProjectVersionText(projectName: string, versionNumber: string): string
  {
    projectName + " " + versionNumber
  }

  /** A project name without spaces is the first word of the rendering, the version the rest. */
  lemma ProjectVersionTextSplits(projectName: string, versionNumber: string)
    requires ' ' !in projectName
    ensures Split(ProjectVersionText(projectName, versionNumber), ' ')
              == [projectName] + Split(versionNumber, ' ')
  {
    SplitAtSeparator(projectName, versionNumber, ' ');
  }

  /** The text before the order number of an `Inheritance` rendering. */
  function InheritancePrefix(parentName: string, childName: string): string
  {
    parentName + " <- " + childName + " ("
  }

  /** `Inheritance.__unicode__`: `'%s <- %s (%d)' % (parent, child, order)`. */
  function InheritanceText(parentName: string, childName: string, order: int): (r: string)
    ensures StartsWith(r, InheritancePrefix(parentName, childName)) && EndsWith(r, ")")
  {
    var prefix := InheritancePrefix(parentName, childName);
    var r := prefix + IntToString(order) + ")";
    assert r[..|prefix|] == prefix;
    r
  }

  /** The order number of a non-negative order reads back from the rendering. */
  lemma InheritanceOrderReadsBack(parentName: string, childName: string, order: nat)
    ensures var r := InheritanceText(parentName, childName, order);
            var n := |InheritancePrefix(parentName, childName)|;
            n < |r| &&
            (forall i :: n <= i < |r| - 1 ==> IsDigit(r[i])) &&
            ParseNat(r[n..|r| - 1]) == order
  {
    var prefix := InheritancePrefix(parentName, childName);
    var r := InheritanceText(parentName, childName, order);
    assert r[|prefix|..|r| - 1] == NatToString(order);
    ParseNatToString(order);
  }

  /** `Attribute.__unicode__`: the name, `" = "` and the value. */
  function AttributeText(name: string, value: string): string
  {
    name + " = " + value
  }

  /** A name without `=` is recovered as the text before the first `=`. */
  lemma AttributeTextSplits(name: string, value: string)
    requires '=' !in name
    ensures Split(AttributeText(name, value), '=')[0] == name + " "
  {
    assert ' ' != '=';
    assert '=' !in name + " ";
    assert AttributeText(name, value) == (name + " ") + ['='] + (" " + value);
    SplitAtSeparator(name + " ", " " + value, '=');
  }
}
