/**
 * The stored class hierarchy of one project version and the reference
 * definitions of what the resolver computes over it: the depth-first ancestor
 * expansion, the keep-last-occurrence deduplication, the linearised ancestors,
 * the transitive ancestor relation and the descendant closure.
 */
module Hierarchy {

  /** The primary key of a stored class. */
  type KlassId = int

  /**
   * One stored class. `parents` are its direct parents ordered by the
   * inheritance `order`. `rank` is strictly greater than every parent's rank,
   * which makes the stored graph acyclic; it only serves as termination measure.
   */
  datatype KlassRow = KlassRow(name: string, moduleName: string, parents: seq<KlassId>, rank: nat)

  datatype Method = Method(klass: KlassId, name: string, docstring: string, code: string,
                           kwargs: string, lineNumber: int)

  datatype KlassAttribute = KlassAttribute(klass: KlassId, name: string, value: string, lineNumber: int)

  /** The classes, method rows and attribute rows of one project version. */
  datatype Snapshot = Snapshot(klasses: map<KlassId, KlassRow>, methods: seq<Method>,
                               attributes: seq<KlassAttribute>)

  /** Every parent is a stored class of smaller rank: the graph is acyclic. */
  ghost predicate Valid(s: Snapshot)
  {
    forall k, p :: k in s.klasses && p in s.klasses[k].parents ==>
      p in s.klasses && s.klasses[p].rank < s.klasses[k].rank
  }

  function Parents(s: Snapshot, k: KlassId): seq<KlassId>
    requires k in s.klasses
  {
    s.klasses[k].parents
  }

  function Rank(s: Snapshot, k: KlassId): nat
    requires k in s.klasses
  {
    s.klasses[k].rank
  }

  predicate NoDuplicates<T(==)>(s: seq<T>)
  {
    forall i, j :: 0 <= i < j < |s| ==> s[i] != s[j]
  }

  // ---------------------------------------------------------------------------
  // Linearisation: depth-first expansion, then keep the last occurrence.

  /**
   * Drop every element that occurs again later: each element is kept at its
   * last occurrence, in the order of those last occurrences.
   */
  function DedupLast<T(==,!new)>(s: seq<T>): (r: seq<T>)
    ensures forall x :: x in r <==> x in s
    ensures NoDuplicates(r)
  {
    if s == [] then []
    else if s[0] in s[1..] then DedupLast(s[1..])
    else [s[0]] + DedupLast(s[1..])
  }

  /** The position of the last occurrence of `x` in `s`. */
  function LastIndex<T(==)>(s: seq<T>, x: T): (i: nat)
    requires x in s
    ensures i < |s| && s[i] == x
    ensures forall j :: i < j < |s| ==> s[j] != x
  {
    if s[|s| - 1] == x then |s| - 1 else LastIndex(s[..|s| - 1], x)
  }

  /** A last occurrence in the tail is one position further on in the whole sequence. */
  lemma LastIndexInTail<T>(s: seq<T>, x: T)
    requires s != [] && x in s[1..]
    ensures LastIndex(s, x) == 1 + LastIndex(s[1..], x)
  {
    var l := LastIndex(s[1..], x);
    assert s[1 + l] == x;
  }

  /** DedupLast lists the elements in the order of their last occurrences. */
  lemma {:induction false} DedupLastOrder<T(!new)>(s: seq<T>)
    ensures forall i, j :: 0 <= i < j < |DedupLast(s)| ==>
              LastIndex(s, DedupLast(s)[i]) < LastIndex(s, DedupLast(s)[j])
  {
    if s != [] {
      var tail := s[1..];
      DedupLastOrder(tail);
      var r := DedupLast(s);
      var rt := DedupLast(tail);
      if s[0] !in tail {
        assert r == [s[0]] + rt;
        forall i, j | 0 <= i < j < |r|
          ensures LastIndex(s, r[i]) < LastIndex(s, r[j])
        {
          assert r[j] == rt[j - 1] && r[j] in tail;
          LastIndexInTail(s, r[j]);
          if i > 0 {
            assert r[i] == rt[i - 1] && r[i] in tail;
            LastIndexInTail(s, r[i]);
          }
        }
      } else {
        assert r == rt;
        forall i, j | 0 <= i < j < |r|
          ensures LastIndex(s, r[i]) < LastIndex(s, r[j])
        {
          assert r[i] in tail && r[j] in tail;
          LastIndexInTail(s, r[i]);
          LastIndexInTail(s, r[j]);
        }
      }
    }
  }

  /** `get_all_ancestors`: the depth-first expansion deduplicated keeping last occurrences. */
  function AllAncestors(s: Snapshot, k: KlassId): (r: seq<KlassId>)
    requires Valid(s) && k in s.klasses
    ensures forall a :: a in r ==> a in s.klasses && Rank(s, a) < Rank(s, k)
    decreases Rank(s, k), |Parents(s, k)| + 2
  {
    DedupLast(Tree(s, k))
  }

  /** The `tree` of `get_all_ancestors`: each parent, then that parent's linearised ancestors. */
  function Tree(s: Snapshot, k: KlassId): (r: seq<KlassId>)
    requires Valid(s) && k in s.klasses
    ensures forall a :: a in r ==> a in s.klasses && Rank(s, a) < Rank(s, k)
    decreases Rank(s, k), |Parents(s, k)| + 1
  {
    Expand(s, k, 0)
  }

  /** The part of `Tree(s, k)` contributed by the parents at positions `i` and after. */
  function Expand(s: Snapshot, k: KlassId, i: nat): (r: seq<KlassId>)
    requires Valid(s) && k in s.klasses && i <= |Parents(s, k)|
    ensures forall a :: a in r ==> a in s.klasses && Rank(s, a) < Rank(s, k)
    decreases Rank(s, k), |Parents(s, k)| - i
  {
    if i == |Parents(s, k)| then []
    else
      var p := Parents(s, k)[i];
      [p] + AllAncestors(s, p) + Expand(s, k, i + 1)
  }

  // ---------------------------------------------------------------------------
  // The ancestor relation and the descendant closure.

  /** `a` is reachable from `k` by following parent edges at least once. */
  ghost predicate IsAncestor(s: Snapshot, a: KlassId, k: KlassId)
    requires Valid(s) && k in s.klasses
    decreases Rank(s, k)
  {
    exists p :: p in Parents(s, k) && (p == a || IsAncestor(s, a, p))
  }

  /** The members of class `c` are visible on `k`: `c` is `k` or one of its ancestors. */
  ghost predicate Sees(s: Snapshot, k: KlassId, c: KlassId)
    requires Valid(s) && k in s.klasses
  {
    c == k || IsAncestor(s, c, k)
  }

  /** `get_children`: the classes that list `k` among their direct parents. */
  function Children(s: Snapshot, k: KlassId): (r: set<KlassId>)
    ensures forall c :: c in r <==> c in s.klasses && k in Parents(s, c)
  {
    set c | c in s.klasses && k in s.klasses[c].parents
  }

  /** The classes of which `k` is an ancestor. */
  ghost function Descendants(s: Snapshot, k: KlassId): set<KlassId>
    requires Valid(s)
  {
    set c | c in s.klasses && IsAncestor(s, k, c)
  }

  /** The classes ranked above `k`; it shrinks from a class to each of its children. */
  ghost function Above(s: Snapshot, k: KlassId): set<KlassId>
    requires k in s.klasses
  {
    set c | c in s.klasses && Rank(s, c) > Rank(s, k)
  }

  lemma AboveShrinks(s: Snapshot, k: KlassId, c: KlassId)
    requires Valid(s) && k in s.klasses && c in Children(s, k)
    ensures Above(s, c) < Above(s, k)
  {
    assert c in Above(s, k) && c !in Above(s, c);
  }

  /** An ancestor is a stored class of strictly smaller rank. */
  lemma {:induction false} AncestorRank(s: Snapshot, a: KlassId, k: KlassId)
    requires Valid(s) && k in s.klasses && IsAncestor(s, a, k)
    ensures a in s.klasses && Rank(s, a) < Rank(s, k)
    decreases Rank(s, k)
  {
    var p :| p in Parents(s, k) && (p == a || IsAncestor(s, a, p));
    if p != a {
      AncestorRank(s, a, p);
    }
  }

  lemma {:induction false} AncestorTransitive(s: Snapshot, a: KlassId, b: KlassId, c: KlassId)
    requires Valid(s) && b in s.klasses && c in s.klasses
    requires IsAncestor(s, a, b) && IsAncestor(s, b, c)
    ensures IsAncestor(s, a, c)
    decreases Rank(s, c)
  {
    var p :| p in Parents(s, c) && (p == b || IsAncestor(s, b, p));
    if p != b {
      AncestorTransitive(s, a, b, p);
    }
    assert p in Parents(s, c) && IsAncestor(s, a, p);
  }

  /** Membership in the expansion of the parents from position `i` on. */
  lemma {:induction false} ExpandMembership(s: Snapshot, k: KlassId, i: nat, a: KlassId)
    requires Valid(s) && k in s.klasses && i <= |Parents(s, k)|
    ensures a in Expand(s, k, i) <==>
              exists j :: i <= j < |Parents(s, k)| &&
                (Parents(s, k)[j] == a || a in AllAncestors(s, Parents(s, k)[j]))
    decreases |Parents(s, k)| - i
  {
    if i < |Parents(s, k)| {
      ExpandMembership(s, k, i + 1, a);
    }
  }

  /**
   * The linearised ancestors are exactly the transitive ancestors: the direct
   * parents together with every parent's own ancestors.
   */
  lemma {:induction false} AncestorsAreClosure(s: Snapshot, k: KlassId, a: KlassId)
    requires Valid(s) && k in s.klasses
    ensures a in AllAncestors(s, k) <==> IsAncestor(s, a, k)
    decreases Rank(s, k)
  {
    var ps := Parents(s, k);
    ExpandMembership(s, k, 0, a);
    forall j | 0 <= j < |ps|
      ensures a in AllAncestors(s, ps[j]) <==> IsAncestor(s, a, ps[j])
    {
      AncestorsAreClosure(s, ps[j], a);
    }
    if IsAncestor(s, a, k) {
      var p :| p in ps && (p == a || IsAncestor(s, a, p));
      var j :| 0 <= j < |ps| && ps[j] == p;
    }
  }

  /** `get_all_ancestors` never lists a class twice and never lists the class itself. */
  lemma LinearisationIsDuplicateFree(s: Snapshot, k: KlassId)
    requires Valid(s) && k in s.klasses
    ensures NoDuplicates(AllAncestors(s, k)) && k !in AllAncestors(s, k)
  {
  }

  /** `y` is an ancestor of `x` exactly when `x` is a descendant of `y`. */
  lemma AncestorDescendantDuality(s: Snapshot, x: KlassId, y: KlassId)
    requires Valid(s) && x in s.klasses
    ensures y in AllAncestors(s, x) <==> x in Descendants(s, y)
  {
    AncestorsAreClosure(s, x, y);
  }

  /** The descendants are the children together with every child's descendants. */
  lemma {:induction false} DescendantsUnfold(s: Snapshot, k: KlassId, x: KlassId)
    requires Valid(s)
    ensures x in Descendants(s, k) <==>
              x in Children(s, k) || exists c :: c in Children(s, k) && x in Descendants(s, c)
    decreases if x in s.klasses then Rank(s, x) else 0
  {
    if x in Children(s, k) {
      assert k in Parents(s, x);
    }
    if c :| c in Children(s, k) && x in Descendants(s, c) {
      assert k in Parents(s, c);
      assert IsAncestor(s, k, c);
      AncestorTransitive(s, k, c, x);
    }
    if x in Descendants(s, k) && x !in Children(s, k) {
      var p :| p in Parents(s, x) && (p == k || IsAncestor(s, k, p));
      assert p != k;
      assert IsAncestor(s, p, x);
      DescendantsUnfold(s, k, p);
      if p in Children(s, k) {
        assert x in Descendants(s, p);
      } else {
        var c :| c in Children(s, k) && p in Descendants(s, c);
        AncestorTransitive(s, c, p, x);
        assert x in Descendants(s, c);
      }
    }
  }

  /**
   * A class sees the members of `c` exactly when `c` is the class itself or is
   * seen by one of its linearised ancestors.
   */
  lemma SeesThroughLinearisation(s: Snapshot, k: KlassId, c: KlassId)
    requires Valid(s) && k in s.klasses
    ensures Sees(s, k, c) <==> c == k || exists a :: a in AllAncestors(s, k) && Sees(s, a, c)
  {
    AncestorsAreClosure(s, k, c);
    forall a | a in AllAncestors(s, k) && Sees(s, a, c)
      ensures IsAncestor(s, c, k)
    {
      AncestorsAreClosure(s, k, a);
      if c != a {
        AncestorTransitive(s, c, a, k);
      }
    }
    if IsAncestor(s, c, k) {
      assert c in AllAncestors(s, k) && Sees(s, c, c);
    }
  }

  // ---------------------------------------------------------------------------
  // The fixed examples of the test suite.

  function Row(name: string, parents: seq<KlassId>, rank: nat): KlassRow
  {
    KlassRow(name, "m", parents, rank)
  }

  /** `C(B(A))` with ids a = 1, b = 2, c = 3. */
  function LinearSnapshot(): Snapshot
  {
    Snapshot(map[1 := Row("a", [], 0), 2 := Row("b", [1], 1), 3 := Row("c", [2], 2)], [], [])
  }

  /** `D(B, C)`, `B(A)`, `C(A)` with ids a = 1, b = 2, c = 3, d = 4. */
  function DiamondSnapshot(): Snapshot
  {
    Snapshot(map[1 := Row("a", [], 0), 2 := Row("b", [1], 1), 3 := Row("c", [1], 1),
                 4 := Row("d", [2, 3], 2)], [], [])
  }

  /** `D(A, B)`, `B(A)` with ids a = 1, b = 2, d = 4. */
  function CrossedSnapshot(): Snapshot
  {
    Snapshot(map[1 := Row("a", [], 0), 2 := Row("b", [1], 1), 4 := Row("d", [1, 2], 2)], [], [])
  }

  /** The linear chain linearises to `[B, A]`. */
  lemma LinearChain()
    ensures Valid(LinearSnapshot()) && AllAncestors(LinearSnapshot(), 3) == [2, 1]
  {
    var s := LinearSnapshot();
    assert Parents(s, 1) == [] && Parents(s, 2) == [1] && Parents(s, 3) == [2];
    assert Valid(s);
    assert AllAncestors(s, 1) == [];
    assert Expand(s, 2, 1) == [];
    assert AllAncestors(s, 2) == [1];
    assert Expand(s, 3, 1) == [];
    assert Tree(s, 3) == [2, 1];
  }

  lemma DiamondShape()
    ensures Valid(DiamondSnapshot())
    ensures Parents(DiamondSnapshot(), 1) == [] && Parents(DiamondSnapshot(), 2) == [1]
    ensures Parents(DiamondSnapshot(), 3) == [1] && Parents(DiamondSnapshot(), 4) == [2, 3]
  {
  }

  /** The diamond linearises to `[B, C, A]`. */
  lemma Diamond()
    ensures Valid(DiamondSnapshot()) && AllAncestors(DiamondSnapshot(), 4) == [2, 3, 1]
  {
    var s := DiamondSnapshot();
    DiamondShape();
    assert AllAncestors(s, 1) == [];
    assert Expand(s, 2, 1) == [] && Expand(s, 3, 1) == [];
    assert AllAncestors(s, 2) == [1];
    assert AllAncestors(s, 3) == [1];
    assert Expand(s, 4, 2) == [];
    assert Expand(s, 4, 1) == [3, 1];
    assert Tree(s, 4) == [2, 1, 3, 1];
    assert DedupLast([1]) == [1];
    assert DedupLast([3, 1]) == [3, 1];
    assert DedupLast([1, 3, 1]) == [3, 1];
  }

  /**
   * The rule is not Python's C3 order: `D(A, B)` with `B(A)` gives `[B, A]`,
   * so the declared order of `D`'s own parents (A before B) is not kept.
   */
  lemma DeclaredOrderNotKept()
    ensures Valid(CrossedSnapshot()) && AllAncestors(CrossedSnapshot(), 4) == [2, 1]
  {
    var s := CrossedSnapshot();
    assert Parents(s, 1) == [] && Parents(s, 2) == [1] && Parents(s, 4) == [1, 2];
    assert Valid(s);
    assert AllAncestors(s, 1) == [];
    assert Expand(s, 2, 1) == [];
    assert AllAncestors(s, 2) == [1];
    assert Expand(s, 4, 2) == [];
    assert Expand(s, 4, 1) == [2, 1];
    assert Tree(s, 4) == [1, 2, 1];
    assert DedupLast([1]) == [1];
    assert DedupLast([2, 1]) == [2, 1];
  }
}
