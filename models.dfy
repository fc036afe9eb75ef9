/**
 * The query methods of the stored `Klass`, `Module` and `ProjectVersion`
 * records: ancestor linearisation, descendant closure, inherited members,
 * the yUML diagram data, version sorting keys and module naming.
 */
module Models {
  import opened Wrappers
  import opened Text
  import opened Hierarchy

  // ---------------------------------------------------------------------------
  // Klass: ancestors, descendants and members.

  /**
   * `Klass.get_all_ancestors`: expand the direct parents depth-first into
   * `tree`, then scan `tree` backwards keeping each class at its last occurrence.
   */
  method GetAllAncestors(s: Snapshot, k: KlassId) returns (r: seq<KlassId>)
    requires Valid(s) && k in s.klasses
    ensures r == AllAncestors(s, k)
    decreases Rank(s, k)
  {
    var ancestors := s.klasses[k].parents;
    var tree: seq<KlassId> := [];
    for i := 0 to |ancestors|
      invariant tree + Expand(s, k, i) == Tree(s, k)
    {
      var forebears := GetAllAncestors(s, ancestors[i]);
      ExpandStep(s, k, i);
      tree := tree + [ancestors[i]] + forebears;
    }
    assert Expand(s, k, |ancestors|) == [];
    assert tree == Tree(s, k);
    var cleaned: seq<KlassId> := [];
    var j := |tree|;
    while j > 0
      invariant 0 <= j <= |tree|
      invariant cleaned == DedupLast(tree[j..])
    {
      j := j - 1;
      DedupLastSuffix(tree, j);
      if tree[j] !in cleaned {
        cleaned := [tree[j]] + cleaned;
      }
    }
    assert tree[0..] == tree;
    r := cleaned;
  }

  /** One parent's share of the expansion: the parent, then its linearised ancestors. */
  lemma ExpandStep(s: Snapshot, k: KlassId, i: nat)
    requires Valid(s) && k in s.klasses && i < |Parents(s, k)|
    ensures Expand(s, k, i) == [Parents(s, k)[i]] + AllAncestors(s, Parents(s, k)[i]) + Expand(s, k, i + 1)
  {
  }

  /** Scanning one more element from the back: kept only when it does not occur later. */
  lemma DedupLastSuffix(tree: seq<KlassId>, j: nat)
    requires j < |tree|
    ensures DedupLast(tree[j..]) ==
              if tree[j] in DedupLast(tree[j + 1..]) then DedupLast(tree[j + 1..])
              else [tree[j]] + DedupLast(tree[j + 1..])
  {
    assert tree[j..][1..] == tree[j + 1..];
  }

  /**
   * `Klass.get_all_children`: the direct children united with every child's
   * own closure.
   */
  method GetAllChildren(s: Snapshot, k: KlassId) returns (r: set<KlassId>)
    requires Valid(s) && k in s.klasses
    ensures r == Descendants(s, k)
    decreases Above(s, k)
  {
    var children := Children(s, k);
    r := children;
    var rest := children;
    while rest != {}
      invariant rest <= children
      invariant forall x :: x in r <==>
                  x in children || exists c :: c in children - rest && x in Descendants(s, c)
      decreases rest
    {
      var c := Pick(rest);
      AboveShrinks(s, k, c);
      var below := GetAllChildren(s, c);
      r := r + below;
      rest := rest - {c};
    }
    forall x
      ensures x in r <==> x in Descendants(s, k)
    {
      DescendantsUnfold(s, k, x);
    }
  }

  lemma NonEmptyHasMember<T>(t: set<T>)
    requires t != {}
    ensures exists x :: x in t
  {
    if forall x :: x !in t {
      assert false;
    }
  }

  /** Some element of a non-empty set. */
  method Pick<T>(t: set<T>) returns (x: T)
    requires t != {}
    ensures x in t
  {
    NonEmptyHasMember(t);
    x :| x in t;
  }

  /** The rows of a query result in some order: every element once. */
  method SetToSeq<T>(t: set<T>) returns (r: seq<T>)
    ensures forall x :: x in r <==> x in t
    ensures NoDuplicates(r)
  {
    r := [];
    var rest := t;
    while rest != {}
      invariant forall x :: x in t <==> x in r || x in rest
      invariant forall x :: x in r ==> x !in rest
      invariant NoDuplicates(r)
      decreases rest
    {
      var x := Pick(rest);
      r := r + [x];
      rest := rest - {x};
    }
  }

  /**
   * The shared body of `get_methods` and `get_attributes`: the rows of `pool`
   * owned by `k`, united with the same query on every linearised ancestor.
   */
  method CollectMembers<M(==)>(s: Snapshot, k: KlassId, pool: seq<M>, owner: M -> KlassId)
    returns (r: set<M>)
    requires Valid(s) && k in s.klasses
    ensures forall m :: m in r <==> m in pool && Sees(s, k, owner(m))
    decreases Rank(s, k)
  {
    r := set m | m in pool && owner(m) == k;
    var ancestors := GetAllAncestors(s, k);
    for i := 0 to |ancestors|
      invariant forall m :: m in r <==>
                  m in pool && (owner(m) == k || exists j :: 0 <= j < i && Sees(s, ancestors[j], owner(m)))
    {
      var inherited := CollectMembers(s, ancestors[i], pool, owner);
      r := r + inherited;
    }
    forall m | m in pool
      ensures Sees(s, k, owner(m)) <==>
                owner(m) == k || exists j :: 0 <= j < |ancestors| && Sees(s, ancestors[j], owner(m))
    {
      SeesThroughLinearisation(s, k, owner(m));
      if a :| a in ancestors && Sees(s, a, owner(m)) {
        var j :| 0 <= j < |ancestors| && ancestors[j] == a;
      }
    }
  }

  /** `Klass.get_methods`: every method row of the class or of one of its ancestors. */
  method GetMethods(s: Snapshot, k: KlassId) returns (r: set<Method>)
    requires Valid(s) && k in s.klasses
    ensures forall m :: m in r <==> m in s.methods && Sees(s, k, m.klass)
  {
    r := CollectMembers(s, k, s.methods, (m: Method) => m.klass);
  }

  /** `Klass.get_attributes`: every attribute row of the class or of one of its ancestors. */
  method GetAttributes(s: Snapshot, k: KlassId) returns (r: set<KlassAttribute>)
    requires Valid(s) && k in s.klasses
    ensures forall a :: a in r <==> a in s.attributes && Sees(s, k, a.klass)
  {
    r := CollectMembers(s, k, s.attributes, (a: KlassAttribute) => a.klass);
  }

  // ---------------------------------------------------------------------------
  // Klass: the yUML class diagram.

  /** `Klass.is_secondary`: helper classes drawn in white. */
  predicate IsSecondary(name: string)
    ensures IsSecondary(name) ==> |name| >= 4
  {
    StartsWith(name, "Base") || EndsWith(name, "Base") || EndsWith(name, "Mixin")
    || EndsWith(name, "Error") || name == "ProcessFormView"
  }

  lemma SecondaryNames()
    ensures IsSecondary("BaseView") && IsSecondary("FormMixin") && IsSecondary("ProcessFormView")
    ensures IsSecondary("ImproperlyConfiguredError") && IsSecondary("ModelFormBase")
    ensures !IsSecondary("View") && !IsSecondary("FormView") && !IsSecondary("UpdateView")
  {
    assert "BaseView"[..4] == "Base";
    assert "FormMixin"[4..] == "Mixin";
    assert "ImproperlyConfiguredError"[20..] == "Error";
    assert "ModelFormBase"[9..] == "Base";
    assert "FormView"[..4] != "Base" by { assert "FormView"[0] != "Base"[0]; }
    assert "FormView"[4..] != "Base" by { assert "FormView"[4] != "Base"[0]; }
    assert "UpdateView"[..4] != "Base" by { assert "UpdateView"[0] != "Base"[0]; }
    assert "UpdateView"[6..] != "Base" by { assert "UpdateView"[6] != "Base"[0]; }
    assert "UpdateView"[5..] != "Mixin" by { assert "UpdateView"[5] != "Mixin"[0]; }
    assert "UpdateView"[5..] != "Error" by { assert "UpdateView"[5] != "Error"[0]; }
    assert "FormView"[3..] != "Mixin" by { assert "FormView"[3] != "Mixin"[0]; }
    assert "FormView"[3..] != "Error" by { assert "FormView"[3] != "Error"[0]; }
  }

  function Colour(name: string): string
  {
    if IsSecondary(name) then "white" else "lightblue"
  }

  /** One line of the template `[{parent}{bg:...}]^-[{child}{bg:...}]`. */
  function EdgeText(parent: string, parentColour: string, child: string, childColour: string): string
  {
    "[" + parent + "{bg:" + parentColour + "}]^-[" + child + "{bg:" + childColour + "}]"
  }

  /** An inheritance edge to draw: parent, child, and whether the child is drawn green. */
  datatype DiagramEdge = DiagramEdge(parent: KlassId, child: KlassId, first: bool)

  /** The text of one edge: `[parent{bg:colour}]^-[child{bg:colour}]`. */
  function EdgeLine(s: Snapshot, e: DiagramEdge): (line: string)
    requires e.parent in s.klasses && e.child in s.klasses
    ensures line != "" && line[0] == '['
  {
    var child := s.klasses[e.child].name;
    var parent := s.klasses[e.parent].name;
    EdgeText(parent, Colour(parent), child, if e.first then "green" else Colour(child))
  }

  /**
   * The edges `basic_yuml_data` draws: for each direct parent in order, the
   * edge to that parent followed by the parent's own edges.
   */
  ghost function YumlEdges(s: Snapshot, k: KlassId, first: bool): (r: seq<DiagramEdge>)
    requires Valid(s) && k in s.klasses
    ensures forall e :: e in r ==> e.parent in s.klasses && e.child in s.klasses
    decreases Rank(s, k), |Parents(s, k)| + 1
  {
    YumlFrom(s, k, first, 0)
  }

  ghost function YumlFrom(s: Snapshot, k: KlassId, first: bool, i: nat): (r: seq<DiagramEdge>)
    requires Valid(s) && k in s.klasses && i <= |Parents(s, k)|
    ensures forall e :: e in r ==> e.parent in s.klasses && e.child in s.klasses
    decreases Rank(s, k), |Parents(s, k)| - i
  {
    if i == |Parents(s, k)| then []
    else
      var p := Parents(s, k)[i];
      [DiagramEdge(p, k, first)] + YumlEdges(s, p, false) + YumlFrom(s, k, first, i + 1)
  }

  /** `lines` renders `edges` one by one. */
  ghost predicate Renders(s: Snapshot, lines: seq<string>, edges: seq<DiagramEdge>)
  {
    |lines| == |edges| &&
    forall i :: 0 <= i < |edges| ==>
      edges[i].parent in s.klasses && edges[i].child in s.klasses && lines[i] == EdgeLine(s, edges[i])
  }

  lemma RendersConcat(s: Snapshot, l1: seq<string>, e1: seq<DiagramEdge>, l2: seq<string>, e2: seq<DiagramEdge>)
    requires Renders(s, l1, e1) && Renders(s, l2, e2)
    ensures Renders(s, l1 + l2, e1 + e2)
  {
    forall i | |e1| <= i < |e1| + |e2|
      ensures (e1 + e2)[i] == e2[i - |e1|] && (l1 + l2)[i] == l2[i - |e1|]
    {
    }
  }

  /** One parent more: its edge and its own edges are drawn, and the rest is still to come. */
  lemma YumlStep(s: Snapshot, k: KlassId, first: bool, i: nat, drawn: seq<DiagramEdge>)
    requires Valid(s) && k in s.klasses && i < |Parents(s, k)|
    requires drawn + YumlFrom(s, k, first, i) == YumlEdges(s, k, first)
    ensures var edges := [DiagramEdge(Parents(s, k)[i], k, first)] + YumlEdges(s, Parents(s, k)[i], false);
            (drawn + edges) + YumlFrom(s, k, first, i + 1) == YumlEdges(s, k, first)
  {
    var p := Parents(s, k)[i];
    var edges := [DiagramEdge(p, k, first)] + YumlEdges(s, p, false);
    var later := YumlFrom(s, k, first, i + 1);
    assert YumlFrom(s, k, first, i) == edges + later;
    assert drawn + (edges + later) == (drawn + edges) + later;
  }

  /** The lines drawn so far, the parent's line and the parent's own lines render the edges so far and the parent's. */
  lemma RendersStep(s: Snapshot, r: seq<string>, drawn: seq<DiagramEdge>, line: string, edge: DiagramEdge,
                    above: seq<string>, aboveEdges: seq<DiagramEdge>)
    requires Renders(s, r, drawn) && Renders(s, above, aboveEdges)
    requires edge.parent in s.klasses && edge.child in s.klasses && line == EdgeLine(s, edge)
    ensures Renders(s, r + ([line] + above), drawn + ([edge] + aboveEdges))
  {
    RendersConcat(s, [line], [edge], above, aboveEdges);
    RendersConcat(s, r, drawn, [line] + above, [edge] + aboveEdges);
  }

  /** `Klass.basic_yuml_data` without its per-object cache. */
  method BasicYumlData(s: Snapshot, k: KlassId, first: bool) returns (r: seq<string>)
    requires Valid(s) && k in s.klasses
    ensures Renders(s, r, YumlEdges(s, k, first))
    decreases Rank(s, k)
  {
    var ancestors := s.klasses[k].parents;
    r := [];
    ghost var drawn: seq<DiagramEdge> := [];
    for i := 0 to |ancestors|
      invariant drawn + YumlFrom(s, k, first, i) == YumlEdges(s, k, first)
      invariant Renders(s, r, drawn)
    {
      var ancestor := ancestors[i];
      var line := EdgeLine(s, DiagramEdge(ancestor, k, first));
      var above := BasicYumlData(s, ancestor, false);
      YumlStep(s, k, first, i, drawn);
      RendersStep(s, r, drawn, line, DiagramEdge(ancestor, k, first), above, YumlEdges(s, ancestor, false));
      r := r + ([line] + above);
      drawn := drawn + ([DiagramEdge(ancestor, k, first)] + YumlEdges(s, ancestor, false));
    }
    assert YumlFrom(s, k, first, |ancestors|) == [];
  }

  /** `e` is an inheritance edge into `k` or into one of `k`'s ancestors. */
  ghost predicate IsAncestryEdge(s: Snapshot, k: KlassId, first: bool, e: DiagramEdge)
    requires Valid(s) && k in s.klasses
  {
    e.child in s.klasses && e.parent in Parents(s, e.child) && Sees(s, k, e.child)
    && e.first == (first && e.child == k)
  }

  lemma {:induction false} YumlFromEdges(s: Snapshot, k: KlassId, first: bool, i: nat, e: DiagramEdge)
    requires Valid(s) && k in s.klasses && i <= |Parents(s, k)|
    ensures e in YumlFrom(s, k, first, i) <==>
              exists j :: i <= j < |Parents(s, k)| &&
                (e == DiagramEdge(Parents(s, k)[j], k, first) || e in YumlEdges(s, Parents(s, k)[j], false))
    decreases |Parents(s, k)| - i
  {
    if i < |Parents(s, k)| {
      YumlFromEdges(s, k, first, i + 1, e);
    }
  }

  /** Every drawn edge goes into the class or one of its ancestors. */
  lemma {:induction false} YumlEdgesSound(s: Snapshot, k: KlassId, first: bool, e: DiagramEdge)
    requires Valid(s) && k in s.klasses && e in YumlEdges(s, k, first)
    ensures IsAncestryEdge(s, k, first, e)
    decreases Rank(s, k)
  {
    var ps := Parents(s, k);
    YumlFromEdges(s, k, first, 0, e);
    var j :| 0 <= j < |ps| && (e == DiagramEdge(ps[j], k, first) || e in YumlEdges(s, ps[j], false));
    var p := ps[j];
    if e != DiagramEdge(p, k, first) {
      YumlEdgesSound(s, p, false, e);
      assert p in Parents(s, k);
      assert IsAncestor(s, p, k);
      if e.child != p {
        AncestorTransitive(s, e.child, p, k);
      }
      AncestorRank(s, e.child, k);
    }
  }

  /** Every inheritance edge into the class or one of its ancestors is drawn. */
  lemma {:induction false} YumlEdgesComplete(s: Snapshot, k: KlassId, first: bool, e: DiagramEdge)
    requires Valid(s) && k in s.klasses && IsAncestryEdge(s, k, first, e)
    ensures e in YumlEdges(s, k, first)
    decreases Rank(s, k)
  {
    var ps := Parents(s, k);
    YumlFromEdges(s, k, first, 0, e);
    if e.child == k {
      var j :| 0 <= j < |ps| && ps[j] == e.parent;
      assert e == DiagramEdge(ps[j], k, first);
    } else {
      var q :| q in ps && (q == e.child || IsAncestor(s, e.child, q));
      var j :| 0 <= j < |ps| && ps[j] == q;
      AncestorRank(s, e.child, k);
      assert IsAncestryEdge(s, q, false, e);
      YumlEdgesComplete(s, q, false, e);
    }
  }

  /**
   * The diagram draws exactly the inheritance edges into the class and into
   * its ancestors; only the class's own edges get the `first` colouring.
   */
  lemma YumlEdgesAreAncestryEdges(s: Snapshot, k: KlassId, first: bool, e: DiagramEdge)
    requires Valid(s) && k in s.klasses
    ensures e in YumlEdges(s, k, first) <==> IsAncestryEdge(s, k, first, e)
  {
    if e in YumlEdges(s, k, first) {
      YumlEdgesSound(s, k, first, e);
    }
    if IsAncestryEdge(s, k, first, e) {
      YumlEdgesComplete(s, k, first, e);
    }
  }

  /** The diagram data is empty exactly when the class has no direct parent. */
  lemma YumlEdgesEmpty(s: Snapshot, k: KlassId, first: bool)
    requires Valid(s) && k in s.klasses
    ensures YumlEdges(s, k, first) == [] <==> Parents(s, k) == []
  {
  }

  lemma {:induction false} JoinNonEmpty(parts: seq<string>, sep: string)
    requires forall i :: 0 <= i < |parts| ==> parts[i] != ""
    ensures Join(parts, sep) == "" <==> parts == []
  {
    if |parts| > 1 {
      assert |Join(parts, sep)| >= |parts[0]|;
    }
  }

  const YumlPrefix := "https://yuml.me/diagram/plain;/class/"

  /** `Klass.basic_yuml_url`: no diagram for a class without parents. */
  method BasicYumlUrl(s: Snapshot, k: KlassId) returns (r: Option<string>)
    requires Valid(s) && k in s.klasses
    ensures r == None <==> Parents(s, k) == []
    ensures r != None ==>
              exists lines :: Renders(s, lines, YumlEdges(s, k, true)) &&
                r.value == YumlPrefix + Join(lines, ", ") + ".svg"
  {
    var lines := BasicYumlData(s, k, true);
    var data := Join(lines, ", ");
    YumlEdgesEmpty(s, k, true);
    JoinNonEmpty(lines, ", ");
    if data == "" {
      r := None;
    } else {
      r := Some(YumlPrefix + data + ".svg");
    }
  }

  // ---------------------------------------------------------------------------
  // ProjectVersion: sortable version numbers.

  /** Each part zero-filled to two characters. */
  function PadParts(parts: seq<string>): (r: seq<string>)
    ensures |r| == |parts|
    ensures forall i :: 0 <= i < |parts| ==> r[i] == ZFill(parts[i], 2)
  {
    if parts == [] then [] else [ZFill(parts[0], 2)] + PadParts(parts[1..])
  }

  /**
   * `generate_sortable_version_number`: every dot-separated part zero-filled
   * to two characters, concatenated.
   */
  function SortableVersionNumber(versionNumber: string): (r: string)
    ensures '.' !in r
  {
    var padded := PadParts(Split(versionNumber, '.'));
    JoinAvoids(padded, '.');
    Join(padded, "")
  }

  /** "1.10" sorts as "0110". */
  lemma SortableExampleTwoParts()
    ensures SortableVersionNumber("1.10") == "0110"
  {
    SplitNoSeparator("10", '.');
    SplitAtSeparator("1", "10", '.');
    assert "1" + "." + "10" == "1.10";
    assert Repeat('0', 1) == "0";
    var padded := PadParts(["1", "10"]);
    assert padded[0] == ZFill("1", 2) == "01";
    assert padded[1] == ZFill("10", 2) == "10";
    assert padded == ["01", "10"];
    assert Join(padded, "") == "0110";
  }

  /** "4.2.1" sorts as "040201". */
  lemma SortableExampleThreeParts()
    ensures SortableVersionNumber("4.2.1") == "040201"
  {
    SplitNoSeparator("1", '.');
    SplitAtSeparator("2", "1", '.');
    SplitAtSeparator("4", "2.1", '.');
    assert "2" + "." + "1" == "2.1";
    assert "4" + "." + "2.1" == "4.2.1";
    assert Repeat('0', 1) == "0";
    var padded := PadParts(["4", "2", "1"]);
    assert padded[0] == ZFill("4", 2) == "04";
    assert padded[1] == ZFill("2", 2) == "02";
    assert padded[2] == ZFill("1", 2) == "01";
    assert padded == ["04", "02", "01"];
    assert Join(padded, "") == "040201";
  }

  lemma {:induction false} JoinPairs(parts: seq<string>)
    requires forall i :: 0 <= i < |parts| ==> |parts[i]| == 2
    ensures |Join(parts, "")| == 2 * |parts|
    ensures forall i :: 0 <= i < |parts| ==> Join(parts, "")[2 * i..2 * i + 2] == parts[i]
  {
    if |parts| > 1 {
      JoinPairs(parts[1..]);
      var rest := Join(parts[1..], "");
      assert Join(parts, "") == parts[0] + rest;
      forall i | 1 <= i < |parts|
        ensures Join(parts, "")[2 * i..2 * i + 2] == parts[i]
      {
        assert rest[2 * (i - 1)..2 * (i - 1) + 2] == parts[1..][i - 1];
      }
    }
  }

  /** Every part has at most two characters and no leading sign. */
  predicate ShortUnsignedParts(parts: seq<string>)
  {
    forall i :: 0 <= i < |parts| ==>
      |parts[i]| <= 2 && (parts[i] == [] || (parts[i][0] != '+' && parts[i][0] != '-'))
  }

  lemma PadShortParts(parts: seq<string>)
    requires ShortUnsignedParts(parts)
    ensures forall i :: 0 <= i < |parts| ==>
              PadParts(parts)[i] == Repeat('0', 2 - |parts[i]|) + parts[i] && |PadParts(parts)[i]| == 2
  {
  }

  /**
   * For version parts of at most two unsigned characters, the sortable number
   * has exactly two characters per part, and the i-th pair is the i-th part
   * left-padded with '0'.
   */
  lemma SortableVersionPairs(versionNumber: string)
    requires ShortUnsignedParts(Split(versionNumber, '.'))
    ensures var parts := Split(versionNumber, '.');
            var r := SortableVersionNumber(versionNumber);
            |r| == 2 * |parts| &&
            forall i :: 0 <= i < |parts| ==>
              r[2 * i..2 * i + 2] == Repeat('0', 2 - |parts[i]|) + parts[i]
  {
    var parts := Split(versionNumber, '.');
    PaddedPairs(parts);
    assert SortableVersionNumber(versionNumber) == Join(PadParts(parts), "");
  }

  /** Joining short unsigned parts after padding gives one two-character pair per part. */
  lemma PaddedPairs(parts: seq<string>)
    requires ShortUnsignedParts(parts)
    ensures var r := Join(PadParts(parts), "");
            |r| == 2 * |parts| &&
            forall i :: 0 <= i < |parts| ==> r[2 * i..2 * i + 2] == Repeat('0', 2 - |parts[i]|) + parts[i]
  {
    var padded := PadParts(parts);
    var r := Join(padded, "");
    PadShortParts(parts);
    JoinPairs(padded);
    forall i | 0 <= i < |parts|
      ensures r[2 * i..2 * i + 2] == Repeat('0', 2 - |parts[i]|) + parts[i]
    {
      assert r[2 * i..2 * i + 2] == padded[i];
    }
  }

  /** A stored project version; `save` fills the sortable number when it is empty. */
  class ProjectVersion {
    var versionNumber: string
    var sortableVersionNumber: string

    constructor (versionNumber: string)
      ensures this.versionNumber == versionNumber && sortableVersionNumber == ""
    {
      this.versionNumber := versionNumber;
      sortableVersionNumber := "";
    }

    /** `ProjectVersion.save` up to the database write. */
    method Save()
      modifies this
      ensures versionNumber == old(versionNumber)
      ensures sortableVersionNumber ==
                if old(sortableVersionNumber) == "" then SortableVersionNumber(versionNumber)
                else old(sortableVersionNumber)
    {
      if sortableVersionNumber == "" {
        sortableVersionNumber := SortableVersionNumber(versionNumber);
      }
    }
  }

  // ---------------------------------------------------------------------------
  // Module: names.

  /** `Module.short_name`: the last dotted segment of the module name. */
  function ShortName(name: string): (r: string)
    ensures '.' !in r
    ensures r == name || EndsWith(name, "." + r)
  {
    ParentAndLast(name);
    LastSegment(name)
  }

  /** A module name and each of its dotted prefixes (`a.b.c`, `a.b`, `a`). */
  ghost predicate IsDottedPrefix(q: string, name: string)
  {
    q != "" && (q == name || StartsWith(name, q + "."))
  }

  /** The value for the first of `name`, `Parent(name)`, ... that is a key of `sources`. */
  function LookupDotted(name: string, sources: map<string, string>): Option<string>
    decreases |name|
  {
    if name == "" then None
    else if name in sources then Some(sources[name])
    else
      ParentAndLast(name);
      LookupDotted(Parent(name), sources)
  }

  /** The dotted prefixes of a name other than itself are those of its parent. */
  lemma DottedPrefixStep(name: string, q: string)
    requires name != "" && q != name
    ensures IsDottedPrefix(q, name) <==> IsDottedPrefix(q, Parent(name))
  {
    ParentAndLast(name);
    var p := Parent(name);
    var last := LastSegment(name);
    if '.' in name {
      assert name == p + "." + last;
      assert forall i :: |p| < i < |name| ==> name[i] == last[i - |p| - 1];
      if IsDottedPrefix(q, name) {
        assert name[|q|] == '.';
        if |q| < |p| {
          assert p[..|q| + 1] == name[..|q| + 1];
        } else {
          assert q == name[..|q|] == p;
        }
      }
      if IsDottedPrefix(q, p) {
        if q != p {
          assert name[..|q| + 1] == p[..|q| + 1];
        } else {
          assert name[..|q| + 1] == p + ".";
        }
      }
    } else {
      assert (q + ".")[|q|] == '.';
    }
  }

  lemma DottedPrefixLength(q: string, name: string)
    requires IsDottedPrefix(q, name)
    ensures |q| <= |name|
  {
  }

  /**
   * `source_name` yields the value of the longest dotted prefix of the name
   * that is a key of the sources, and nothing when no dotted prefix is a key.
   */
  lemma {:induction false} LookupDottedIsLongestPrefix(name: string, sources: map<string, string>)
    ensures LookupDotted(name, sources) == None <==>
              forall q :: IsDottedPrefix(q, name) ==> q !in sources
    ensures LookupDotted(name, sources) != None ==>
              exists q :: IsDottedPrefix(q, name) && q in sources
                && LookupDotted(name, sources).value == sources[q]
                && forall q' :: IsDottedPrefix(q', name) && q' in sources ==> |q'| <= |q|
    decreases |name|
  {
    if name != "" {
      ParentAndLast(name);
      var p := Parent(name);
      forall q | q != name
        ensures IsDottedPrefix(q, name) <==> IsDottedPrefix(q, p)
      {
        DottedPrefixStep(name, q);
      }
      forall q' | IsDottedPrefix(q', name)
        ensures |q'| <= |name|
      {
        DottedPrefixLength(q', name);
      }
      if name in sources {
        assert IsDottedPrefix(name, name);
      } else {
        LookupDottedIsLongestPrefix(p, sources);
      }
    }
  }

  /** `Module.source_name`: walk up the dotted name until it is a key of the sources. */
  method SourceName(moduleName: string, sources: map<string, string>) returns (r: Option<string>)
    ensures r == LookupDotted(moduleName, sources)
  {
    var name := moduleName;
    while name != ""
      invariant LookupDotted(name, sources) == LookupDotted(moduleName, sources)
      decreases |name|
    {
      if name in sources {
        return Some(sources[name]);
      }
      ParentAndLast(name);
      name := Join(Split(name, '.')[..|Split(name, '.')| - 1], ".");
    }
    r := None;
  }

  /**
   * `Module.long_name`: the short name alone when it equals the source name
   * up to case, otherwise the source name, a space and the short name. A
   * module without a source name fails on `None.lower()`.
   */
  method LongName(moduleName: string, sources: map<string, string>) returns (r: Result<string>)
    ensures r.Err? <==> forall q :: IsDottedPrefix(q, moduleName) ==> q !in sources
    ensures r.Err? ==> r.error == AttributeError("'NoneType' object has no attribute 'lower'")
    ensures r.Ok? ==> r.value == ShortName(moduleName) || EndsWith(r.value, " " + ShortName(moduleName))
    ensures LookupDotted(moduleName, sources).Some? &&
            Lower(ShortName(moduleName)) == Lower(LookupDotted(moduleName, sources).value) ==>
              r == Ok(ShortName(moduleName))
    ensures LookupDotted(moduleName, sources).Some? &&
            Lower(ShortName(moduleName)) != Lower(LookupDotted(moduleName, sources).value) ==>
              r == Ok(LookupDotted(moduleName, sources).value + " " + ShortName(moduleName))
  {
    var shortName := ShortName(moduleName);
    var sourceName := SourceName(moduleName, sources);
    NoSourceWithoutPrefix(moduleName, sources);
    if sourceName == None {
      return Err(AttributeError("'NoneType' object has no attribute 'lower'"));
    }
    if Lower(shortName) == Lower(sourceName.value) {
      r := Ok(shortName);
    } else {
      r := Ok(sourceName.value + " " + shortName);
      EndsWithAppended(sourceName.value, " " + shortName);
      assert sourceName.value + " " + shortName == sourceName.value + (" " + shortName);
    }
  }

  /** No source name exactly when no dotted prefix of the name is a source. */
  lemma NoSourceWithoutPrefix(name: string, sources: map<string, string>)
    ensures LookupDotted(name, sources) == None <==> forall q :: IsDottedPrefix(q, name) ==> q !in sources
  {
    LookupDottedIsLongestPrefix(name, sources);
  }

  lemma EndsWithAppended(a: string, b: string)
    ensures EndsWith(a + b, b)
  {
    assert (a + b)[|a + b| - |b|..] == b;
  }
}
