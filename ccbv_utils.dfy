/**
 * Helpers of the static-site generator: the filtered method resolution
 * order, the parent-to-descendants map built from it, the module mapping
 * onto the configured source packages, and the page file names.
 */
module CcbvUtils {
  import opened Wrappers
  import opened Text
  import opened Hierarchy

  /** A Python class object: its identity and its `__name__`. */
  datatype PyClass = PyClass(id: int, name: string)

  /** Class names left out of every resolution order. */
  const ExcludedClasses: seq<string> :=
    ["BaseException", "Exception", "classmethod", "classonlymethod", "dict", "object"]

  // ---------------------------------------------------------------------------
  // get_mro

  /** `get_mro`: the resolution order `mro` without the classes whose name is excluded. */
  function GetMro(mro: seq<PyClass>): (r: seq<PyClass>)
    ensures |r| <= |mro|
  {
    if mro == [] then []
    else
      var rest := GetMro(mro[..|mro| - 1]);
      var last := mro[|mro| - 1];
      if last.name in ExcludedClasses then rest else rest + [last]
  }

  /** A class is kept exactly when it is in the order and its name is not excluded. */
  lemma {:induction false} GetMroMembers(mro: seq<PyClass>)
    ensures forall c :: c in GetMro(mro) <==> c in mro && c.name !in ExcludedClasses
  {
    if mro != [] {
      GetMroMembers(mro[..|mro| - 1]);
      assert mro == mro[..|mro| - 1] + [mro[|mro| - 1]];
    }
  }

  /** The filter keeps the relative order: it distributes over concatenation. */
  lemma {:induction false} GetMroConcat(a: seq<PyClass>, b: seq<PyClass>)
    ensures GetMro(a + b) == GetMro(a) + GetMro(b)
    decreases |b|
  {
    if b == [] {
      assert a + b == a;
    } else {
      var init := b[..|b| - 1];
      assert a + b == (a + init) + [b[|b| - 1]];
      assert (a + b)[..|a + b| - 1] == a + init;
      GetMroConcat(a, init);
    }
  }

  /** `object` never survives the filter. */
  lemma ObjectDropped(mro: seq<PyClass>, c: PyClass)
    requires c in mro && c.name == "object"
    ensures c !in GetMro(mro)
  {
    GetMroMembers(mro);
    assert ExcludedClasses[5] == "object";
  }

  /** `get_mro(cls)[1:]`: the filtered order without its first class. */
  function ParentsOf(mroOf: PyClass -> seq<PyClass>, c: PyClass): seq<PyClass>
  {
    var m := GetMro(mroOf(c));
    if m == [] then [] else m[1..]
  }

  // ---------------------------------------------------------------------------
  // get_all_descendents

  /** The keys of `{cls: ... for cls in klasses}`: each class once, at its first position. */
  function FirstOccurrences(xs: seq<PyClass>): (r: seq<PyClass>)
    ensures NoDuplicates(r)
    ensures forall x :: x in r <==> x in xs
  {
    if xs == [] then []
    else
      var rest := FirstOccurrences(xs[..|xs| - 1]);
      var last := xs[|xs| - 1];
      assert forall x :: x in xs <==> x in xs[..|xs| - 1] || x == last by {
        assert xs == xs[..|xs| - 1] + [last];
      }
      if last in rest then rest else rest + [last]
  }

  /** The entry of `lut` under `p`, or the empty list a default dictionary would create. */
  function Entry(lut: map<PyClass, seq<PyClass>>, p: PyClass): seq<PyClass>
  {
    if p in lut then lut[p] else []
  }

  /** `all_descendents[parent].append(c)` for every parent in `parents`, in order. */
  function Appended(lut: map<PyClass, seq<PyClass>>, c: PyClass, parents: seq<PyClass>): map<PyClass, seq<PyClass>>
  {
    if parents == [] then lut
    else
      var m := Appended(lut, c, parents[..|parents| - 1]);
      var p := parents[|parents| - 1];
      m[p := Entry(m, p) + [c]]
  }

  /** The reshaped map after the classes `ks`, each with its parents, in order. */
  function Reshape(ks: seq<PyClass>, mroOf: PyClass -> seq<PyClass>): map<PyClass, seq<PyClass>>
  {
    if ks == [] then map[]
    else
      var c := ks[|ks| - 1];
      Appended(Reshape(ks[..|ks| - 1], mroOf), c, ParentsOf(mroOf, c))
  }

  /** One parent more in the inner loop of `get_all_descendents`. */
  lemma AppendedStep(lut: map<PyClass, seq<PyClass>>, c: PyClass, parents: seq<PyClass>, j: nat)
    requires j < |parents|
    ensures var m := Appended(lut, c, parents[..j]);
            Appended(lut, c, parents[..j + 1]) == m[parents[j] := Entry(m, parents[j]) + [c]]
  {
    assert parents[..j + 1][..j] == parents[..j];
  }

  /** One class more in the outer loop of `get_all_descendents`. */
  lemma ReshapeStep(ks: seq<PyClass>, i: nat, mroOf: PyClass -> seq<PyClass>)
    requires i < |ks|
    ensures Reshape(ks[..i + 1], mroOf) == Appended(Reshape(ks[..i], mroOf), ks[i], ParentsOf(mroOf, ks[i]))
    ensures var ps := ParentsOf(mroOf, ks[i]);
            Appended(Reshape(ks[..i], mroOf), ks[i], ps[..|ps|]) == Appended(Reshape(ks[..i], mroOf), ks[i], ps)
  {
    assert ks[..i + 1][..i] == ks[..i];
    var ps := ParentsOf(mroOf, ks[i]);
    assert ps[..|ps|] == ps;
  }

  /**
   * `get_all_descendents`: invert the child-to-parents map, appending each
   * class to the list of every one of its filtered ancestors.
   */
  method GetAllDescendents(klasses: seq<PyClass>, mroOf: PyClass -> seq<PyClass>)
    returns (r: map<PyClass, seq<PyClass>>)
    ensures r == Reshape(FirstOccurrences(klasses), mroOf)
  {
    var classes := FirstOccurrences(klasses);
    r := map[];
    for i := 0 to |classes|
      invariant r == Reshape(classes[..i], mroOf)
    {
      var c := classes[i];
      var parents := ParentsOf(mroOf, c);
      ghost var before := r;
      for j := 0 to |parents|
        invariant r == Appended(before, c, parents[..j])
      {
        var p := parents[j];
        var children := if p in r then r[p] else [];
        AppendedStep(before, c, parents, j);
        r := r[p := children + [c]];
      }
      ReshapeStep(classes, i, mroOf);
    }
    assert classes[..|classes|] == classes;
  }

  /** What appending `c` under each of `parents` adds. */
  lemma {:induction false} AppendedMembers(lut: map<PyClass, seq<PyClass>>, c: PyClass, parents: seq<PyClass>)
    ensures forall p :: p in Appended(lut, c, parents) <==> p in lut || p in parents
    ensures forall p, x :: x in Entry(Appended(lut, c, parents), p) <==>
                             x in Entry(lut, p) || (p in parents && x == c)
  {
    if parents != [] {
      var init := parents[..|parents| - 1];
      var last := parents[|parents| - 1];
      AppendedMembers(lut, c, init);
      assert parents == init + [last];
      var m := Appended(lut, c, init);
      forall p, x
        ensures x in Entry(Appended(lut, c, parents), p) <==> x in Entry(lut, p) || (p in parents && x == c)
      {
        if p == last {
          assert Entry(Appended(lut, c, parents), p) == Entry(m, p) + [c];
        } else {
          assert Entry(Appended(lut, c, parents), p) == Entry(m, p);
        }
      }
    }
  }

  /** With no repeated parent, `c` is appended once under each parent. */
  lemma {:induction false} AppendedOnce(lut: map<PyClass, seq<PyClass>>, c: PyClass, parents: seq<PyClass>, p: PyClass)
    requires NoDuplicates(parents)
    ensures Entry(Appended(lut, c, parents), p) == Entry(lut, p) + (if p in parents then [c] else [])
  {
    if parents != [] {
      var init := parents[..|parents| - 1];
      var last := parents[|parents| - 1];
      assert parents == init + [last];
      assert last !in init;
      AppendedOnce(lut, c, init, p);
      if p == last {
        assert Entry(Appended(lut, c, init), p) == Entry(lut, p);
      }
    }
  }

  /** The keys of the reshaped map are exactly the classes that are someone's parent. */
  lemma {:induction false} ReshapeKeys(ks: seq<PyClass>, mroOf: PyClass -> seq<PyClass>)
    ensures forall p :: p in Reshape(ks, mroOf) <==> exists c :: c in ks && p in ParentsOf(mroOf, c)
  {
    if ks != [] {
      var init := ks[..|ks| - 1];
      var c := ks[|ks| - 1];
      ReshapeKeys(init, mroOf);
      AppendedMembers(Reshape(init, mroOf), c, ParentsOf(mroOf, c));
      assert ks == init + [c];
      forall p | p in Reshape(ks, mroOf)
        ensures exists x :: x in ks && p in ParentsOf(mroOf, x)
      {
        if p !in ParentsOf(mroOf, c) {
          var x :| x in init && p in ParentsOf(mroOf, x);
          assert x in ks;
        }
      }
    }
  }

  /**
   * The reshaped map is the inverse of the parents map: `x` is listed under
   * `p` exactly when `x` is one of the classes and `p` one of its parents.
   */
  lemma {:induction false} ReshapeEntries(ks: seq<PyClass>, mroOf: PyClass -> seq<PyClass>)
    ensures forall p, x :: x in Entry(Reshape(ks, mroOf), p) <==> x in ks && p in ParentsOf(mroOf, x)
  {
    if ks != [] {
      var init := ks[..|ks| - 1];
      var c := ks[|ks| - 1];
      ReshapeEntries(init, mroOf);
      AppendedMembers(Reshape(init, mroOf), c, ParentsOf(mroOf, c));
      assert ks == init + [c];
    }
  }

  /** The classes of `ks` that list `p` as a parent, in the order of `ks`. */
  function ChildrenOf(ks: seq<PyClass>, mroOf: PyClass -> seq<PyClass>, p: PyClass): seq<PyClass>
  {
    if ks == [] then []
    else
      var c := ks[|ks| - 1];
      ChildrenOf(ks[..|ks| - 1], mroOf, p) + (if p in ParentsOf(mroOf, c) then [c] else [])
  }

  /**
   * When no resolution order repeats a class, each list holds the children
   * in the order the classes are iterated here (their order in `ks`), one
   * entry per child.
   */
  lemma {:induction false} ReshapeOrder(ks: seq<PyClass>, mroOf: PyClass -> seq<PyClass>, p: PyClass)
    requires forall c :: c in ks ==> NoDuplicates(ParentsOf(mroOf, c))
    ensures Entry(Reshape(ks, mroOf), p) == ChildrenOf(ks, mroOf, p)
  {
    if ks != [] {
      var init := ks[..|ks| - 1];
      var c := ks[|ks| - 1];
      assert forall x :: x in init ==> x in ks;
      ReshapeOrder(init, mroOf, p);
      AppendedOnce(Reshape(init, mroOf), c, ParentsOf(mroOf, c), p);
    }
  }

  /** The classes listed under `p` by `get_all_descendents` are exactly the inputs having `p` as a parent. */
  lemma DescendentsInvertParents(klasses: seq<PyClass>, mroOf: PyClass -> seq<PyClass>, p: PyClass, x: PyClass)
    ensures x in Entry(Reshape(FirstOccurrences(klasses), mroOf), p) <==> x in klasses && p in ParentsOf(mroOf, x)
  {
    var ks := FirstOccurrences(klasses);
    ReshapeEntries(ks, mroOf);
    assert x in Entry(Reshape(ks, mroOf), p) <==> x in ks && p in ParentsOf(mroOf, x);
    assert x in ks <==> x in klasses;
  }

  // ---------------------------------------------------------------------------
  // map_module, html, index

  /** `map_module`: the first source package that prefixes `module`, else `module` itself. */
  method MapModule(moduleName: string, sources: seq<string>) returns (r: string)
    ensures (forall i :: 0 <= i < |sources| ==> !StartsWith(moduleName, sources[i])) ==> r == moduleName
    ensures (exists i :: 0 <= i < |sources| && StartsWith(moduleName, sources[i])) ==>
              exists i :: 0 <= i < |sources| && r == sources[i] && StartsWith(moduleName, r) &&
                          forall j :: 0 <= j < i ==> !StartsWith(moduleName, sources[j])
  {
    for i := 0 to |sources|
      invariant forall j :: 0 <= j < i ==> !StartsWith(moduleName, sources[j])
    {
      if StartsWith(moduleName, sources[i]) {
        return sources[i];
      }
    }
    return moduleName;
  }

  /** `html(name)`: the page file name of `name`. */
  function Html(name: string): string
  {
    name + ".html"
  }

  /** The page name ends in `.html`, and removing that suffix gives the name back. */
  lemma HtmlRoundTrip(name: string)
    ensures EndsWith(Html(name), ".html")
    ensures Html(name)[..|Html(name)| - 5] == name
  {
  }

  /** `index(path)`: `os.path.join(path, 'index.html')` for a POSIX path. */
  function Index(path: string): string
  {
    if path == [] || EndsWith(path, "/") then path + "index.html" else path + "/index.html"
  }

  /** The index page always sits directly in `path`: one `/` separates them unless `path` has it. */
  lemma IndexInDirectory(path: string)
    ensures path == [] ==> Index(path) == "index.html"
    ensures path != [] ==> StartsWith(Index(path), path) && EndsWith(Index(path), "/index.html")
  {
    if path != [] && EndsWith(path, "/") {
      assert path[|path| - 1] == '/';
      assert Index(path)[|Index(path)| - 11..] == "/index.html";
    }
  }
}
