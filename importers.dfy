/**
 * The pure helpers of the code importer. The results of Python's
 * introspection (source lines, the formatted argument list, `sys.path`, which
 * modules expose a class, whether a member comes from `object`) are inputs.
 */
module Importers {
  import opened Wrappers
  import opened Text
  import Models

  // ---------------------------------------------------------------------------
  // Attribute values.

  /** A Python value read off a class: a string, or anything else with its `str()` text. */
  datatype PyValue = Str(text: string) | Other(text: string)

  /** A string in single quotes. */
  function Quote(s: string): (r: string)
    ensures |r| == |s| + 2 && r[0] == '\'' && r[|r| - 1] == '\'' && r[1..|r| - 1] == s
  {
    "'" + s + "'"
  }

  /** `get_value`: strings are shown quoted, every other value by its `str()` text. */
  function GetValue(v: PyValue): (r: string)
    ensures v.Str? ==> |r| == |v.text| + 2 && r[0] == '\'' && r[|r| - 1] == '\'' && r[1..|r| - 1] == v.text
    ensures v.Other? ==> r == v.text
  {
    match v
    case Str(s) => Quote(s)
    case Other(t) => t
  }

  // ---------------------------------------------------------------------------
  // Which members are stored.

  const BannedAttrNames: seq<string> :=
    ["__all__", "__builtins__", "__class__", "__dict__", "__doc__", "__file__", "__module__",
     "__name__", "__package__", "__path__", "__spec__", "__weakref__"]

  /**
   * `ok_to_add_attribute`. `inheritedFromObject` says that the member is one
   * of the values of `object.__dict__`.
   */
  function OkToAddAttribute(parentIsClass: bool, inheritedFromObject: bool, name: string): (r: bool)
    ensures r ==> name !in BannedAttrNames && !(parentIsClass && inheritedFromObject)
    ensures name !in BannedAttrNames && !(parentIsClass && inheritedFromObject) ==> r
  {
    if parentIsClass && inheritedFromObject then false
    else if name in BannedAttrNames then false
    else true
  }

  /** Every banned name is a double-underscore name. */
  lemma BannedNamesAreDunder()
    ensures forall n :: n in BannedAttrNames ==> StartsWith(n, "__") && EndsWith(n, "__")
  {
    forall n | n in BannedAttrNames
      ensures StartsWith(n, "__") && EndsWith(n, "__")
    {
      assert n[..2] == "__" && n[|n| - 2..] == "__";
    }
  }

  /** A name without a leading double underscore is only refused when it comes from `object`. */
  lemma OrdinaryNamesPass(parentIsClass: bool, inheritedFromObject: bool, name: string)
    requires !StartsWith(name, "__")
    ensures OkToAddAttribute(parentIsClass, inheritedFromObject, name) <==>
              !(parentIsClass && inheritedFromObject)
  {
    BannedNamesAreDunder();
  }

  /**
   * `ok_to_add_method`: the method comes from the class's source file, the
   * parent is a class, and the method's first line lies between the class's
   * first line and that line plus the class's line count, both ends included.
   */
  function OkToAddMethod(sameSourceFile: bool, parentIsClass: bool, startLine: int,
                         parentStartLine: int, parentLineCount: nat): (r: bool)
    ensures r ==> sameSourceFile && parentIsClass
    ensures r ==> parentStartLine <= startLine <= parentStartLine + parentLineCount
  {
    if !sameSourceFile then false
    else if !parentIsClass then false
    else if startLine < parentStartLine || startLine > parentStartLine + parentLineCount then false
    else true
  }

  /**
   * Every line of the class body is accepted, and so is the first line after
   * it: the upper bound counts one line past the class's last line.
   */
  lemma MethodLinesAccepted(startLine: int, parentStartLine: int, parentLineCount: nat)
    requires parentStartLine <= startLine <= parentStartLine + parentLineCount
    ensures OkToAddMethod(true, true, startLine, parentStartLine, parentLineCount)
    ensures OkToAddMethod(true, true, parentStartLine + parentLineCount, parentStartLine, parentLineCount)
    ensures !OkToAddMethod(true, true, parentStartLine + parentLineCount + 1, parentStartLine, parentLineCount)
  {
  }

  // ---------------------------------------------------------------------------
  // Dotted paths.

  /** `_full_path`: the module name, a dot and the class name. */
  function FullPath(moduleName: string, name: string): (r: string)
    ensures '.' !in name ==> Parent(r) == moduleName && LastSegment(r) == name
  {
    if '.' !in name then
      SplitLastSeparator(moduleName, name, '.');
      JoinSplit(moduleName, '.');
      var parts := Split(moduleName, '.') + [name];
      assert parts[..|parts| - 1] == Split(moduleName, '.');
      moduleName + "." + name
    else moduleName + "." + name
  }

  /** A dotted prefix of `name` other than `name` itself. */
  ghost predicate IsProperDottedPrefix(q: string, name: string)
  {
    Models.IsDottedPrefix(q, name) && q != name
  }

  /** Of `name`, `Parent(name)`, ... the shortest non-empty one in `exposes`. */
  function Shallowest(name: string, exposes: set<string>): Option<string>
    decreases |name|
  {
    if name == "" then None
    else
      ParentAndLast(name);
      match Shallowest(Parent(name), exposes)
      case Some(q) => Some(q)
      case None => if name in exposes then Some(name) else None
  }

  lemma {:induction false} ShallowestIsShortest(name: string, exposes: set<string>)
    ensures Shallowest(name, exposes) == None <==>
              forall q :: Models.IsDottedPrefix(q, name) ==> q !in exposes
    ensures Shallowest(name, exposes) != None ==>
              Models.IsDottedPrefix(Shallowest(name, exposes).value, name) &&
              Shallowest(name, exposes).value in exposes &&
              forall q :: Models.IsDottedPrefix(q, name) && q in exposes ==>
                |Shallowest(name, exposes).value| <= |q|
    decreases |name|
  {
    if name != "" {
      ParentAndLast(name);
      var p := Parent(name);
      forall q | q != name
        ensures Models.IsDottedPrefix(q, name) <==> Models.IsDottedPrefix(q, p)
      {
        Models.DottedPrefixStep(name, q);
      }
      forall q | Models.IsDottedPrefix(q, p)
        ensures |q| <= |p|
      {
        Models.DottedPrefixLength(q, p);
      }
      ShallowestIsShortest(p, exposes);
      assert Models.IsDottedPrefix(name, name);
    }
  }

  /**
   * `_get_best_import_path_for_class`: walk up the class's module path and
   * keep the last (so the shortest) enclosing module that exposes the class;
   * without one, the module itself. `exposes` holds the module paths whose
   * module has the class under its own name.
   */
  method BestImportPath(moduleName: string, exposes: set<string>) returns (r: string)
    ensures (forall q :: IsProperDottedPrefix(q, moduleName) ==> q !in exposes) ==> r == moduleName
    ensures (exists q :: IsProperDottedPrefix(q, moduleName) && q in exposes) ==>
              IsProperDottedPrefix(r, moduleName) && r in exposes &&
              forall q :: IsProperDottedPrefix(q, moduleName) && q in exposes ==> |r| <= |q|
  {
    var modulePath := moduleName;
    r := moduleName;
    ParentAndLast(modulePath);
    modulePath := Parent(modulePath);
    ghost var top := modulePath;
    while modulePath != ""
      invariant (match Shallowest(modulePath, exposes) case Some(q) => q case None => r)
                == (match Shallowest(top, exposes) case Some(q) => q case None => moduleName)
      decreases |modulePath|
    {
      if modulePath in exposes {
        r := modulePath;
      }
      ParentAndLast(modulePath);
      modulePath := Parent(modulePath);
    }
    ShallowestIsShortest(top, exposes);
    if moduleName != "" {
      forall q | q != moduleName
        ensures Models.IsDottedPrefix(q, moduleName) <==> Models.IsDottedPrefix(q, top)
      {
        Models.DottedPrefixStep(moduleName, q);
      }
    } else {
      assert forall q :: !Models.IsDottedPrefix(q, top);
    }
  }

  // ---------------------------------------------------------------------------
  // Source code, arguments and file names.

  /** The leading-whitespace count of a line: its length minus that of its `lstrip()`. */
  function Indentation(line: string): (w: nat)
    ensures w <= |line| && line[w..] == LStrip(line)
  {
    |line| - |LStrip(line)|
  }

  /** `line[w:]`, which is empty when `w` is past the end. */
  function DropFront(line: string, w: nat): (r: string)
    ensures w <= |line| ==> line[..w] + r == line
    ensures w >= |line| ==> r == ""
  {
    if w >= |line| then "" else line[w..]
  }

  /** Every line with its first `w` characters dropped. */
  function Dedent(lines: seq<string>, w: nat): seq<string>
  {
    seq(|lines|, i requires 0 <= i < |lines| => DropFront(lines[i], w))
  }

  /** A list whose every line is the input line with `w` characters dropped is the dedented list. */
  lemma DedentEach(lines: seq<string>, w: nat, out: seq<string>)
    requires |out| == |lines| && forall j :: 0 <= j < |lines| ==> out[j] == DropFront(lines[j], w)
    ensures out == Dedent(lines, w)
  {
  }

  /** The first line's indentation is all removed from it: it comes out stripped on the left. */
  lemma FirstLineStripped(lines: seq<string>)
    requires lines != []
    ensures Dedent(lines, Indentation(lines[0]))[0] == LStrip(lines[0])
  {
  }

  /** Lines that all start with the same indent get it back by prefixing it. */
  lemma DedentRoundTrip(lines: seq<string>, indent: string)
    requires forall i :: 0 <= i < |lines| ==> StartsWith(lines[i], indent)
    ensures forall i :: 0 <= i < |lines| ==> indent + Dedent(lines, |indent|)[i] == lines[i]
  {
    forall i | 0 <= i < |lines|
      ensures indent + Dedent(lines, |indent|)[i] == lines[i]
    {
      var d := Dedent(lines, |indent|)[i];
      if |indent| == |lines[i]| {
        assert lines[i] == indent;
      } else {
        assert lines[i][..|indent|] + d == lines[i];
      }
    }
  }

  /** What `get_code` returns: the dedented code, the formatted arguments and the first line. */
  datatype SourceCode = SourceCode(code: string, arguments: string, startLine: int)

  /**
   * `get_code`: drop the first line's indentation from every line, in place,
   * and concatenate. The lines, the argument text and the start line are the
   * introspection results.
   */
  method GetCode(source: seq<string>, arguments: string, startLine: int) returns (r: Result<SourceCode>)
    ensures r.Err? <==> source == []
    ensures r.Err? ==> r.error == IndexError
    ensures r.Ok? ==> r.value == SourceCode(Join(Dedent(source, Indentation(source[0])), ""),
                                            arguments, startLine)
  {
    if |source| == 0 {
      return Err(IndexError);
    }
    var lines := new string[|source|](i requires 0 <= i < |source| => source[i]);
    var whitespace := Indentation(lines[0]);
    for i := 0 to lines.Length
      invariant forall j :: 0 <= j < i ==> lines[j] == DropFront(source[j], whitespace)
      invariant forall j :: i <= j < lines.Length ==> lines[j] == source[j]
    {
      lines[i] := DropFront(lines[i], whitespace);
    }
    DedentEach(source, whitespace, lines[..]);
    r := Ok(SourceCode(Join(lines[..], ""), arguments, startLine));
  }

  /** `arguments[1:-1]`: the argument text without its surrounding parentheses. */
  function Kwargs(arguments: string): (r: string)
    ensures |arguments| >= 2 ==> arguments == [arguments[0]] + r + [arguments[|arguments| - 1]]
    ensures |arguments| < 2 ==> r == ""
  {
    if |arguments| < 2 then "" else arguments[1..|arguments| - 1]
  }

  /** Parenthesising and taking the kwargs text back are inverse. */
  lemma KwargsOfParenthesised(inner: string)
    ensures Kwargs("(" + inner + ")") == inner
  {
    var a := "(" + inner + ")";
    assert a[1..|a| - 1] == inner;
  }

  /**
   * `max(p for p in sys.path if p in filename, key=len)`: the first of the
   * longest entries that occur in the file name.
   */
  function LongestContained(filename: string, paths: seq<string>): (r: Option<string>)
    ensures r.Some? ==> r.value in paths && Contains(filename, r.value)
  {
    if paths == [] then None
    else
      var n := |paths| - 1;
      var best := LongestContained(filename, paths[..n]);
      var p := paths[n];
      assert forall x :: x in paths[..n] ==> x in paths;
      if Contains(filename, p) && (best.None? || |p| > |best.value|) then Some(p) else best
  }

  /**
   * The entry chosen is the longest contained one and, among equally long
   * ones, the first; there is none exactly when no entry is contained.
   */
  lemma {:induction false} LongestContainedIsFirstLongest(filename: string, paths: seq<string>)
    ensures LongestContained(filename, paths).None? <==> forall p :: p in paths ==> !Contains(filename, p)
    ensures LongestContained(filename, paths).Some? ==>
              forall p :: p in paths && Contains(filename, p) ==> |p| <= |LongestContained(filename, paths).value|
    ensures LongestContained(filename, paths).Some? ==>
              exists i :: (0 <= i < |paths| && paths[i] == LongestContained(filename, paths).value &&
                forall j :: 0 <= j < i && Contains(filename, paths[j]) ==>
                  |paths[j]| < |LongestContained(filename, paths).value|)
    decreases |paths|
  {
    if paths != [] {
      var n := |paths| - 1;
      var init := paths[..n];
      var p := paths[n];
      LongestContainedIsFirstLongest(filename, init);
      var best := LongestContained(filename, init);
      assert paths == init + [p];
      assert forall x :: x in paths <==> x in init || x == p;
      if best.Some? {
        var i :| 0 <= i < |init| && init[i] == best.value &&
                 forall j :: 0 <= j < i && Contains(filename, init[j]) ==> |init[j]| < |best.value|;
        assert paths[i] == init[i];
        assert forall j :: 0 <= j < i ==> paths[j] == init[j];
      } else {
        assert forall j :: 0 <= j < n ==> paths[j] in init;
      }
    }
  }

  /**
   * `get_filename`: cut the longest `sys.path` entry found in the file name
   * off its front, then turn a final `.pyc` into `.py`. With no entry found,
   * `max` of nothing raises `ValueError`.
   */
  function GetFilename(filename: string, sysPath: seq<string>): (r: Result<string>)
    ensures r.Err? <==> forall p :: p in sysPath ==> !Contains(filename, p)
    ensures r.Err? ==> r.error == ValueError("max() arg is an empty sequence")
  {
    LongestContainedIsFirstLongest(filename, sysPath);
    match LongestContained(filename, sysPath)
    case None => Err(ValueError("max() arg is an empty sequence"))
    case Some(folder) =>
      ContainsLength(filename, folder);
      var rest := filename[|folder|..];
      Ok(if EndsWith(rest, ".pyc") then rest[..|rest| - 1] else rest)
  }

  /**
   * When the chosen entry is where the file name starts, the result is the
   * rest of the name, with a final `.pyc` turned into `.py`.
   */
  lemma GetFilenameUnderFolder(filename: string, sysPath: seq<string>, folder: string, tail: string)
    requires LongestContained(filename, sysPath) == Some(folder) && filename == folder + tail
    ensures EndsWith(tail, ".pyc") ==>
              GetFilename(filename, sysPath) == Ok(tail[..|tail| - 1]) && EndsWith(tail[..|tail| - 1], ".py")
    ensures !EndsWith(tail, ".pyc") ==> GetFilename(filename, sysPath) == Ok(tail)
  {
    assert filename[|folder|..] == tail;
    if EndsWith(tail, ".pyc") {
      var t := tail[..|tail| - 1];
      assert t[|t| - 3..] == tail[|tail| - 4..|tail| - 1];
    }
  }

  // ---------------------------------------------------------------------------
  // Lazily translated or reversed attribute values.

  /** The lazy counterpart of each known lazily called function. */
  const LazyFunctions: map<string, string> :=
    map["gettext" := "gettext_lazy", "reverse" := "reverse_lazy", "ugettext" := "ugettext_lazy"]

  /** The call a lazy value stands for: the lazy function's name, its arguments and keywords. */
  datatype LazyAttribute = LazyAttribute(lazyFunc: string, args: seq<PyValue>,
                                         kwargs: seq<(string, PyValue)>)

  /**
   * `LazyAttribute.__init__`: only the functions of `LazyFunctions` are
   * known; any other raises `ImproperlyConfigured`.
   */
  function NewLazyAttribute(funcName: string, args: seq<PyValue>, kwargs: seq<(string, PyValue)>)
    : (r: Result<LazyAttribute>)
    ensures r.Ok? <==> funcName in LazyFunctions
    ensures r.Ok? ==> r.value == LazyAttribute(LazyFunctions[funcName], args, kwargs)
    ensures r.Err? ==>
              r.error == ImproperlyConfigured("'" + funcName + "' not in known lazily called functions")
  {
    if funcName in LazyFunctions then Ok(LazyAttribute(LazyFunctions[funcName], args, kwargs))
    else Err(ImproperlyConfigured("'" + funcName + "' not in known lazily called functions"))
  }

  /** Each lazy name is the function's own name with `_lazy` appended. */
  lemma LazyNamesAppendSuffix()
    ensures forall f :: f in LazyFunctions ==> LazyFunctions[f] == f + "_lazy"
  {
  }

  /** The positional arguments as shown: strings quoted, others by their text. */
  function PositionalTexts(args: seq<PyValue>): seq<string>
  {
    seq(|args|, i requires 0 <= i < |args| => GetValue(args[i]))
  }

  /** One keyword argument as shown: `'key': value`. */
  function KeywordText(kv: (string, PyValue)): string
  {
    Quote(kv.0) + ": " + GetValue(kv.1)
  }

  /** The keyword arguments as shown, in order. */
  function KeywordTexts(kwargs: seq<(string, PyValue)>): seq<string>
  {
    seq(|kwargs|, i requires 0 <= i < |kwargs| => KeywordText(kwargs[i]))
  }

  /** The text of the call a lazy value stands for. */
  function CallText(la: LazyAttribute): string
  {
    la.lazyFunc + "(" + Join(PositionalTexts(la.args) + KeywordTexts(la.kwargs), ", ") + ")"
  }

  /**
   * `LazyAttribute.__repr__` as intended: every positional argument shown
   * the way `get_value` shows it, then every keyword argument as
   * `'key': value`, joined with ", " inside `lazy_func(...)`.
   */
  method Repr(la: LazyAttribute) returns (r: string)
    ensures r == CallText(la)
  {
    var arguments: seq<string> := [];
    for i := 0 to |la.args|
      invariant arguments == PositionalTexts(la.args[..i])
    {
      assert la.args[..i + 1][..i] == la.args[..i];
      arguments := arguments + [GetValue(la.args[i])];
    }
    assert la.args[..|la.args|] == la.args;
    ghost var positional := arguments;
    for i := 0 to |la.kwargs|
      invariant arguments == positional + KeywordTexts(la.kwargs[..i])
    {
      assert la.kwargs[..i + 1][..i] == la.kwargs[..i];
      arguments := arguments + [KeywordText(la.kwargs[i])];
    }
    assert la.kwargs[..|la.kwargs|] == la.kwargs;
    r := la.lazyFunc + "(" + Join(arguments, ", ") + ")";
  }

  // ---------------------------------------------------------------------------
  // `LazyAttribute.__repr__` as written.

  /**
   * `for key, value in self.kwargs` iterates the keys of the keyword
   * dictionary and unpacks each key string into two items: only a key of two
   * characters unpacks, into its two characters.
   */
  function UnpackKey(key: string): (r: Result<(string, string)>)
    ensures r.Ok? <==> |key| == 2
  {
    if |key| == 2 then Ok(([key[0]], [key[1]]))
    else if |key| > 2 then Err(ValueError("too many values to unpack (expected 2)"))
    else Err(ValueError("not enough values to unpack (expected 2, got " + NatToString(|key|) + ")"))
  }

  /** The keyword loop as written: the first key that does not unpack raises. */
  function KeywordTextsAsWritten(kwargs: seq<(string, PyValue)>): (r: Result<seq<string>>)
    ensures r.Ok? <==> forall i :: 0 <= i < |kwargs| ==> |kwargs[i].0| == 2
  {
    if kwargs == [] then Ok([])
    else
      var n := |kwargs| - 1;
      match KeywordTextsAsWritten(kwargs[..n])
      case Err(e) => Err(e)
      case Ok(init) =>
        match UnpackKey(kwargs[n].0)
        case Err(e) => Err(e)
        case Ok(kv) => Ok(init + [Quote(kv.0) + ": " + Quote(kv.1)])
  }

  /** The first positional argument that is not a string, which `", ".join` refuses. */
  function FirstNonString(args: seq<PyValue>): (r: Option<nat>)
    ensures r.None? <==> forall i :: 0 <= i < |args| ==> args[i].Str?
    ensures r.Some? ==> r.value < |args| && args[r.value].Other?
  {
    if args == [] then None
    else if args[0].Other? then Some(0)
    else match FirstNonString(args[1..])
      case Some(i) => Some(i + 1)
      case None => None
  }

  /**
   * `LazyAttribute.__repr__` as written: non-string positional arguments are
   * appended without `str()`, so the join raises `TypeError`, and keyword
   * arguments go through the key unpacking above.
   */
  function ReprAsWritten(la: LazyAttribute): (r: Result<string>)
    ensures r.Ok? <==> (forall i :: 0 <= i < |la.kwargs| ==> |la.kwargs[i].0| == 2) &&
                       (forall i :: 0 <= i < |la.args| ==> la.args[i].Str?)
  {
    match KeywordTextsAsWritten(la.kwargs)
    case Err(e) => Err(e)
    case Ok(keywords) =>
      match FirstNonString(la.args)
      case Some(i) => Err(TypeError("sequence item " + NatToString(i) + ": expected str instance"))
      case None => Ok(la.lazyFunc + "(" + Join(PositionalTexts(la.args) + keywords, ", ") + ")")
  }

  /** Without keyword arguments and with string arguments only, both agree. */
  lemma AsWrittenAgreesOnStrings(la: LazyAttribute)
    requires la.kwargs == [] && forall i :: 0 <= i < |la.args| ==> la.args[i].Str?
    ensures ReprAsWritten(la) == Ok(CallText(la))
  {
    assert KeywordTexts(la.kwargs) == [];
  }

  /** `reverse_lazy("detail", kwargs={...})`: its keyword `kwargs` does not unpack into two. */
  lemma KeywordArgumentBreaksAsWritten()
    ensures ReprAsWritten(LazyAttribute("reverse_lazy", [Str("detail")], [("kwargs", Other("{'pk': 1}"))]))
              == Err(ValueError("too many values to unpack (expected 2)"))
  {
    var kwargs := [("kwargs", Other("{'pk': 1}"))];
    assert kwargs[..0] == [];
    assert KeywordTextsAsWritten(kwargs[..0]) == Ok([]);
    assert UnpackKey("kwargs") == Err(ValueError("too many values to unpack (expected 2)"));
  }

  lemma KeywordExampleTexts()
    ensures PositionalTexts([Str("detail")]) + KeywordTexts([("kwargs", Other("{'pk': 1}"))])
              == ["'detail'", "'kwargs': {'pk': 1}"]
  {
    var kwargs := [("kwargs", Other("{'pk': 1}"))];
    assert GetValue(Str("detail")) == "'detail'";
    assert PositionalTexts([Str("detail")]) == ["'detail'"];
    assert Quote("kwargs") == "'kwargs'";
    assert KeywordText(kwargs[0]) == "'kwargs'" + ": " + "{'pk': 1}" == "'kwargs': {'pk': 1}";
    assert KeywordTexts(kwargs) == ["'kwargs': {'pk': 1}"];
  }

  /** The same value as the intended `repr` shows it. */
  lemma KeywordArgumentShown()
    ensures CallText(LazyAttribute("reverse_lazy", [Str("detail")], [("kwargs", Other("{'pk': 1}"))]))
              == "reverse_lazy('detail', 'kwargs': {'pk': 1})"
  {
    var texts := ["'detail'", "'kwargs': {'pk': 1}"];
    KeywordExampleTexts();
    assert texts[1..] == ["'kwargs': {'pk': 1}"];
    assert Join(texts, ", ") == "'detail'" + ", " + "'kwargs': {'pk': 1}";
  }

  /** A non-string positional argument reaches the join unconverted. */
  lemma NonStringArgumentBreaksAsWritten()
    ensures ReprAsWritten(LazyAttribute("gettext_lazy", [Other("5")], []))
              == Err(TypeError("sequence item 0: expected str instance"))
    ensures CallText(LazyAttribute("gettext_lazy", [Other("5")], [])) == "gettext_lazy(5)"
  {
    var args := [Other("5")];
    assert PositionalTexts(args) == ["5"];
    assert KeywordTexts([]) == [];
    assert PositionalTexts(args) + KeywordTexts([]) == ["5"];
    assert FirstNonString(args) == Some(0);
    assert DigitChar(0) == '0';
    assert NatToString(0) == "0";
    assert KeywordTextsAsWritten([]) == Ok([]);
    assert "sequence item " + NatToString(0) + ": expected str instance"
             == "sequence item 0: expected str instance";
  }
}
