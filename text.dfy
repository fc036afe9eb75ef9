/**
 * The string operations of Python's `str` that the modelled code relies on:
 * `split`, `join`, `lstrip`/`strip`, `startswith`/`endswith`, substring `in`,
 * `lower`, `zfill` and decimal rendering of integers.
 */
module Text {

  /** The characters for which Python's `str.isspace` holds. */
  predicate IsWhitespace(c: char)
  {
    c == ' ' || c == '\t' || c == '\n' || c == '\r' || c == '\U{0B}' || c == '\U{0C}'
    || c == '\U{1C}' || c == '\U{1D}' || c == '\U{1E}' || c == '\U{1F}'
    || c == '\U{85}' || c == '\U{A0}' || c == '\U{1680}'
    || ('\U{2000}' <= c <= '\U{200A}')
    || c == '\U{2028}' || c == '\U{2029}' || c == '\U{202F}' || c == '\U{205F}' || c == '\U{3000}'
  }

  /**
   * The characters Python 2's byte-string `strip()` removes: space, tab,
   * line feed, vertical tab, form feed and carriage return.
   */
  predicate IsAsciiWhitespace(c: char)
  {
    c == ' ' || c == '\t' || c == '\n' || c == '\r' || c == '\U{0B}' || c == '\U{0C}'
  }

  /** `s` without its leading characters of the class `ws`. */
  function LStripBy(s: string, ws: char -> bool): (r: string)
    ensures |r| <= |s| && r == s[|s| - |r|..]
    ensures forall i :: 0 <= i < |s| - |r| ==> ws(s[i])
    ensures r == [] || !ws(r[0])
  {
    if |s| > 0 && ws(s[0]) then LStripBy(s[1..], ws) else s
  }

  /** `s` without its trailing characters of the class `ws`. */
  function RStripBy(s: string, ws: char -> bool): (r: string)
    ensures |r| <= |s| && r == s[..|r|]
    ensures forall i :: |r| <= i < |s| ==> ws(s[i])
    ensures r == [] || !ws(r[|r| - 1])
  {
    if |s| > 0 && ws(s[|s| - 1]) then RStripBy(s[..|s| - 1], ws) else s
  }

  /** `s.lstrip()`: `s` without its leading whitespace. */
  function LStrip(s: string): (r: string)
    ensures |r| <= |s| && r == s[|s| - |r|..]
    ensures forall i :: 0 <= i < |s| - |r| ==> IsWhitespace(s[i])
    ensures r == [] || !IsWhitespace(r[0])
  {
    LStripBy(s, IsWhitespace)
  }

  /** `s.strip()`. */
  function Strip(s: string): string
  {
    RStripBy(LStripBy(s, IsWhitespace), IsWhitespace)
  }

  /** Python 2's `s.strip()` on a byte string: only ASCII whitespace goes. */
  function AsciiStrip(s: string): string
  {
    RStripBy(LStripBy(s, IsAsciiWhitespace), IsAsciiWhitespace)
  }

  /** A trailing `\x1c` survives the byte-string strip but not `str.strip()`. */
  lemma AsciiStripKeepsSeparators()
    ensures AsciiStrip("x \U{1C}") == "x \U{1C}"
    ensures Strip("x \U{1C}") == "x"
  {
    var s := "x \U{1C}";
    assert !IsWhitespace(s[0]) && !IsAsciiWhitespace(s[0]);
    assert LStripBy(s, IsAsciiWhitespace) == s;
    assert !IsAsciiWhitespace(s[2]);
    assert RStripBy(s, IsAsciiWhitespace) == s;
    assert LStripBy(s, IsWhitespace) == s;
    assert IsWhitespace(s[2]) && s[..2] == "x ";
    assert RStripBy(s, IsWhitespace) == RStripBy("x ", IsWhitespace);
    assert IsWhitespace("x "[1]) && "x "[..1] == "x";
    assert RStripBy("x ", IsWhitespace) == RStripBy("x", IsWhitespace);
    assert !IsWhitespace("x"[0]);
  }

  predicate StartsWith(s: string, prefix: string)
  {
    |prefix| <= |s| && s[..|prefix|] == prefix
  }

  predicate EndsWith(s: string, suffix: string)
  {
    |suffix| <= |s| && s[|s| - |suffix|..] == suffix
  }

  /** `part in s` for strings: `part` occurs somewhere in `s`. */
  predicate Contains(s: string, part: string)
    decreases |s|
  {
    StartsWith(s, part) || (|s| > 0 && Contains(s[1..], part))
  }

  /** A string only contains strings no longer than itself. */
  lemma {:induction false} ContainsLength(s: string, part: string)
    requires Contains(s, part)
    ensures |part| <= |s|
    decreases |s|
  {
    if !StartsWith(s, part) {
      ContainsLength(s[1..], part);
    }
  }

  /** `s.split(sep)`: the pieces between separators, empty pieces included. */
  function Split(s: string, sep: char): (parts: seq<string>)
    ensures |parts| >= 1
    ensures forall i :: 0 <= i < |parts| ==> sep !in parts[i]
  {
    if |s| == 0 then [""]
    else
      var rest := Split(s[1..], sep);
      if s[0] == sep then [""] + rest
      else [[s[0]] + rest[0]] + rest[1..]
  }

  /** A string without the separator splits into itself alone. */
  lemma {:induction false} SplitNoSeparator(s: string, sep: char)
    requires sep !in s
    ensures Split(s, sep) == [s]
  {
    if |s| > 0 {
      SplitNoSeparator(s[1..], sep);
      assert [s[0]] + s[1..] == s;
    }
  }

  /** Splitting at the first separator: the piece before it, then the split of the rest. */
  lemma {:induction false} SplitAtSeparator(a: string, b: string, sep: char)
    requires sep !in a
    ensures Split(a + [sep] + b, sep) == [a] + Split(b, sep)
  {
    var s := a + [sep] + b;
    if |a| > 0 {
      assert s[1..] == a[1..] + [sep] + b;
      SplitAtSeparator(a[1..], b, sep);
      assert [a[0]] + a[1..] == a;
    } else {
      assert s[1..] == b;
    }
  }

  /** Splitting before a last piece without separators: the split of the front, then that piece. */
  lemma {:induction false} SplitLastSeparator(a: string, b: string, sep: char)
    requires sep !in b
    ensures Split(a + [sep] + b, sep) == Split(a, sep) + [b]
  {
    var s := a + [sep] + b;
    if |a| == 0 {
      assert s == [sep] + b && s[1..] == b;
      SplitNoSeparator(b, sep);
    } else {
      assert s[1..] == a[1..] + [sep] + b;
      SplitLastSeparator(a[1..], b, sep);
    }
  }

  /** `sep.join(parts)`. */
  function Join(parts: seq<string>, sep: string): string
  {
    if |parts| == 0 then ""
    else if |parts| == 1 then parts[0]
    else parts[0] + sep + Join(parts[1..], sep)
  }

  /** Joining without a separator brings in no character the parts lack. */
  lemma {:induction false} JoinAvoids(parts: seq<string>, c: char)
    requires forall i :: 0 <= i < |parts| ==> c !in parts[i]
    ensures c !in Join(parts, "")
  {
    if |parts| > 1 {
      JoinAvoids(parts[1..], c);
      assert parts[0] + "" + Join(parts[1..], "") == parts[0] + Join(parts[1..], "");
    }
  }

  /** Joining the pieces of a split with the same separator gives back the string. */
  lemma {:induction false} JoinSplit(s: string, sep: char)
    ensures Join(Split(s, sep), [sep]) == s
  {
    if |s| > 0 {
      var rest := Split(s[1..], sep);
      JoinSplit(s[1..], sep);
      if s[0] == sep {
        assert ([""] + rest)[1..] == rest;
      } else if |rest| > 1 {
        var parts := [[s[0]] + rest[0]] + rest[1..];
        assert parts[1..] == rest[1..];
        assert Join(rest, [sep]) == rest[0] + [sep] + Join(rest[1..], [sep]);
      }
    }
  }

  lemma {:induction false} JoinSnoc(parts: seq<string>, last: string, sep: string)
    requires |parts| >= 1
    ensures Join(parts + [last], sep) == Join(parts, sep) + sep + last
  {
    if |parts| > 1 {
      assert (parts + [last])[1..] == parts[1..] + [last];
      JoinSnoc(parts[1..], last, sep);
    }
  }

  lemma {:induction false} JoinContainsSeparator(parts: seq<string>, sep: char)
    requires |parts| >= 2
    ensures sep in Join(parts, [sep])
  {
    var j := Join(parts, [sep]);
    assert j == parts[0] + [sep] + Join(parts[1..], [sep]);
    assert j[|parts[0]|] == sep;
  }

  /** `s.split(".")[-1]`: the text after the last dot. */
  function LastSegment(s: string): (r: string)
    ensures '.' !in r
  {
    var parts := Split(s, '.');
    parts[|parts| - 1]
  }

  /**
   * `".".join(s.split(".")[:-1])`, which is also `s.rpartition(".")[0]`:
   * the text before the last dot, or "" when `s` has no dot.
   */
  function Parent(s: string): string
  {
    var parts := Split(s, '.');
    Join(parts[..|parts| - 1], ".")
  }

  /** A string is its parent, a dot and its last segment; `Parent` strictly shortens. */
  lemma ParentAndLast(s: string)
    ensures '.' in s ==> s == Parent(s) + "." + LastSegment(s)
    ensures '.' !in s ==> Parent(s) == "" && LastSegment(s) == s
    ensures s != "" ==> |Parent(s)| < |s|
  {
    var parts := Split(s, '.');
    JoinSplit(s, '.');
    var n := |parts|;
    if n == 1 {
      assert s == parts[0];
    } else {
      assert parts == parts[..n - 1] + [parts[n - 1]];
      JoinSnoc(parts[..n - 1], parts[n - 1], ".");
      JoinContainsSeparator(parts, '.');
    }
  }

  function LowerChar(c: char): char
  {
    if 'A' <= c <= 'Z' then (c as int + 32) as char else c
  }

  /** `s.lower()` on ASCII letters. */
  function Lower(s: string): (r: string)
    ensures |r| == |s|
  {
    if |s| == 0 then "" else [LowerChar(s[0])] + Lower(s[1..])
  }

  function Repeat(c: char, n: nat): (r: string)
    ensures |r| == n
    ensures forall i :: 0 <= i < n ==> r[i] == c
  {
    if n == 0 then "" else [c] + Repeat(c, n - 1)
  }

  /**
   * `s.zfill(width)`: left-pad with '0' up to `width` characters; a leading sign
   * stays in front of the padding.
   */
  function ZFill(s: string, width: nat): (r: string)
    ensures |r| == if |s| >= width then |s| else width
    ensures |s| >= width ==> r == s
    ensures |s| < width && (s == [] || (s[0] != '+' && s[0] != '-')) ==>
              r == Repeat('0', width - |s|) + s
    ensures forall c :: c in r ==> c in s || c == '0'
  {
    if |s| >= width then s
    else
      var pad := Repeat('0', width - |s|);
      if |s| > 0 && (s[0] == '+' || s[0] == '-') then [s[0]] + pad + s[1..] else pad + s
  }

  predicate IsDigit(c: char)
  {
    '0' <= c <= '9'
  }

  function DigitChar(d: nat): (c: char)
    requires d < 10
    ensures IsDigit(c) && c as int - '0' as int == d
  {
    "0123456789"[d]
  }

  function DigitValue(c: char): nat
    requires IsDigit(c)
  {
    c as int - '0' as int
  }

  /** `str(n)` for a natural number. */
  function NatToString(n: nat): (r: string)
    ensures |r| >= 1
    ensures forall i :: 0 <= i < |r| ==> IsDigit(r[i])
  {
    if n < 10 then [DigitChar(n)] else NatToString(n / 10) + [DigitChar(n % 10)]
  }

  /** `"%d" % i` and `str(i)` for an integer. */
  function IntToString(i: int): (r: string)
    ensures |r| >= 1
    ensures (r[0] == '-') <==> i < 0
  {
    if i < 0 then "-" + NatToString(-i) else NatToString(i)
  }

  /** The value of a string of decimal digits (most significant first). */
  function ParseNat(s: string): nat
    requires forall i :: 0 <= i < |s| ==> IsDigit(s[i])
  {
    if |s| == 0 then 0 else 10 * ParseNat(s[..|s| - 1]) + DigitValue(s[|s| - 1])
  }

  /** Reading back the decimal rendering of `n` gives `n`. */
  lemma {:induction false} ParseNatToString(n: nat)
    ensures ParseNat(NatToString(n)) == n
  {
    var r := NatToString(n);
    if n >= 10 {
      var q := NatToString(n / 10);
      assert r[..|r| - 1] == q;
      ParseNatToString(n / 10);
    }
  }
}
