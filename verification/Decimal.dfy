/** Decimal numerals and dotted strings: `str(n)`, `int(s)`, `".".join(...)` and `s.split(".")`. */
module Decimal {
  import opened Wrappers

  predicate IsDigit(c: char) { '0' <= c <= '9' }

  predicate AllDigits(s: string) { forall k :: 0 <= k < |s| ==> IsDigit(s[k]) }

  function DigitValue(c: char): nat
    requires IsDigit(c)
  {
    c as int - '0' as int
  }

  /** `str(n)` for a natural number. */
  function ToDecimal(n: nat): (s: string)
    ensures |s| > 0 && AllDigits(s)
  {
    if n < 10 then ['0' + n as char] else ToDecimal(n / 10) + ['0' + (n % 10) as char]
  }

  function NumeralValue(s: string): nat
    requires AllDigits(s)
  {
    if s == "" then 0 else 10 * NumeralValue(s[..|s| - 1]) + DigitValue(s[|s| - 1])
  }

  /** `int(s)` for text made of ASCII digits; anything else is a ValueError (None). */
  function ParseDecimal(s: string): Option<nat> {
    if s != "" && AllDigits(s) then Some(NumeralValue(s)) else None
  }

  lemma {:induction false} DecimalRoundTrip(n: nat)
    ensures ParseDecimal(ToDecimal(n)) == Some(n)
  {
    var s := ToDecimal(n);
    if n < 10 {
      assert s[..0] == "";
    } else {
      DecimalRoundTrip(n / 10);
      assert s[..|s| - 1] == ToDecimal(n / 10);
      assert NumeralValue(s) == 10 * NumeralValue(ToDecimal(n / 10)) + n % 10;
    }
  }

  // ---- Splitting and joining on a separator ----

  function Split(s: string, sep: char): (parts: seq<string>)
    ensures |parts| > 0
  {
    if s == "" then [""]
    else
      var rest := Split(s[1..], sep);
      if s[0] == sep then [""] + rest else [[s[0]] + rest[0]] + rest[1..]
  }

  /** `sep.join(parts)` */
  function Join(parts: seq<string>, sep: string): string {
    if |parts| == 0 then ""
    else if |parts| == 1 then parts[0]
    else parts[0] + sep + Join(parts[1..], sep)
  }

  lemma {:induction false} SplitAtSeparator(a: string, sep: char, rest: string)
    requires sep !in a
    ensures Split(a, sep) == [a]
    ensures Split(a + [sep] + rest, sep) == [a] + Split(rest, sep)
  {
    if a == "" {
      assert a + [sep] + rest == [sep] + rest;
    } else {
      SplitAtSeparator(a[1..], sep, rest);
      assert (a + [sep] + rest)[1..] == a[1..] + [sep] + rest;
      assert [a[0]] + a[1..] == a;
    }
  }

  lemma {:induction false} SplitJoin(parts: seq<string>, sep: char)
    requires |parts| > 0 && forall k :: 0 <= k < |parts| ==> sep !in parts[k]
    ensures Split(Join(parts, [sep]), sep) == parts
  {
    if |parts| == 1 {
      SplitAtSeparator(parts[0], sep, "");
    } else {
      SplitJoin(parts[1..], sep);
      SplitAtSeparator(parts[0], sep, Join(parts[1..], [sep]));
    }
  }

  // ---- Dotted object identifiers ----

  function Numerals(arcs: seq<nat>): (parts: seq<string>)
    ensures |parts| == |arcs|
    ensures forall k :: 0 <= k < |arcs| ==> parts[k] == ToDecimal(arcs[k])
  {
    if arcs == [] then [] else [ToDecimal(arcs[0])] + Numerals(arcs[1..])
  }

  /** `".".join(str(x) for x in arcs)` */
  function Dotted(arcs: seq<nat>): string { Join(Numerals(arcs), ".") }

  function ParseParts(parts: seq<string>): Option<seq<nat>> {
    if parts == [] then Some([])
    else if parts[0] == "" then ParseParts(parts[1..])
    else
      var first :- ParseDecimal(parts[0]);
      var rest :- ParseParts(parts[1..]);
      Some([first] + rest)
  }

  /** `[int(x) for x in s.split(".") if x != ""]`; None is the ValueError. */
  function Arcs(s: string): Option<seq<nat>> { ParseParts(Split(s, '.')) }

  lemma {:induction false} ParseNumerals(arcs: seq<nat>)
    ensures ParseParts(Numerals(arcs)) == Some(arcs)
  {
    if arcs != [] {
      DecimalRoundTrip(arcs[0]);
      ParseNumerals(arcs[1..]);
      assert Numerals(arcs)[1..] == Numerals(arcs[1..]);
      assert [arcs[0]] + arcs[1..] == arcs;
    }
  }

  lemma NoDotInNumerals(arcs: seq<nat>)
    ensures forall k :: 0 <= k < |arcs| ==> '.' !in Numerals(arcs)[k]
  {
  }

  /** Printing a list of arcs and reading it back gives the list. */
  lemma ArcsOfDotted(arcs: seq<nat>)
    ensures Arcs(Dotted(arcs)) == Some(arcs)
  {
    ParseNumerals(arcs);
    if arcs != [] {
      NoDotInNumerals(arcs);
      SplitJoin(Numerals(arcs), '.');
    }
  }

  /** Dots before and between the numbers, more than it takes, are ignored. */
  lemma EmptyPartsIgnored(arcs: seq<nat>, text: string)
    requires Arcs(text).Some? && arcs != []
    ensures Arcs("." + text) == Arcs(text)
    ensures Arcs(ToDecimal(arcs[0]) + "." + ("." + text)) == Some([arcs[0]] + Arcs(text).value)
  {
    SplitAtSeparator("", '.', text);
    assert "" + ['.'] + text == "." + text;
    NumeralsDiffer(arcs[0], arcs[0]);
    SplitAtSeparator(ToDecimal(arcs[0]), '.', "." + text);
    DecimalRoundTrip(arcs[0]);
    var rest := Split(text, '.');
    assert Split("." + text, '.') == [""] + rest;
    assert ([""] + rest)[1..] == rest && [""] + rest != [];
    var parts := [ToDecimal(arcs[0])] + ([""] + rest);
    assert parts[1..] == [""] + rest;
    assert ParseParts([""] + rest) == ParseParts(rest);
  }

  // ---- The string prefix test is the subtree test ----

  predicate StartsWith(s: string, p: string) { p <= s }

  predicate StrictlyUnder(x: seq<nat>, base: seq<nat>) { base < x }

  lemma SeparatedPrefix(a: string, s: string, b: string, t: string, sep: char)
    requires sep !in a && sep !in b
    ensures a + [sep] + s <= b + [sep] + t <==> a == b && s <= t
    ensures !(a + [sep] + s <= b)
  {
    var x, y := a + [sep] + s, b + [sep] + t;
    assert x[|a|] == sep && y[|b|] == sep;
    assert |a| < |b| ==> y[|a|] == b[|a|] != sep;
    assert |b| < |a| ==> x[|b|] == a[|b|] != sep;
    if x <= y {
      assert y[|a|] == sep;
      assert a == x[..|a|] == y[..|a|] == b;
      assert s == x[|a| + 1..] && t == y[|a| + 1..];
      assert y[..|x|] == x;
      assert t[..|s|] == y[|a| + 1..|x|] == s;
    }
    if a == b && s <= t {
      assert t == s + t[|s|..];
      assert y == x + t[|s|..];
    }
  }

  lemma DottedUnfold(arcs: seq<nat>)
    requires |arcs| > 0
    ensures Dotted(arcs) == if |arcs| == 1 then ToDecimal(arcs[0]) else ToDecimal(arcs[0]) + "." + Dotted(arcs[1..])
  {
    assert Numerals(arcs)[1..] == Numerals(arcs[1..]);
  }

  lemma UnderTail(x: seq<nat>, base: seq<nat>)
    requires |base| > 0 && |x| > 0
    ensures StrictlyUnder(x, base) <==>
      base[0] == x[0] && |x| > 1 && (|base| == 1 || StrictlyUnder(x[1..], base[1..]))
  {
    assert base == [base[0]] + base[1..] && x == [x[0]] + x[1..];
    if StrictlyUnder(x, base) { assert base[1..] == x[1..|base|]; }
    if |base| > 1 && base[0] == x[0] && StrictlyUnder(x[1..], base[1..]) {
      assert x[..|base|] == [x[0]] + x[1..][..|base| - 1] == base;
    }
  }

  lemma NumeralsDiffer(m: nat, n: nat)
    ensures ToDecimal(m) == ToDecimal(n) <==> m == n
    ensures '.' !in ToDecimal(m)
  {
    hide ToDecimal, ParseDecimal;
    DecimalRoundTrip(m);
    DecimalRoundTrip(n);
  }

  /** `oid.startswith(base + ".")` on printed identifiers holds exactly for the strict subtree of `base`:
      "1.3.60" is not taken for a child of "1.3.6". */
  lemma {:induction false} PrefixIsSubtree(x: seq<nat>, base: seq<nat>)
    requires |base| > 0
    ensures StartsWith(Dotted(x), Dotted(base) + ".") <==> StrictlyUnder(x, base)
  {
    if x == [] {
      assert Dotted(x) == "";
    } else {
      hide Dotted, ToDecimal, StrictlyUnder;
      DottedUnfold(x);
      DottedUnfold(base);
      UnderTail(x, base);
      var a, b := ToDecimal(base[0]), ToDecimal(x[0]);
      NumeralsDiffer(base[0], x[0]);
      NumeralsDiffer(x[0], base[0]);
      var s := if |base| == 1 then "" else Dotted(base[1..]) + ".";
      var t := if |x| == 1 then "" else Dotted(x[1..]);
      assert Dotted(base) + "." == a + ['.'] + s;
      SeparatedPrefix(a, s, b, t, '.');
      if |x| > 1 {
        assert Dotted(x) == b + ['.'] + t;
        if |base| > 1 { PrefixIsSubtree(x[1..], base[1..]); }
      }
    }
  }
}
