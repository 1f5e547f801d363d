/** The string methods the program relies on, for ASCII text. */
module Text {
  function LowerChar(c: char): char { if 'A' <= c <= 'Z' then c + ('a' - 'A') else c }

  function UpperChar(c: char): char { if 'a' <= c <= 'z' then c - ('a' - 'A') else c }

  function Lower(s: string): (r: string)
    ensures |r| == |s| && forall k :: 0 <= k < |s| ==> r[k] == LowerChar(s[k])
  {
    seq(|s|, k requires 0 <= k < |s| => LowerChar(s[k]))
  }

  function Upper(s: string): (r: string)
    ensures |r| == |s| && forall k :: 0 <= k < |s| ==> r[k] == UpperChar(s[k])
  {
    seq(|s|, k requires 0 <= k < |s| => UpperChar(s[k]))
  }

  /** The ASCII characters that `strip()` and `\s` take for blanks. */
  predicate IsSpace(c: char) { c == ' ' || '\t' <= c <= '\r' || '\U{1C}' <= c <= '\U{1F}' }

  function StripLeft(s: string): string {
    if s != "" && IsSpace(s[0]) then StripLeft(s[1..]) else s
  }

  function StripRight(s: string): string {
    if s != "" && IsSpace(s[|s| - 1]) then StripRight(s[..|s| - 1]) else s
  }

  function Strip(s: string): string { StripRight(StripLeft(s)) }

  // ---- What they mean ----

  /** One is a capital letter of the 26, the other the same letter in lower case. */
  predicate CapitalOf(c: char, d: char) {
    exists k :: 0 <= k < 26 && c == "ABCDEFGHIJKLMNOPQRSTUVWXYZ"[k] && d == "abcdefghijklmnopqrstuvwxyz"[k]
  }

  /** Two texts differ in the case of letters only. */
  predicate SameLetters(s: string, t: string) {
    |s| == |t| && forall k :: 0 <= k < |s| ==> s[k] == t[k] || CapitalOf(s[k], t[k]) || CapitalOf(t[k], s[k])
  }

  lemma CapitalIs(c: char, d: char)
    ensures CapitalOf(c, d) <==> 'A' <= c <= 'Z' && d as int == c as int + 32
  {
    var big, small := "ABCDEFGHIJKLMNOPQRSTUVWXYZ", "abcdefghijklmnopqrstuvwxyz";
    assert forall k :: 0 <= k < 26 ==> big[k] as int == 65 + k && small[k] as int == 97 + k;
    if 'A' <= c <= 'Z' && d as int == c as int + 32 {
      var k := c as int - 65;
      assert c == big[k] && d == small[k];
    }
  }

  /** Lower-casing, or upper-casing, tells texts apart exactly when they differ in more than that. */
  lemma CaseFolds(s: string, t: string)
    ensures Lower(s) == Lower(t) <==> SameLetters(s, t)
    ensures Upper(s) == Upper(t) <==> SameLetters(s, t)
    ensures forall k :: 0 <= k < |s| ==> !('A' <= Lower(s)[k] <= 'Z') && !('a' <= Upper(s)[k] <= 'z')
  {
    hide CapitalOf;
    forall k | 0 <= k < |s| && k < |t|
      ensures CapitalOf(s[k], t[k]) <==> 'A' <= s[k] <= 'Z' && t[k] as int == s[k] as int + 32
      ensures CapitalOf(t[k], s[k]) <==> 'A' <= t[k] <= 'Z' && s[k] as int == t[k] as int + 32
    {
      CapitalIs(s[k], t[k]);
      CapitalIs(t[k], s[k]);
    }
    if Lower(s) == Lower(t) {
      forall k | 0 <= k < |s| ensures LowerChar(s[k]) == LowerChar(t[k]) { assert Lower(s)[k] == Lower(t)[k]; }
    }
    if Upper(s) == Upper(t) {
      forall k | 0 <= k < |s| ensures UpperChar(s[k]) == UpperChar(t[k]) { assert Upper(s)[k] == Upper(t)[k]; }
    }
  }

  const BLANKS: string := " \t\n\U{0B}\U{0C}\r\U{1C}\U{1D}\U{1E}\U{1F}"

  predicate IsBlank(c: char) { c in BLANKS }

  predicate Blank(s: string) { forall k :: 0 <= k < |s| ==> IsBlank(s[k]) }

  lemma SpaceIsBlank(c: char)
    ensures IsSpace(c) <==> IsBlank(c)
  {
    assert BLANKS[0] == ' ' && BLANKS[1] == '\t' && BLANKS[2] == '\n' && BLANKS[5] == '\r';
    assert BLANKS[3] == '\U{0B}' && BLANKS[4] == '\U{0C}';
    assert BLANKS[6] == '\U{1C}' && BLANKS[7] == '\U{1D}' && BLANKS[8] == '\U{1E}' && BLANKS[9] == '\U{1F}';
  }

  lemma {:induction false} LeftStripped(s: string) returns (n: nat)
    ensures n <= |s| && StripLeft(s) == s[n..] && Blank(s[..n]) && (n < |s| ==> !IsBlank(s[n]))
  {
    hide IsSpace, IsBlank;
    n := 0;
    if s != "" {
      SpaceIsBlank(s[0]);
      if IsSpace(s[0]) {
        var m := LeftStripped(s[1..]);
        n := m + 1;
        assert s[..n] == [s[0]] + s[1..][..m] && s[1..][m..] == s[n..];
      }
    }
  }

  lemma {:induction false} RightStripped(s: string) returns (n: nat)
    ensures n <= |s| && StripRight(s) == s[..n] && Blank(s[n..]) && (n > 0 ==> !IsBlank(s[n - 1]))
  {
    hide IsSpace, IsBlank;
    n := |s|;
    if s != "" {
      var last := |s| - 1;
      SpaceIsBlank(s[last]);
      if IsSpace(s[last]) {
        n := RightStripped(s[..last]);
        assert s[n..] == s[..last][n..] + [s[last]] && s[..last][..n] == s[..n];
      }
    }
  }

  /** Stripping takes the blanks away at both ends, and nothing but blanks. */
  lemma Stripped(s: string) returns (a: string, b: string)
    ensures s == a + Strip(s) + b && Blank(a) && Blank(b)
    ensures Strip(s) != "" ==> !IsBlank(Strip(s)[0]) && !IsBlank(Strip(s)[|Strip(s)| - 1])
  {
    hide Blank, IsBlank, StripLeft, StripRight;
    var n := LeftStripped(s);
    var t := s[n..];
    var m := RightStripped(t);
    a, b := s[..n], t[m..];
    Pieces(s, n, m);
  }

  lemma Pieces(s: string, n: nat, m: nat)
    requires n <= |s| && m <= |s[n..]|
    ensures s == s[..n] + s[n..][..m] + s[n..][m..]
    ensures m > 0 ==> s[n..][..m][0] == s[n] && s[n..][..m][m - 1] == s[n..][m - 1]
  {
  }
}
