/** Rack positions of core/serverroom.py: the pattern a location must match, what it denotes, and the text that
    is written back. */
module Rack {
  import opened Wrappers
  import opened Text
  import Decimal

  const MAX_HEIGHT: int := 42

  // ---- The pattern ----

  predicate IsLetter(c: char) { 'A' <= c <= 'Z' || 'a' <= c <= 'z' }

  predicate IsU(c: char) { c == 'U' || c == 'u' }

  predicate IsDash(c: char) { c == '-' || c == '~' }

  predicate Blank(s: string) { forall k :: 0 <= k < |s| ==> IsSpace(s[k]) }

  predicate Letters(s: string) { forall k :: 0 <= k < |s| ==> IsLetter(s[k]) }

  predicate Numeral(s: string) { s != "" && Decimal.AllDigits(s) }

  /** The optional range part: a dash, the letter U if it is written, and the last unit. */
  datatype Tail = Tail(dash: char, gap: string, u: string, gap2: string, end: string, trailing: string)

  /** The pieces of a text that matches the pattern. */
  datatype Match = Match(leading: string, letters: string, digits: string, gap: string, u: char, gap2: string,
                         unit: string, gap3: string, tail: Option<Tail>)

  function TailText(t: Tail): string { [t.dash] + (t.gap + (t.u + (t.gap2 + (t.end + t.trailing)))) }

  /** The text a match stands for */
  function MatchText(m: Match): string {
    m.leading + (m.letters + (m.digits + (m.gap + ([m.u] + (m.gap2 + (m.unit + (m.gap3 +
      if m.tail.Some? then TailText(m.tail.value) else "")))))))
  }

  /** The pieces are what the pattern asks of them. Blanks after a dash belong to the gap before the U. */
  predicate TailFits(t: Tail) {
    && IsDash(t.dash) && Blank(t.gap) && Blank(t.gap2) && Blank(t.trailing) && Numeral(t.end)
    && (if t.u == "" then t.gap2 == "" else |t.u| == 1 && IsU(t.u[0]))
  }

  predicate Fits(m: Match) {
    && Blank(m.leading) && m.letters != "" && Letters(m.letters) && Numeral(m.digits)
    && Blank(m.gap) && IsU(m.u) && Blank(m.gap2) && Numeral(m.unit) && Blank(m.gap3)
    && (m.tail.Some? ==> TailFits(m.tail.value))
  }

  // ---- Matching from left to right ----

  datatype Class = Spaces | Alphabetic | Digits

  predicate In(k: Class, c: char) {
    match k
    case Spaces => IsSpace(c)
    case Alphabetic => IsLetter(c)
    case Digits => Decimal.IsDigit(c)
  }

  /** How far `s` stays inside a class. */
  function Span(k: Class, s: string): (n: nat)
    ensures n <= |s| && (forall i :: 0 <= i < n ==> In(k, s[i])) && (n < |s| ==> !In(k, s[n]))
  {
    if s == "" || !In(k, s[0]) then 0 else 1 + Span(k, s[1..])
  }

  /** The longest start of `s` inside a class, and what follows it. */
  function Cut(k: Class, s: string): (r: (string, string))
    ensures r.0 + r.1 == s && (forall i :: 0 <= i < |r.0| ==> In(k, r.0[i])) && (r.1 != "" ==> !In(k, r.1[0]))
  {
    var n := Span(k, s);
    (s[..n], s[n..])
  }

  function ScanTail(s: string): Option<Tail> {
    if s == "" || !IsDash(s[0]) then None else
    var (gap, b) := Cut(Spaces, s[1..]);
    var marked := b != "" && IsU(b[0]);
    var (gap2, d) := if marked then Cut(Spaces, b[1..]) else ("", b);
    var (end, e) := Cut(Digits, d);
    if end == "" || Cut(Spaces, e).1 != "" then None else
    Some(Tail(s[0], gap, if marked then [b[0]] else "", gap2, end, e))
  }

  function ScanUnit(s: string): Option<(string, string, Option<Tail>)> {
    var (unit, a) := Cut(Digits, s);
    if unit == "" then None else
    var (gap, b) := Cut(Spaces, a);
    if b == "" then Some((unit, gap, None)) else
    var tail :- ScanTail(b);
    Some((unit, gap, Some(tail)))
  }

  function Scan(s: string): Option<Match> {
    var (leading, a) := Cut(Spaces, s);
    var (letters, b) := Cut(Alphabetic, a);
    if letters == "" then None else
    var (digits, c) := Cut(Digits, b);
    if digits == "" then None else
    var (gap, d) := Cut(Spaces, c);
    if d == "" || !IsU(d[0]) then None else
    var (gap2, f) := Cut(Spaces, d[1..]);
    var u :- ScanUnit(f);
    Some(Match(leading, letters, digits, gap, d[0], gap2, u.0, u.1, u.2))
  }

  lemma HeadTail(s: string)
    requires s != ""
    ensures s == [s[0]] + s[1..]
  {
  }

  lemma ScanTailSound(s: string)
    requires ScanTail(s).Some?
    ensures TailFits(ScanTail(s).value) && TailText(ScanTail(s).value) == s
  {
    hide Cut;
    var (gap, b) := Cut(Spaces, s[1..]);
    HeadTail(s);
    var marked := b != "" && IsU(b[0]);
    if marked { HeadTail(b); }
    var (gap2, d) := if marked then Cut(Spaces, b[1..]) else ("", b);
    assert b == (if marked then [b[0]] else "") + (gap2 + d);
    var (end, e) := Cut(Digits, d);
    var (blank, none) := Cut(Spaces, e);
    assert blank == e;
  }

  lemma ScanUnitSound(s: string)
    requires ScanUnit(s).Some?
    ensures var u := ScanUnit(s).value;
      && Numeral(u.0) && Blank(u.1) && (u.2.Some? ==> TailFits(u.2.value))
      && s == u.0 + (u.1 + if u.2.Some? then TailText(u.2.value) else "")
  {
    hide Cut, ScanTail, TailText, TailFits;
    var (unit, a) := Cut(Digits, s);
    var (gap, b) := Cut(Spaces, a);
    if b != "" { ScanTailSound(b); }
  }

  /** What the scan finds are pieces of the text that fit the pattern. */
  lemma ScanSound(s: string)
    requires Scan(s).Some?
    ensures Fits(Scan(s).value) && MatchText(Scan(s).value) == s
  {
    hide Cut, ScanUnit, TailText, TailFits;
    var (leading, a) := Cut(Spaces, s);
    var (letters, b) := Cut(Alphabetic, a);
    var (digits, c) := Cut(Digits, b);
    var (gap, d) := Cut(Spaces, c);
    HeadTail(d);
    var (gap2, f) := Cut(Spaces, d[1..]);
    ScanUnitSound(f);
  }

  /** A piece of one class followed by something outside it is what Cut cuts off. */
  lemma CutOf(k: Class, p: string, rest: string)
    requires forall i :: 0 <= i < |p| ==> In(k, p[i])
    requires rest == "" || !In(k, rest[0])
    ensures Cut(k, p + rest) == (p, rest)
  {
    hide Span;
    SpanOf(k, p + rest, |p|);
  }

  lemma SpanOf(k: Class, s: string, n: nat)
    requires n <= |s| && (forall i :: 0 <= i < n ==> In(k, s[i])) && (n < |s| ==> !In(k, s[n]))
    ensures Span(k, s) == n
  {
    hide In, Span;
    var m := Span(k, s);
    assert m < |s| ==> !In(k, s[m]);
    assert n < |s| ==> !In(k, s[n]);
  }

  lemma ScanTailComplete(t: Tail)
    requires TailFits(t)
    ensures ScanTail(TailText(t)) == Some(t)
  {
    hide Cut;
    var e := t.trailing;
    var d := t.end + e;
    var b := t.u + (t.gap2 + d);
    var s := [t.dash] + (t.gap + b);
    assert s[1..] == t.gap + b;
    assert d[0] == t.end[0];
    assert b[0] == if t.u == "" then t.end[0] else t.u[0];
    CutOf(Spaces, t.gap, b);
    if t.u == "" {
      assert b == d;
    } else {
      assert b[1..] == t.gap2 + d && [b[0]] == t.u;
      CutOf(Spaces, t.gap2, d);
    }
    CutOf(Digits, t.end, e);
    CutOf(Spaces, e, "");
    assert e + "" == e;
  }

  lemma ScanUnitComplete(unit: string, gap: string, tail: Option<Tail>)
    requires Numeral(unit) && Blank(gap) && (tail.Some? ==> TailFits(tail.value))
    ensures ScanUnit(unit + (gap + if tail.Some? then TailText(tail.value) else "")) == Some((unit, gap, tail))
  {
    hide Cut, ScanTail;
    var b := if tail.Some? then TailText(tail.value) else "";
    var a := gap + b;
    if tail.Some? { ScanTailComplete(tail.value); }
    CutOf(Spaces, gap, b);
    assert a != "" ==> a[0] == if gap != "" then gap[0] else b[0];
    CutOf(Digits, unit, a);
  }

  /** The pattern is unambiguous, and the scan finds the one match there is. */
  lemma ScanComplete(m: Match)
    requires Fits(m)
    ensures Scan(MatchText(m)) == Some(m)
  {
    hide Cut, ScanUnit, TailText, TailFits;
    var f := m.unit + (m.gap3 + if m.tail.Some? then TailText(m.tail.value) else "");
    ScanUnitComplete(m.unit, m.gap3, m.tail);
    assert f[0] == m.unit[0];
    CutOf(Spaces, m.gap2, f);
    var d := [m.u] + (m.gap2 + f);
    assert d[0] == m.u && d[1..] == m.gap2 + f;
    CutOf(Spaces, m.gap, d);
    var c := m.gap + d;
    assert c[0] == if m.gap != "" then m.gap[0] else m.u;
    CutOf(Digits, m.digits, c);
    var b := m.digits + c;
    assert b[0] == m.digits[0];
    CutOf(Alphabetic, m.letters, b);
    var a := m.letters + b;
    assert a[0] == m.letters[0];
    CutOf(Spaces, m.leading, a);
  }

  // ---- Positions ----

  /** `unit` to `unitEnd`, `height` units in all */
  datatype Position = Position(rack: string, unit: int, unitEnd: int, height: int)

  function PositionOf(rack: string, first: nat, last: nat): Position {
    var unit, end := if last < first then last else first, if last < first then first else last;
    var height := end - unit + 1;
    if height > MAX_HEIGHT then Position(rack, unit, unit + MAX_HEIGHT - 1, MAX_HEIGHT) else Position(rack, unit, end, height)
  }

  function ParseRack(location: string): Option<Position> {
    var m :- Scan(location);
    var first :- Decimal.ParseDecimal(m.unit);
    var last :- Decimal.ParseDecimal(if m.tail.Some? then m.tail.value.end else m.unit);
    Some(PositionOf(Upper(m.letters + m.digits), first, last))
  }

  function Clamp(height: int): int {
    if height < 1 then 1 else if height > MAX_HEIGHT then MAX_HEIGHT else height
  }

  /** `"%d"` */
  function Integer(n: int): string { if n < 0 then "-" + Decimal.ToDecimal(-n) else Decimal.ToDecimal(n) }

  function FormatRack(rack: string, unit: int, height: int): string {
    var h := Clamp(height);
    if h == 1 then Upper(rack) + ("U" + Integer(unit))
    else Upper(rack) + ("U" + (Integer(unit) + ("-U" + Integer(unit + h - 1))))
  }

  function OccupiedUnits(p: Option<Position>): seq<int> {
    if p.None? || p.value.unitEnd < p.value.unit then [] else seq(p.value.unitEnd + 1 - p.value.unit, k => p.value.unit + k)
  }

  /** Letters and then digits, at least one of each. */
  predicate RackName(rack: string) {
    var (letters, digits) := Cut(Alphabetic, rack);
    letters != "" && Numeral(digits)
  }

  /** Letters of the alphabet up to some place, and decimal digits from there on. */
  ghost predicate IsName(rack: string) {
    exists n :: 0 < n < |rack| && OfLetters(rack, n) && OfDigits(rack, n)
  }

  predicate OfLetters(rack: string, n: int) {
    forall k :: 0 <= k < n && k < |rack| ==> 'a' <= rack[k] <= 'z' || 'A' <= rack[k] <= 'Z'
  }

  predicate OfDigits(rack: string, n: int) { forall k :: 0 <= n <= k < |rack| ==> '0' <= rack[k] <= '9' }

  lemma NameIff(rack: string)
    ensures RackName(rack) <==> IsName(rack)
  {
    hide Cut;
    var (letters, digits) := Cut(Alphabetic, rack);
    if RackName(rack) {
      assert OfLetters(rack, |letters|) && OfDigits(rack, |letters|);
    }
    if n :| 0 < n < |rack| && OfLetters(rack, n) && OfDigits(rack, n) {
      CutOf(Alphabetic, rack[..n], rack[n..]);
      assert rack[..n] + rack[n..] == rack;
    }
  }

  lemma NameSplit(letters: string, digits: string)
    requires letters != "" && Letters(letters) && Numeral(digits)
    ensures RackName(letters + digits) && Cut(Alphabetic, letters + digits) == (letters, digits)
  {
    CutOf(Alphabetic, letters, digits);
  }

  lemma UpperConcat(a: string, b: string)
    ensures Upper(a + b) == Upper(a) + Upper(b)
  {
  }

  lemma UpperOf(s: string)
    ensures Upper(Upper(s)) == Upper(s)
    ensures Decimal.AllDigits(Upper(s)) <==> Decimal.AllDigits(s)
    ensures Letters(Upper(s)) <==> Letters(s)
  {
    hide Upper;
    assert forall i :: 0 <= i < |s| ==> (Decimal.IsDigit(Upper(s)[i]) <==> Decimal.IsDigit(s[i]));
    assert forall i :: 0 <= i < |s| ==> (IsLetter(Upper(s)[i]) <==> IsLetter(s[i]));
  }

  lemma UpperCut(rack: string)
    ensures var r := Cut(Alphabetic, rack);
      Cut(Alphabetic, Upper(rack)) == (Upper(r.0), Upper(r.1))
    ensures RackName(Upper(rack)) <==> RackName(rack)
  {
    hide Cut, Upper;
    var (letters, rest) := Cut(Alphabetic, rack);
    UpperConcat(letters, rest);
    UpperOf(letters);
    UpperOf(rest);
    CutOf(Alphabetic, Upper(letters), Upper(rest));
  }

  /** Whatever is parsed is a rack name in capitals and 1 to 42 units, and those are the occupied ones. */
  lemma ParsedPosition(location: string)
    requires ParseRack(location).Some?
    ensures var p := ParseRack(location).value;
      && RackName(p.rack) && Upper(p.rack) == p.rack
      && 0 <= p.unit && 1 <= p.height <= MAX_HEIGHT && p.unitEnd == p.unit + p.height - 1
      && |OccupiedUnits(Some(p))| == p.height
      && forall u :: u in OccupiedUnits(Some(p)) <==> p.unit <= u <= p.unitEnd
  {
    hide Scan, MatchText, Cut, RackName;
    var p := ParseRack(location).value;
    var m := Scan(location).value;
    ScanSound(location);
    NameSplit(m.letters, m.digits);
    UpperCut(m.letters + m.digits);
    UpperOf(m.letters + m.digits);
    forall u | p.unit <= u <= p.unitEnd ensures u in OccupiedUnits(Some(p)) {
      assert OccupiedUnits(Some(p))[u - p.unit] == u;
    }
  }

  function FormatMatch(rack: string, unit: nat, height: int): Match {
    var h, (letters, digits) := Clamp(height), Cut(Alphabetic, Upper(rack));
    var tail := if h == 1 then None else Some(Tail('-', "", "U", "", Decimal.ToDecimal(unit + h - 1), ""));
    Match("", letters, digits, "", 'U', "", Decimal.ToDecimal(unit), "", tail)
  }

  lemma FormatMatches(rack: string, unit: nat, height: int)
    requires RackName(rack)
    ensures Fits(FormatMatch(rack, unit, height)) && MatchText(FormatMatch(rack, unit, height)) == FormatRack(rack, unit, height)
  {
    hide Cut, Decimal.ToDecimal, Upper;
    UpperCut(rack);
    var m := FormatMatch(rack, unit, height);
    assert m.letters + m.digits == Upper(rack);
    Assemble(m.letters, m.digits, m.unit, m.tail);
    if m.tail.Some? { assert TailText(m.tail.value) == "-U" + m.tail.value.end; }
  }

  lemma Assemble(letters: string, digits: string, unit: string, tail: Option<Tail>)
    ensures MatchText(Match("", letters, digits, "", 'U', "", unit, "", tail)) ==
      (letters + digits) + ("U" + (unit + if tail.Some? then TailText(tail.value) else ""))
  {
    hide TailText;
    var t := if tail.Some? then TailText(tail.value) else "";
    assert "" + t == t && "" + (unit + t) == unit + t;
    assert letters + (digits + ("U" + (unit + t))) == (letters + digits) + ("U" + (unit + t));
  }

  /** Writing a position and reading it back gives the same rack, units and height exactly when the rack is
      letters followed by digits and the unit is not negative; the height is clamped to 1..42. */
  lemma RackRoundTripIff(rack: string, unit: int, height: int)
    ensures
      var units := if height < 1 then 1 else if height > 42 then 42 else height;
      (exists end :: ParseRack(FormatRack(rack, unit, height)) == Some(Position(Upper(rack), unit, end, units))) <==>
      IsName(rack) && unit >= 0
  {
    hide ParseRack, FormatRack, RackName, IsName;
    NameIff(rack);
    if RackName(rack) && unit >= 0 {
      RackRoundTrip(rack, unit, height);
    }
    var units := if height < 1 then 1 else if height > 42 then 42 else height;
    if end :| ParseRack(FormatRack(rack, unit, height)) == Some(Position(Upper(rack), unit, end, units)) {
      ParsedPosition(FormatRack(rack, unit, height));
      UpperCut(rack);
    }
  }

  lemma RackRoundTrip(rack: string, unit: nat, height: int)
    requires RackName(rack)
    ensures
      var units := if height < 1 then 1 else if height > 42 then 42 else height;
      ParseRack(FormatRack(rack, unit, height)) == Some(Position(Upper(rack), unit, unit + units - 1, units))
  {
    hide Scan, FormatRack, MatchText, Fits, Decimal.ParseDecimal, Decimal.ToDecimal, Cut, Upper;
    var m, h := FormatMatch(rack, unit, height), Clamp(height);
    FormatMatches(rack, unit, height);
    ScanComplete(m);
    Decimal.DecimalRoundTrip(unit);
    Decimal.DecimalRoundTrip(unit + h - 1);
    UpperOf(rack);
  }

  // ---- What a location means ----

  /** Two numbers, or one, in either order, are the first and the last unit; a range of more than 42 is cut off. The rack
      is written in capitals. */
  lemma PositionMeans(m: Match, a: nat, b: nat)
    requires Fits(m) && Decimal.ParseDecimal(m.unit) == Some(a)
    requires if m.tail.Some? then Decimal.ParseDecimal(m.tail.value.end) == Some(b) else b == a
    ensures ParseRack(MatchText(m)).Some?
    ensures
      var p, least, most := ParseRack(MatchText(m)).value, if a < b then a else b, if a < b then b else a;
      && p.unit == least && p.unitEnd == (if most - least < 42 then most else least + 41)
      && p.height == p.unitEnd - p.unit + 1
      && SameLetters(p.rack, m.letters + m.digits) && (forall k :: 0 <= k < |p.rack| ==> !('a' <= p.rack[k] <= 'z'))
  {
    hide Scan, MatchText, Fits, Upper, SameLetters, Decimal.ParseDecimal;
    ScanComplete(m);
    var name := m.letters + m.digits;
    UpperOf(name);
    CaseFolds(Upper(name), name);
    CaseFolds(name, name);
  }
}
