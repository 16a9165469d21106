/**
  Python string primitives the application relies on: `str.strip` (with and
  without an explicit character set), `str.lower`, `str.startswith`,
  `str.split(sep, 1)`, `str.join` and `int(str)`.
 */
module Text {
  import opened Wrappers

  /** The characters for which Python's `str.isspace()` holds. */
  predicate IsSpace(c: char) {
    || c == ' ' || ('\t' <= c <= '\r') || ('\U{001C}' <= c <= '\U{001F}')
    || c == '\U{0085}' || c == '\U{00A0}' || c == '\U{1680}'
    || ('\U{2000}' <= c <= '\U{200A}') || c == '\U{2028}' || c == '\U{2029}'
    || c == '\U{202F}' || c == '\U{205F}' || c == '\U{3000}'
  }

  /** The characters a `strip` call removes: whitespace, or one given character. */
  datatype CharClass = Spaces | Only(ch: char)

  predicate In(c: char, cls: CharClass) {
    match cls
    case Spaces => IsSpace(c)
    case Only(ch) => c == ch
  }

  /** `s.lstrip(cs)`: drop the longest prefix made of characters in `cs`. */
  function LStrip(s: string, cs: CharClass): (r: string)
    ensures |r| <= |s| && r == s[|s| - |r|..]
    ensures forall i :: 0 <= i < |s| - |r| ==> In(s[i], cs)
    ensures r == [] || !In(r[0], cs)
  {
    if s != [] && In(s[0], cs) then LStrip(s[1..], cs) else s
  }

  /** `s.rstrip(cs)`: drop the longest suffix made of characters in `cs`. */
  function RStrip(s: string, cs: CharClass): (r: string)
    ensures |r| <= |s| && r == s[..|r|]
    ensures forall i :: |r| <= i < |s| ==> In(s[i], cs)
    ensures r == [] || !In(r[|r| - 1], cs)
  {
    if s != [] && In(s[|s| - 1], cs) then RStrip(s[..|s| - 1], cs) else s
  }

  /**
    `s.strip(cs)`: both ends. The result is the slice of `s` that starts at
    the first character outside `cs` and ends at the last one.
   */
  function Strip(s: string, cs: CharClass): (r: string)
    ensures |r| <= |s|
    ensures r == [] || (!In(r[0], cs) && !In(r[|r| - 1], cs))
  {
    RStrip(LStrip(s, cs), cs)
  }

  /** `strip` removes only characters of `cs`, and only from the ends. */
  lemma StripKeepsInner(s: string, cs: CharClass)
    ensures forall i :: 0 <= i < |s| && !In(s[i], cs) ==> s[i] in Strip(s, cs)
    ensures forall c :: c in Strip(s, cs) ==> c in s
  {
    var l := LStrip(s, cs);
    var r := RStrip(l, cs);
    forall i | 0 <= i < |s| && !In(s[i], cs) ensures s[i] in r {
      var k := i - (|s| - |l|);
      assert l[k] == s[i];
      assert r[k] == s[i];
    }
    assert forall c :: c in r ==> c in l;
  }

  /** `s.strip()` with no argument: Python whitespace. */
  function StripSpace(s: string): (r: string)
    ensures r == [] || (!IsSpace(r[0]) && !IsSpace(r[|r| - 1]))
  {
    Strip(s, Spaces)
  }

  function LowerChar(c: char): char {
    if 'A' <= c <= 'Z' then (c as int + 32) as char else c
  }

  /** `s.lower()` on ASCII letters; other characters are kept. */
  function Lower(s: string): (r: string)
    ensures |r| == |s|
    ensures forall i :: 0 <= i < |s| ==> r[i] == LowerChar(s[i])
  {
    seq(|s|, i requires 0 <= i < |s| => LowerChar(s[i]))
  }

  predicate StartsWith(s: string, prefix: string) {
    |prefix| <= |s| && s[..|prefix|] == prefix
  }

  /** The index of the first occurrence of `c` in `s`. */
  function IndexOf(s: string, c: char): (r: Option<nat>)
    ensures r.None? <==> c !in s
    ensures r.Some? ==> r.value < |s| && s[r.value] == c && c !in s[..r.value]
  {
    if s == [] then None
    else if s[0] == c then Some(0)
    else
      match IndexOf(s[1..], c)
      case None => None
      case Some(i) =>
        assert s[..i + 1] == [s[0]] + s[1..][..i];
        Some(i + 1)
  }

  /** `s.split(c, 1)` when `c` occurs: the text before and after its first occurrence. */
  function SplitOnce(s: string, c: char): (r: (string, string))
    requires c in s
    ensures c !in r.0
    ensures s == r.0 + [c] + r.1
  {
    var i := IndexOf(s, c).value;
    assert s == s[..i] + [c] + s[i + 1..];
    (s[..i], s[i + 1..])
  }

  /** `sep.join(parts)`. */
  function Join(parts: seq<string>, sep: string): string {
    if |parts| == 0 then ""
    else if |parts| == 1 then parts[0]
    else parts[0] + sep + Join(parts[1..], sep)
  }

  lemma {:induction false} JoinTwo(a: string, b: string, sep: string)
    ensures Join([a, b], sep) == a + sep + b
  {
    assert [a, b][1..] == [b];
  }

  /** Four parts joined without a separator are their concatenation. */
  lemma {:induction false} JoinFour(parts: seq<string>)
    requires |parts| == 4
    ensures Join(parts, "") == parts[0] + parts[1] + parts[2] + parts[3]
  {
    assert parts[1..][1..] == parts[2..];
    assert parts[2..][1..] == [parts[3]];
    assert Join(parts[2..], "") == parts[2] + parts[3];
    assert Join(parts[1..], "") == parts[1] + (parts[2] + parts[3]);
  }

  // ---------------------------------------------------------------------------
  // int(s) for base-10 text
  // ---------------------------------------------------------------------------

  predicate IsDigit(c: char) { '0' <= c <= '9' }

  function DigitValue(c: char): nat
    requires IsDigit(c)
  {
    c as int - '0' as int
  }

  function DigitChar(d: nat): (c: char)
    requires d < 10
    ensures IsDigit(c) && DigitValue(c) == d
  {
    ('0' as int + d) as char
  }

  /**
    The digits part accepted by `int()`: digits, with single underscores
    allowed between two digits.
   */
  predicate WellFormedDigits(d: string) {
    && |d| > 0
    && IsDigit(d[0]) && IsDigit(d[|d| - 1])
    && (forall i :: 0 <= i < |d| ==> IsDigit(d[i]) || d[i] == '_')
    && (forall i :: 0 <= i < |d| - 1 ==> !(d[i] == '_' && d[i + 1] == '_'))
  }

  /** The value of a digit string, underscores ignored. */
  function DigitsValue(d: string): nat
    requires forall i :: 0 <= i < |d| ==> IsDigit(d[i]) || d[i] == '_'
  {
    if d == [] then 0
    else if d[|d| - 1] == '_' then DigitsValue(d[..|d| - 1])
    else DigitsValue(d[..|d| - 1]) * 10 + DigitValue(d[|d| - 1])
  }

  /**
    `int(s)`: `None` stands for the `ValueError` Python raises. What parses is,
    once stripped, an optional sign followed by digits and single underscores,
    ending in a digit; only a leading `-` gives a negative value.
   */
  function ParseInt(s: string): (r: Option<int>)
    ensures r.Some? ==> StripSpace(s) != []
    ensures r.Some? ==>
              var t := StripSpace(s);
              && IsDigit(t[|t| - 1])
              && (t[0] == '+' || t[0] == '-' || IsDigit(t[0]))
              && (forall i :: 0 < i < |t| ==> IsDigit(t[i]) || t[i] == '_')
              && (r.value < 0 ==> t[0] == '-')
  {
    var t := StripSpace(s);
    var signed := |t| > 0 && (t[0] == '+' || t[0] == '-');
    var d := if signed then t[1..] else t;
    if WellFormedDigits(d) then
      var n: int := DigitsValue(d);
      var v: int := if signed && t[0] == '-' then -n else n;
      Some(v)
    else None
  }

  /** `str(n)` for a natural number. */
  function NatToString(n: nat): (s: string)
    ensures |s| > 0
    ensures forall i :: 0 <= i < |s| ==> IsDigit(s[i])
  {
    if n < 10 then [DigitChar(n)] else NatToString(n / 10) + [DigitChar(n % 10)]
  }

  /** The decimal text of a non-negative id parses back to that id. */
  lemma {:induction false} NatToStringValue(n: nat)
    ensures WellFormedDigits(NatToString(n))
    ensures DigitsValue(NatToString(n)) == n
  {
    var s := NatToString(n);
    if n >= 10 {
      NatToStringValue(n / 10);
      assert s[..|s| - 1] == NatToString(n / 10);
    }
  }

  /** Text that neither starts nor ends with whitespace is left alone by `strip()`. */
  lemma StripSpaceKeeps(s: string)
    requires s != [] && !IsSpace(s[0]) && !IsSpace(s[|s| - 1])
    ensures StripSpace(s) == s
  {
    assert LStrip(s, Spaces) == s;
    assert RStrip(s, Spaces) == s;
  }

  /** Text whose ends are outside `cs` is left alone by `strip(cs)`. */
  lemma StripKeeps(s: string, cs: CharClass)
    requires s == [] || (!In(s[0], cs) && !In(s[|s| - 1], cs))
    ensures Strip(s, cs) == s
  {
    assert LStrip(s, cs) == s;
    assert RStrip(s, cs) == s;
  }

  /** Splitting at the first `c` recovers the two parts when the first part has no `c`. */
  lemma SplitOnceAt(a: string, c: char, b: string)
    requires c !in a
    ensures c in a + [c] + b
    ensures SplitOnce(a + [c] + b, c) == (a, b)
  {
    var s := a + [c] + b;
    assert s[|a|] == c;
    assert forall j :: 0 <= j < |a| ==> s[j] == a[j];
    var i := IndexOf(s, c).value;
    assert i <= |a| ==> s[..i] == a[..i];
    assert s[..i] == a;
  }

  lemma ParseIntOfNat(n: nat)
    ensures ParseInt(NatToString(n)) == Some(n)
  {
    var s := NatToString(n);
    NatToStringValue(n);
    StripSpaceKeeps(s);
    assert IsDigit(s[0]);
    assert WellFormedDigits(s);
  }
}
