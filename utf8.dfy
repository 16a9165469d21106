/**
  UTF-8 as Python's codec uses it: `str.encode('utf-8')` and
  `bytes.decode('utf-8', errors='ignore')`. The decoder accepts exactly the
  well-formed byte sequences of table 3-7 of the Unicode Standard (chapter 3,
  section 3.9) and drops every byte that does not begin one, which is what the
  `ignore` error handler leaves of an ill-formed input.
 */
module Utf8 {

  type Byte = b: int | 0 <= b < 256

  /** The UTF-8 encoding of one Unicode scalar value. */
  function EncodeChar(c: char): (e: seq<Byte>)
    ensures 1 <= |e| <= 4
  {
    var cp := c as int;
    if cp < 0x80 then [cp]
    else if cp < 0x800 then [0xC0 + cp / 64, 0x80 + cp % 64]
    else if cp < 0x1_0000 then [0xE0 + cp / 4096, 0x80 + (cp / 64) % 64, 0x80 + cp % 64]
    else [0xF0 + cp / 262144, 0x80 + (cp / 4096) % 64, 0x80 + (cp / 64) % 64, 0x80 + cp % 64]
  }

  /** `s.encode('utf-8')`. */
  function Encode(s: string): (e: seq<Byte>)
    ensures |s| <= |e| <= 4 * |s|
  {
    if s == [] then [] else EncodeChar(s[0]) + Encode(s[1..])
  }

  predicate IsContinuation(b: Byte) { 0x80 <= b <= 0xBF }

  /**
    The length of the well-formed sequence that starts `b`, or 0 when `b`
    does not start with one (a stray continuation byte, a lead byte that can
    never occur, or a sequence cut short).
   */
  function SequenceLength(b: seq<Byte>): (n: nat)
    ensures n <= 4 && n <= |b|
  {
    if |b| == 0 then 0
    else if b[0] <= 0x7F then 1
    else if 0xC2 <= b[0] <= 0xDF then
      if |b| >= 2 && IsContinuation(b[1]) then 2 else 0
    else if 0xE0 <= b[0] <= 0xEF then
      var lo := if b[0] == 0xE0 then 0xA0 else 0x80;
      var hi := if b[0] == 0xED then 0x9F else 0xBF;
      if |b| >= 3 && lo <= b[1] <= hi && IsContinuation(b[2]) then 3 else 0
    else if 0xF0 <= b[0] <= 0xF4 then
      var lo := if b[0] == 0xF0 then 0x90 else 0x80;
      var hi := if b[0] == 0xF4 then 0x8F else 0xBF;
      if |b| >= 4 && lo <= b[1] <= hi && IsContinuation(b[2]) && IsContinuation(b[3]) then 4 else 0
    else 0
  }

  /** The scalar value a well-formed sequence at the start of `b` stands for. */
  function CodePoint(b: seq<Byte>): (cp: int)
    requires SequenceLength(b) > 0
    ensures 0 <= cp < 0xD800 || 0xE000 <= cp <= 0x10_FFFF
  {
    var n := SequenceLength(b);
    var b0: int := b[0];
    if n == 1 then b0
    else if n == 2 then (b0 - 0xC0) * 64 + (b[1] as int - 0x80)
    else if n == 3 then (b0 - 0xE0) * 4096 + (b[1] as int - 0x80) * 64 + (b[2] as int - 0x80)
    else (b0 - 0xF0) * 262144 + (b[1] as int - 0x80) * 4096 + (b[2] as int - 0x80) * 64 + (b[3] as int - 0x80)
  }

  /** `b.decode('utf-8', errors='ignore')`. */
  function DecodeIgnore(b: seq<Byte>): (r: string)
    ensures |r| <= |b|
    decreases |b|
  {
    if b == [] then []
    else
      var n := SequenceLength(b);
      if n == 0 then DecodeIgnore(b[1..])
      else [CodePoint(b) as char] + DecodeIgnore(b[n..])
  }

  /** `b[:k]` in Python: at most the first `k` bytes. */
  function Take(b: seq<Byte>, k: nat): (r: seq<Byte>)
    ensures |r| <= k && |r| <= |b| && r == b[..|r|]
    ensures |b| <= k ==> r == b
  {
    if |b| <= k then b else b[..k]
  }

  /**
    The longest prefix of `s` whose encoding fits in `budget` bytes: the
    characters are taken in order until the next one no longer fits whole.
   */
  function FitPrefix(s: string, budget: nat): string {
    if s == [] || |EncodeChar(s[0])| > budget then []
    else [s[0]] + FitPrefix(s[1..], budget - |EncodeChar(s[0])|)
  }

  // ---------------------------------------------------------------------------
  // Facts about the codec
  // ---------------------------------------------------------------------------

  lemma {:induction false} EncodeAppend(a: string, b: string)
    ensures Encode(a + b) == Encode(a) + Encode(b)
  {
    if a != [] {
      assert (a + b)[0] == a[0];
      assert (a + b)[1..] == a[1..] + b;
      EncodeAppend(a[1..], b);
      calc {
        Encode(a + b);
        EncodeChar(a[0]) + Encode(a[1..] + b);
        EncodeChar(a[0]) + (Encode(a[1..]) + Encode(b));
        (EncodeChar(a[0]) + Encode(a[1..])) + Encode(b);
      }
    } else {
      assert a + b == b;
    }
  }

  /** The bytes of one encoded character are read back as that character. */
  lemma EncodeCharDecodes(c: char, rest: seq<Byte>)
    ensures SequenceLength(EncodeChar(c) + rest) == |EncodeChar(c)|
    ensures CodePoint(EncodeChar(c) + rest) == c as int
  {
    var cp := c as int;
    if cp < 0x80 {
    } else if cp < 0x800 {
      TwoByteDecodes(cp, EncodeChar(c) + rest);
    } else if cp < 0x1_0000 {
      ThreeByteDecodes(cp, EncodeChar(c) + rest);
    } else {
      FourByteDecodes(cp, EncodeChar(c) + rest);
    }
  }

  lemma TwoByteDecodes(cp: int, b: seq<Byte>)
    requires 0x80 <= cp < 0x800
    requires |b| >= 2 && b[0] == 0xC0 + cp / 64 && b[1] == 0x80 + cp % 64
    ensures SequenceLength(b) == 2 && CodePoint(b) == cp
  {
  }

  lemma ThreeByteDecodes(cp: int, b: seq<Byte>)
    requires 0x800 <= cp < 0xD800 || 0xE000 <= cp < 0x1_0000
    requires |b| >= 3 && b[0] == 0xE0 + cp / 4096
    requires b[1] == 0x80 + (cp / 64) % 64 && b[2] == 0x80 + cp % 64
    ensures SequenceLength(b) == 3 && CodePoint(b) == cp
  {
    var top, mid, low := cp / 4096, (cp / 64) % 64, cp % 64;
    assert cp == top * 4096 + mid * 64 + low;
    assert top == 0 ==> mid >= 32;
    assert top == 13 ==> mid < 32;
  }

  lemma FourByteDecodes(cp: int, b: seq<Byte>)
    requires 0x1_0000 <= cp <= 0x10_FFFF
    requires |b| >= 4 && b[0] == 0xF0 + cp / 262144 && b[1] == 0x80 + (cp / 4096) % 64
    requires b[2] == 0x80 + (cp / 64) % 64 && b[3] == 0x80 + cp % 64
    ensures SequenceLength(b) == 4 && CodePoint(b) == cp
  {
    var top, high, mid, low := cp / 262144, (cp / 4096) % 64, (cp / 64) % 64, cp % 64;
    var q1, q2 := cp / 64, cp / 4096;
    assert cp == q1 * 64 + low;
    assert q1 == q2 * 64 + mid;
    assert q2 == top * 64 + high;
    assert 0 <= top <= 4 && 0 <= high < 64 && 0 <= mid < 64 && 0 <= low < 64;
    assert cp == top * 262144 + high * 4096 + mid * 64 + low;
    assert 1 <= top <= 4 || (top == 0 && high >= 16);
    assert top == 4 ==> high < 16;
    assert SequenceLength(b) == 4;
    assert b[1] as int - 0x80 == high && b[2] as int - 0x80 == mid && b[3] as int - 0x80 == low;
  }

  /** Bytes that are all continuation bytes decode to nothing. */
  lemma {:induction false} ContinuationsDropped(b: seq<Byte>)
    requires forall i :: 0 <= i < |b| ==> IsContinuation(b[i])
    ensures DecodeIgnore(b) == []
  {
    if b != [] {
      ContinuationsDropped(b[1..]);
    }
  }

  /** A character cut short by a byte limit decodes to nothing under `ignore`. */
  lemma PartialCharDropped(c: char, k: nat)
    requires k < |EncodeChar(c)|
    ensures DecodeIgnore(EncodeChar(c)[..k]) == []
  {
    var b := EncodeChar(c)[..k];
    if k > 0 {
      assert SequenceLength(b) == 0;
      ContinuationsDropped(b[1..]);
    }
  }

  lemma {:induction false} TakeAppend(e: seq<Byte>, rest: seq<Byte>, k: nat)
    requires |e| <= k
    ensures Take(e + rest, k) == e + Take(rest, k - |e|)
  {
    if |e + rest| > k {
      assert (e + rest)[..k] == e + rest[..k - |e|];
    }
  }

  /**
    Cutting an encoded string to `k` bytes and decoding with `ignore` yields
    the longest prefix of the string whose encoding fits in `k` bytes.
   */
  lemma {:induction false} TruncateDecodes(s: string, k: nat)
    ensures DecodeIgnore(Take(Encode(s), k)) == FitPrefix(s, k)
  {
    if s != [] {
      var e := EncodeChar(s[0]);
      var tail := Encode(s[1..]);
      assert Encode(s) == e + tail;
      if |e| <= k {
        var cut := Take(tail, k - |e|);
        TakeAppend(e, tail, k);
        EncodeCharDecodes(s[0], cut);
        assert (e + cut)[|e|..] == cut;
        TruncateDecodes(s[1..], k - |e|);
        calc {
          DecodeIgnore(Take(Encode(s), k));
          DecodeIgnore(e + cut);
          [s[0]] + DecodeIgnore(cut);
          [s[0]] + FitPrefix(s[1..], k - |e|);
        }
      } else {
        assert Take(e + tail, k) == e[..k];
        PartialCharDropped(s[0], k);
      }
    }
  }

  /** FitPrefix keeps a prefix of `s` whose encoding fits the budget. */
  lemma {:induction false} FitPrefixFits(s: string, budget: nat)
    ensures |FitPrefix(s, budget)| <= |s| && FitPrefix(s, budget) == s[..|FitPrefix(s, budget)|]
    ensures |Encode(FitPrefix(s, budget))| <= budget
  {
    if s != [] && |EncodeChar(s[0])| <= budget {
      var e := EncodeChar(s[0]);
      var r' := FitPrefix(s[1..], budget - |e|);
      FitPrefixFits(s[1..], budget - |e|);
      var r := [s[0]] + r';
      assert r[1..] == r';
      assert Encode(r) == e + Encode(r');
    }
  }

  /** FitPrefix stops only at the end of `s` or before a character that would not fit whole. */
  lemma {:induction false} FitPrefixStops(s: string, budget: nat)
    ensures |FitPrefix(s, budget)| <= |s|
    ensures |FitPrefix(s, budget)| < |s| ==>
              |Encode(FitPrefix(s, budget))| + |EncodeChar(s[|FitPrefix(s, budget)|])| > budget
  {
    if s != [] && |EncodeChar(s[0])| <= budget {
      var e := EncodeChar(s[0]);
      var r' := FitPrefix(s[1..], budget - |e|);
      FitPrefixStops(s[1..], budget - |e|);
      var r := [s[0]] + r';
      assert r[1..] == r';
      assert |Encode(r)| == |e| + |Encode(r')|;
      if |r| < |s| {
        assert s[|r|] == s[1..][|r'|];
      }
    }
  }

  /**
    What FitPrefix keeps: a prefix of `s`, whose encoding fits the budget and is
    a prefix of the encoding of `s`, and that stops only at the end of `s` or
    before a character that would not fit whole.
   */
  lemma FitPrefixIsLongestFittingPrefix(s: string, budget: nat)
    ensures |FitPrefix(s, budget)| <= |s| && FitPrefix(s, budget) == s[..|FitPrefix(s, budget)|]
    ensures |Encode(FitPrefix(s, budget))| <= budget
    ensures Encode(s) == Encode(FitPrefix(s, budget)) + Encode(s[|FitPrefix(s, budget)|..])
    ensures |FitPrefix(s, budget)| < |s| ==>
              |Encode(FitPrefix(s, budget))| + |EncodeChar(s[|FitPrefix(s, budget)|])| > budget
  {
    var r := FitPrefix(s, budget);
    FitPrefixFits(s, budget);
    FitPrefixStops(s, budget);
    assert s == r + s[|r|..];
    EncodeAppend(r, s[|r|..]);
  }

  /** A budget as large as the whole encoding keeps the whole string. */
  lemma {:induction false} FitPrefixWhole(s: string)
    ensures FitPrefix(s, |Encode(s)|) == s
  {
    if s != [] {
      var e := EncodeChar(s[0]);
      assert Encode(s) == e + Encode(s[1..]);
      FitPrefixWhole(s[1..]);
    }
  }

  /** Decoding undoes encoding: `s.encode('utf-8').decode('utf-8', errors='ignore') == s`. */
  lemma DecodeEncode(s: string)
    ensures DecodeIgnore(Encode(s)) == s
  {
    TruncateDecodes(s, |Encode(s)|);
    FitPrefixWhole(s);
  }

  /** No two strings share an encoding. */
  lemma EncodeInjective(a: string, b: string)
    requires Encode(a) == Encode(b)
    ensures a == b
  {
    DecodeEncode(a);
    DecodeEncode(b);
  }
}
