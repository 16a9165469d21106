/**
  The test suite's settings helpers: reading a yes/no setting, and reading
  `KEY=VALUE` lines from a `.env` file into a dictionary. A file is given as
  `None` when it does not exist, or as its lines.
 */
module TestConfig {
  import opened Wrappers
  import opened Text

  // ---------------------------------------------------------------------------
  // _parse_bool
  // ---------------------------------------------------------------------------

  const TrueWords: set<string> := {"1", "true", "yes", "on"}

  /**
    `_parse_bool`: no value gives no answer; otherwise the value, stripped
    and lower-cased, must be one of the words for "true".
   */
  function ParseBool(value: Option<string>): (r: Option<bool>)
    ensures r.None? <==> value.None?
    ensures r.Some? ==> (r.value <==> Lower(StripSpace(value.value)) in TrueWords)
  {
    match value
    case None => None
    case Some(v) => Some(Lower(StripSpace(v)) in TrueWords)
  }

  /** Values that differ only in the case of ASCII letters read the same. */
  lemma ParseBoolIgnoresCase(v: string, w: string)
    requires Lower(v) == Lower(w)
    ensures ParseBool(Some(v)) == ParseBool(Some(w))
  {
    StripLower(v);
    StripLower(w);
  }

  /** Values that differ only in surrounding whitespace read the same. */
  lemma ParseBoolIgnoresSurroundingSpace(before: string, v: string, after: string)
    requires forall i :: 0 <= i < |before| ==> IsSpace(before[i])
    requires forall i :: 0 <= i < |after| ==> IsSpace(after[i])
    ensures ParseBool(Some(before + v + after)) == ParseBool(Some(v))
  {
    StripPadded(before, v, after);
  }

  /** Lower-casing changes no whitespace character, so it commutes with `strip()`. */
  lemma StripLower(s: string)
    ensures StripSpace(Lower(s)) == Lower(StripSpace(s))
  {
    LStripLower(s);
    RStripLower(LStrip(s, Spaces));
  }

  lemma {:induction false} LStripLower(s: string)
    ensures LStrip(Lower(s), Spaces) == Lower(LStrip(s, Spaces))
    decreases |s|
  {
    if s != [] {
      var t := Lower(s);
      assert |t| == |s| && t[1..] == Lower(s[1..]) && t[0] == LowerChar(s[0]);
      LowerKeepsSpace(s[0]);
      if IsSpace(s[0]) {
        LStripLower(s[1..]);
      } else {
        assert LStrip(t, Spaces) == t;
      }
    }
  }

  /** Lower-casing turns no character into whitespace or out of it. */
  lemma LowerKeepsSpace(c: char)
    ensures IsSpace(LowerChar(c)) <==> IsSpace(c)
  {
    if 'A' <= c <= 'Z' {
      assert 'a' <= LowerChar(c) <= 'z';
    }
  }

  lemma {:induction false} RStripLower(s: string)
    ensures RStrip(Lower(s), Spaces) == Lower(RStrip(s, Spaces))
    decreases |s|
  {
    if s != [] {
      var n := |s| - 1;
      var t := Lower(s);
      assert t[..n] == Lower(s[..n]) && |t| == n + 1 && t[n] == LowerChar(s[n]);
      LowerKeepsSpace(s[n]);
      if IsSpace(s[n]) {
        RStripLower(s[..n]);
      } else {
        assert RStrip(t, Spaces) == t;
      }
    }
  }

  /** Leading whitespace is dropped whatever follows it. */
  lemma {:induction false} LStripPadded(before: string, s: string)
    requires forall i :: 0 <= i < |before| ==> IsSpace(before[i])
    ensures LStrip(before + s, Spaces) == LStrip(s, Spaces)
    decreases |before|
  {
    if before != [] {
      assert (before + s)[1..] == before[1..] + s;
      LStripPadded(before[1..], s);
    } else {
      assert before + s == s;
    }
  }

  /** Trailing whitespace is dropped whatever precedes it. */
  lemma {:induction false} RStripPadded(s: string, after: string)
    requires forall i :: 0 <= i < |after| ==> IsSpace(after[i])
    ensures RStrip(s + after, Spaces) == RStrip(s, Spaces)
    decreases |after|
  {
    if after != [] {
      var n := |after| - 1;
      assert (s + after)[..|s| + n] == s + after[..n];
      RStripPadded(s, after[..n]);
    } else {
      assert s + after == s;
    }
  }

  /** Stripping `s` followed by whitespace: all of it goes when `s` is blank, otherwise only what follows the blank prefix. */
  lemma {:induction false} LStripThenPad(s: string, after: string)
    requires forall i :: 0 <= i < |after| ==> IsSpace(after[i])
    ensures LStrip(s + after, Spaces) == if LStrip(s, Spaces) == [] then [] else LStrip(s, Spaces) + after
    decreases |s|
  {
    if s == [] {
      assert s + after == after;
      LStripPadded(after, []);
      assert after + [] == after;
    } else {
      assert (s + after)[0] == s[0];
      if IsSpace(s[0]) {
        assert (s + after)[1..] == s[1..] + after;
        LStripThenPad(s[1..], after);
      }
    }
  }

  lemma StripPadded(before: string, s: string, after: string)
    requires forall i :: 0 <= i < |before| ==> IsSpace(before[i])
    requires forall i :: 0 <= i < |after| ==> IsSpace(after[i])
    ensures StripSpace(before + s + after) == StripSpace(s)
  {
    assert before + s + after == before + (s + after);
    LStripPadded(before, s + after);
    LStripThenPad(s, after);
    if LStrip(s, Spaces) != [] {
      RStripPadded(LStrip(s, Spaces), after);
    }
  }

  // ---------------------------------------------------------------------------
  // _load_env_file
  // ---------------------------------------------------------------------------

  /**
    One line of a `.env` file: skipped (`None`) when, stripped, it is empty,
    a `#` comment or has no `=`; otherwise split at its first `=` into a
    stripped key and a value that is stripped of whitespace, then of double
    quotes, then of single quotes. A parsed key holds no `=` and no
    surrounding whitespace; a parsed value neither starts nor ends with a
    single quote.
   */
  function ParseLine(raw: string): (r: Option<(string, string)>)
    ensures var line := StripSpace(raw);
            r.None? <==> line == [] || StartsWith(line, "#") || '=' !in line
    ensures r.Some? ==> '=' !in r.value.0
    ensures r.Some? ==> r.value.0 == [] || (!IsSpace(r.value.0[0]) && !IsSpace(r.value.0[|r.value.0| - 1]))
    ensures r.Some? ==> r.value.1 == [] || (r.value.1[0] != '\'' && r.value.1[|r.value.1| - 1] != '\'')
  {
    var line := StripSpace(raw);
    if line == [] || StartsWith(line, "#") || '=' !in line then None
    else
      var (key, value) := SplitOnce(line, '=');
      StripKeepsInner(key, Spaces);
      Some((StripSpace(key), Strip(Strip(StripSpace(value), Only('"')), Only('\''))))
  }

  /** The dictionary after one more line: a parsed line sets its key, a skipped one changes nothing. */
  function Update(values: map<string, string>, parsed: Option<(string, string)>): map<string, string> {
    match parsed
    case None => values
    case Some((key, value)) => values[key := value]
  }

  /** The dictionary built from parsed lines in order. */
  function Fold(parsed: seq<Option<(string, string)>>): map<string, string> {
    if parsed == [] then map[] else Update(Fold(parsed[..|parsed| - 1]), parsed[|parsed| - 1])
  }

  function ParseLines(lines: seq<string>): (parsed: seq<Option<(string, string)>>)
    ensures |parsed| == |lines|
    ensures forall i :: 0 <= i < |lines| ==> parsed[i] == ParseLine(lines[i])
  {
    seq(|lines|, i requires 0 <= i < |lines| => ParseLine(lines[i]))
  }

  /** `_load_env_file`: a missing file reads as an empty dictionary. */
  function LoadEnv(file: Option<seq<string>>): map<string, string> {
    match file
    case None => map[]
    case Some(lines) => Fold(ParseLines(lines))
  }

  /** `_load_env_file`, line by line. */
  method LoadEnvFile(file: Option<seq<string>>) returns (values: map<string, string>)
    ensures values == LoadEnv(file)
  {
    values := map[];
    if file.None? {
      return;
    }
    var lines := file.value;
    ghost var parsed := ParseLines(lines);
    for i := 0 to |lines|
      invariant values == Fold(parsed[..i])
    {
      var line := ParseLine(lines[i]);
      FoldStep(parsed, i);
      values := Update(values, line);
    }
    assert parsed[..|lines|] == parsed;
  }

  lemma FoldStep(parsed: seq<Option<(string, string)>>, i: nat)
    requires i < |parsed|
    ensures Fold(parsed[..i + 1]) == Update(Fold(parsed[..i]), parsed[i])
  {
    assert parsed[..i + 1][..i] == parsed[..i];
  }

  /** Whether line `i` sets `key`. */
  predicate Sets(parsed: seq<Option<(string, string)>>, i: int, key: string)
    requires 0 <= i < |parsed|
  {
    parsed[i].Some? && parsed[i].value.0 == key
  }

  lemma {:induction false} FoldLastWins(parsed: seq<Option<(string, string)>>, key: string)
    ensures key in Fold(parsed) <==> exists i :: 0 <= i < |parsed| && Sets(parsed, i, key)
    ensures forall i :: 0 <= i < |parsed| && Sets(parsed, i, key) &&
                        (forall j :: i < j < |parsed| ==> !Sets(parsed, j, key)) ==>
              key in Fold(parsed) && Fold(parsed)[key] == parsed[i].value.1
  {
    if parsed != [] {
      var n := |parsed| - 1;
      var init := parsed[..n];
      FoldLastWins(init, key);
      assert forall i :: 0 <= i < n ==> (Sets(init, i, key) <==> Sets(parsed, i, key));
      if Sets(parsed, n, key) {
        assert Fold(parsed) == Fold(init)[key := parsed[n].value.1];
      } else {
        assert key in Fold(parsed) <==> key in Fold(init);
        assert key in Fold(parsed) ==> Fold(parsed)[key] == Fold(init)[key];
        forall i | 0 <= i < |parsed| && Sets(parsed, i, key) && (forall j :: i < j < |parsed| ==> !Sets(parsed, j, key))
          ensures key in Fold(parsed) && Fold(parsed)[key] == parsed[i].value.1
        {
          assert i < n;
          assert forall j :: i < j < n ==> !Sets(init, j, key);
        }
      }
    }
  }

  /** Whether the line `lines[i]` sets `key`. */
  predicate LineSets(lines: seq<string>, i: int, key: string)
    requires 0 <= i < |lines|
  {
    ParseLine(lines[i]).Some? && ParseLine(lines[i]).value.0 == key
  }

  /**
    A key ends up in the dictionary exactly when some line sets it, and then
    with the value of the last line that sets it.
   */
  lemma LastLineWins(lines: seq<string>, key: string)
    ensures key in LoadEnv(Some(lines)) <==> exists i :: 0 <= i < |lines| && LineSets(lines, i, key)
    ensures forall i :: 0 <= i < |lines| && LineSets(lines, i, key) &&
                        (forall j :: i < j < |lines| ==> !LineSets(lines, j, key)) ==>
              key in LoadEnv(Some(lines)) && LoadEnv(Some(lines))[key] == ParseLine(lines[i]).value.1
  {
    var parsed := ParseLines(lines);
    FoldLastWins(parsed, key);
    SetsMatchLines(lines, key);
  }

  lemma SetsMatchLines(lines: seq<string>, key: string)
    ensures forall i | 0 <= i < |lines| :: Sets(ParseLines(lines), i, key) == LineSets(lines, i, key)
  {
    var parsed := ParseLines(lines);
    forall i | 0 <= i < |lines| ensures Sets(parsed, i, key) == LineSets(lines, i, key) {
      assert parsed[i] == ParseLine(lines[i]);
    }
  }

  /**
    A line written as `KEY=VALUE` reads back as that pair, whenever the key
    has no `=`, does not start a comment and has no surrounding whitespace,
    and the value has no surrounding whitespace or quotes. The value itself
    may contain `=`.
   */
  lemma LineRoundTrip(key: string, value: string)
    requires '=' !in key
    requires key == [] || (!IsSpace(key[0]) && key[0] != '#' && !IsSpace(key[|key| - 1]))
    requires value == [] || (!IsSpace(value[0]) && !IsSpace(value[|value| - 1]))
    requires value == [] || (value[0] !in "\"'" && value[|value| - 1] !in "\"'")
    ensures ParseLine(key + "=" + value) == Some((key, value))
  {
    var line := key + "=" + value;
    assert line == key + ['='] + value;
    assert line[0] == (if key == [] then '=' else key[0]);
    assert line[|line| - 1] == (if value == [] then '=' else value[|value| - 1]);
    StripSpaceKeeps(line);
    assert !StartsWith(line, "#");
    SplitOnceAt(key, '=', value);
    StripKeeps(key, Spaces);
    StripKeeps(value, Spaces);
    StripKeeps(value, Only('"'));
    StripKeeps(value, Only('\''));
  }
}
