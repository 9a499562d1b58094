// The option handling and scenario helpers of the search benchmark
// (minimax/bench/search_benchmark.cpp): integer parsing, trimming, comma splitting, the
// command-line parser, scenario and variant selection, and the board-row helpers. Timing,
// the search runs and all printing are not part of this model.

module Benchmark {
  import opened Wrappers
  import opened Packing
  import opened Bitboard
  import opened Decimals

  // ---------------------------------------------------------------------------
  // parseInt
  // ---------------------------------------------------------------------------

  /** The characters C's `isspace` accepts in the default locale. */
  predicate IsSpace(c: char) {
    c == ' ' || c == '\t' || c == '\n' || c == 11 as char || c == 12 as char || c == '\r'
  }

  predicate IsDigit(c: char) {
    '0' <= c <= '9'
  }

  /** The text `c_str()` hands to C: everything before the first NUL. */
  function CString(text: string): (c: string)
    ensures |c| <= |text| && c == text[..|c|] && '\0' !in c
    ensures |c| < |text| ==> text[|c|] == '\0'
  {
    if text == [] || text[0] == '\0' then [] else [text[0]] + CString(text[1..])
  }

  /** The number of leading characters of s, from index k on, that satisfy isspace. */
  function SpacesFrom(s: string, k: nat): (n: nat)
    requires k <= |s|
    ensures k + n <= |s| && forall j :: k <= j < k + n ==> IsSpace(s[j])
    ensures k + n == |s| || !IsSpace(s[k + n])
    decreases |s| - k
  {
    if k < |s| && IsSpace(s[k]) then 1 + SpacesFrom(s, k + 1) else 0
  }

  /** The number of decimal digits of s from index k on. */
  function DigitsFrom(s: string, k: nat): (n: nat)
    requires k <= |s|
    ensures k + n <= |s| && forall j :: k <= j < k + n ==> IsDigit(s[j])
    ensures k + n == |s| || !IsDigit(s[k + n])
    decreases |s| - k
  {
    if k < |s| && IsDigit(s[k]) then 1 + DigitsFrom(s, k + 1) else 0
  }

  /** What `strtol(s, &end, 10)` reads: the value, and how many characters it consumed. */
  datatype Conversion = Conversion(value: int, consumed: nat)

  /**
   * `strtol` in base 10: optional white space, an optional sign, then decimal digits. Without
   * a digit nothing is consumed. The value is not saturated at the range of `long`; see the
   * note on ParseInt.
   */
  function Strtol(s: string): (r: Conversion)
    ensures r.consumed <= |s|
    ensures r.consumed == 0 ==> r.value == 0
  {
    var ws := SpacesFrom(s, 0);
    var signed := ws < |s| && (s[ws] == '+' || s[ws] == '-');
    var k := if signed then ws + 1 else ws;
    var n := DigitsFrom(s, k);
    if n == 0 then Conversion(0, 0)
    else
      var magnitude: int := DecimalValue(s[k..k + n]);
      Conversion(if signed && s[ws] == '-' then -magnitude else magnitude, k + n)
  }

  /**
   * `parseInt`: succeeds, giving the value, exactly when the text is non-empty, `strtol`
   * consumes all of it (up to the C string's end) and the value lies in [minValue, 1000000];
   * otherwise it fails and outValue is left as it was. A `long` overflow saturates in C and
   * then lands outside that range as well, so unbounded integers give the same answers.
   */
  function ParseInt(text: string, minValue: int, outValue: int): (r: (bool, int))
    ensures !r.0 ==> r.1 == outValue
    ensures r.0 ==> text != [] && minValue <= r.1 <= 1000000
    ensures r.0 ==> Strtol(CString(text)).consumed == |CString(text)| > 0
  {
    var c := CString(text);
    var conv := Strtol(c);
    if text == [] || conv.consumed == 0 || conv.consumed != |c| || conv.value < minValue ||
       conv.value > 1000000
    then (false, outValue)
    else (true, conv.value)
  }

  /** The decimal text of any n in [minValue, 1000000] is accepted with value n. */
  lemma ParseIntDecimal(n: nat, minValue: int, outValue: int)
    requires minValue <= n <= 1000000
    ensures ParseInt(Decimal(n), minValue, outValue) == (true, n)
  {
    var s := Decimal(n);
    CStringPlain(s);
    assert SpacesFrom(s, 0) == 0;
    DigitsToEnd(s, 0);
    assert s[0..|s|] == s;
    DecimalRoundTrip(n);
    assert Strtol(s) == Conversion(n, |s|);
  }

  /** Text without NUL is its own C string. */
  lemma {:induction false} CStringPlain(s: string)
    requires '\0' !in s
    ensures CString(s) == s
  {
    if s != [] {
      CStringPlain(s[1..]);
    }
  }

  /** In an all-digit text every character from k on is a digit. */
  lemma {:induction false} DigitsToEnd(s: string, k: nat)
    requires k <= |s| && forall j :: 0 <= j < |s| ==> IsDigit(s[j])
    ensures DigitsFrom(s, k) == |s| - k
    decreases |s| - k
  {
    if k < |s| {
      DigitsToEnd(s, k + 1);
    }
  }

  /** A text whose last character is neither a digit nor NUL is rejected. */
  lemma ParseIntRejectsTrailing(text: string, minValue: int, outValue: int)
    requires text != [] && !IsDigit(text[|text| - 1]) && '\0' !in text
    ensures ParseInt(text, minValue, outValue) == (false, outValue)
  {
    CStringPlain(text);
  }

  // ---------------------------------------------------------------------------
  // trim and splitCsv
  // ---------------------------------------------------------------------------

  /** The characters `trim` strips: space and tab only. */
  predicate IsBlank(c: char) {
    c == ' ' || c == '\t'
  }

  /** How many spaces and tabs s starts with. */
  function LeadingBlanks(s: string): (n: nat)
    ensures n <= |s| && (forall k :: 0 <= k < n ==> IsBlank(s[k])) && (n == |s| || !IsBlank(s[n]))
  {
    if s != [] && IsBlank(s[0]) then 1 + LeadingBlanks(s[1..]) else 0
  }

  /** How many spaces and tabs s ends with. */
  function TrailingBlanks(s: string): (n: nat)
    ensures n <= |s| && (forall k :: |s| - n <= k < |s| ==> IsBlank(s[k]))
    ensures n == |s| || !IsBlank(s[|s| - n - 1])
  {
    if s != [] && IsBlank(s[|s| - 1]) then 1 + TrailingBlanks(s[..|s| - 1]) else 0
  }

  /**
   * What `trim` returns: s without its leading and trailing spaces and tabs. It neither
   * starts nor ends blank and holds only characters of s; TrimmedIsInfix says which piece it is.
   */
  function Trimmed(s: string): (t: string)
    ensures t == [] || (!IsBlank(t[0]) && !IsBlank(t[|t| - 1]))
    ensures forall c :: c in t ==> c in s
  {
    var a := LeadingBlanks(s);
    s[a..a + |s[a..]| - TrailingBlanks(s[a..])]
  }

  /** The trimmed text is a contiguous piece of s, and everything cut off is blank. */
  lemma TrimmedIsInfix(s: string)
    ensures exists a, b :: (0 <= a <= b <= |s| && Trimmed(s) == s[a..b] &&
      (forall k :: 0 <= k < a ==> IsBlank(s[k])) && (forall k :: b <= k < |s| ==> IsBlank(s[k])))
  {
    var a := LeadingBlanks(s);
    var b := a + |s[a..]| - TrailingBlanks(s[a..]);
    TrailIsBlank(s, a);
    assert Trimmed(s) == s[a..b];
  }

  /** The trailing blanks after the leading ones are trailing blanks of s. */
  lemma TrailIsBlank(s: string, a: nat)
    requires a <= |s|
    ensures forall k :: a + |s[a..]| - TrailingBlanks(s[a..]) <= k < |s| ==> IsBlank(s[k])
  {
    var u := s[a..];
    assert forall k :: a <= k < |s| ==> s[k] == u[k - a];
  }

  /** Trimming twice is trimming once. */
  lemma TrimIdempotent(s: string)
    ensures Trimmed(Trimmed(s)) == Trimmed(s)
  {
    var t := Trimmed(s);
    NoBlankEdgesFixed(t);
  }

  /** A string that neither starts nor ends blank is left alone. */
  lemma NoBlankEdgesFixed(t: string)
    requires t == [] || (!IsBlank(t[0]) && !IsBlank(t[|t| - 1]))
    ensures Trimmed(t) == t
  {
    assert LeadingBlanks(t) == 0;
    assert t[0..] == t;
    assert TrailingBlanks(t) == 0;
  }

  /**
   * `trim`: moves `start` right past spaces and tabs, then `end` left past them, and returns
   * the piece between.
   */
  method Trim(s: string) returns (r: string)
    ensures r == Trimmed(s)
  {
    var start := 0;
    while start < |s| && (s[start] == ' ' || s[start] == '\t')
      invariant 0 <= start <= |s| && forall k :: 0 <= k < start ==> IsBlank(s[k])
    {
      start := start + 1;
    }
    assert start == LeadingBlanks(s);
    var end := |s|;
    while end > start && (s[end - 1] == ' ' || s[end - 1] == '\t')
      invariant start <= end <= |s| && forall k :: end <= k < |s| ==> IsBlank(s[k])
    {
      end := end - 1;
    }
    ghost var u := s[start..];
    assert forall k :: 0 <= k < |u| ==> u[k] == s[start + k];
    assert |s| - end == TrailingBlanks(u);
    r := s[start..end];
  }

  /**
   * The comma-separated fields of s, as a scan from left to right builds them: a comma
   * closes the current field and opens an empty one. There is always at least one field.
   */
  function Fields(s: string): (fs: seq<string>)
    ensures |fs| >= 1
    decreases |s|
  {
    if s == [] then [[]]
    else
      var fs := Fields(s[..|s| - 1]);
      var c := s[|s| - 1];
      if c == ',' then fs + [[]]
      else fs[..|fs| - 1] + [fs[|fs| - 1] + [c]]
  }

  /** Fields joined back with commas. */
  function Join(fs: seq<string>): string
    requires |fs| >= 1
  {
    if |fs| == 1 then fs[0] else Join(fs[..|fs| - 1]) + [','] + fs[|fs| - 1]
  }

  /** No field holds a comma. */
  lemma {:induction false} FieldsHaveNoComma(s: string)
    ensures forall k :: 0 <= k < |Fields(s)| ==> ',' !in Fields(s)[k]
    decreases |s|
  {
    if s != [] {
      FieldsHaveNoComma(s[..|s| - 1]);
    }
  }

  /** Opening a new, empty field adds a comma to the join. */
  lemma JoinNewField(fs: seq<string>)
    requires |fs| >= 1
    ensures Join(fs + [[]]) == Join(fs) + [',']
  {
    assert (fs + [[]])[..|fs|] == fs;
  }

  /** Extending the last field by c extends the join by c. */
  lemma JoinExtendLast(fs: seq<string>, c: char)
    requires |fs| >= 1
    ensures Join(fs[..|fs| - 1] + [fs[|fs| - 1] + [c]]) == Join(fs) + [c]
  {
    var gs := fs[..|fs| - 1] + [fs[|fs| - 1] + [c]];
    if |fs| > 1 {
      assert gs[..|gs| - 1] == fs[..|fs| - 1];
    }
  }

  /** Joining the fields with commas gives s back. */
  lemma {:induction false} FieldsJoin(s: string)
    ensures Join(Fields(s)) == s
    decreases |s|
  {
    if s != [] {
      var p := s[..|s| - 1];
      FieldsJoin(p);
      assert p + [s[|s| - 1]] == s;
      if s[|s| - 1] == ',' {
        JoinNewField(Fields(p));
      } else {
        JoinExtendLast(Fields(p), s[|s| - 1]);
      }
    }
  }

  /** The non-empty trimmed fields, in order. */
  function Tokens(fs: seq<string>): seq<string>
  {
    if fs == [] then []
    else
      var t := Trimmed(fs[|fs| - 1]);
      Tokens(fs[..|fs| - 1]) + (if t != [] then [t] else [])
  }

  /** What `splitCsv` returns: the fields of csv, trimmed, with the empty ones dropped. */
  function SplitCsvTokens(csv: string): seq<string> {
    Tokens(Fields(csv))
  }

  /** The trimmed form of a comma-free field is comma-free and already trimmed. */
  lemma TrimmedFieldClean(f: string)
    requires ',' !in f
    ensures ',' !in Trimmed(f) && Trimmed(Trimmed(f)) == Trimmed(f)
  {
    TrimIdempotent(f);
  }

  /** Each token of a list of comma-free fields is non-empty, comma-free and trimmed. */
  lemma {:induction false} TokensClean(fs: seq<string>)
    requires forall k :: 0 <= k < |fs| ==> ',' !in fs[k]
    ensures forall t :: t in Tokens(fs) ==> t != [] && ',' !in t && Trimmed(t) == t
  {
    if fs != [] {
      var init := fs[..|fs| - 1];
      TokensClean(init);
      var last := Trimmed(fs[|fs| - 1]);
      TrimmedFieldClean(fs[|fs| - 1]);
      assert Tokens(fs) == Tokens(init) + (if last != [] then [last] else []);
      forall t | t in Tokens(fs)
        ensures t != [] && ',' !in t && Trimmed(t) == t
      {
        if t !in Tokens(init) {
          assert t == last;
        }
      }
    }
  }

  /** `splitCsv` never yields an empty token or one with a comma, and every token is trimmed. */
  lemma SplitCsvTokensClean(csv: string)
    ensures forall t :: t in SplitCsvTokens(csv) ==> t != [] && ',' !in t && Trimmed(t) == t
  {
    FieldsHaveNoComma(csv);
    TokensClean(Fields(csv));
  }

  /** Without a comma, the whole text is the one field. */
  lemma {:induction false} FieldsNoComma(s: string)
    requires ',' !in s
    ensures Fields(s) == [s]
    decreases |s|
  {
    if s != [] {
      FieldsNoComma(s[..|s| - 1]);
      assert s[..|s| - 1] + [s[|s| - 1]] == s;
    }
  }

  /** A text without a comma gives its trimmed self, or nothing when that is empty. */
  lemma SplitCsvNoComma(s: string)
    requires ',' !in s
    ensures SplitCsvTokens(s) == if Trimmed(s) == [] then [] else [Trimmed(s)]
  {
    FieldsNoComma(s);
    assert [s][..0] == [];
    assert Tokens([s]) == Tokens([]) + (if Trimmed(s) != [] then [Trimmed(s)] else []);
  }

  /**
   * `splitCsv`: collects characters into `current`; a comma hands the trimmed `current` to
   * the output unless it is empty, and the last field is handled the same way at the end.
   */
  method SplitCsv(csv: string) returns (out: seq<string>)
    ensures out == SplitCsvTokens(csv)
  {
    out := [];
    var current: string := [];
    var i := 0;
    while i < |csv|
      invariant 0 <= i <= |csv|
      invariant var fs := Fields(csv[..i]);
        out == Tokens(fs[..|fs| - 1]) && current == fs[|fs| - 1]
    {
      ghost var fs := Fields(csv[..i]);
      assert csv[..i + 1][..i] == csv[..i];
      if csv[i] == ',' {
        var token := Trim(current);
        if token != [] {
          out := out + [token];
        }
        current := [];
        assert fs + [[]] == Fields(csv[..i + 1]);
        assert (fs + [[]])[..|fs|] == fs;
      } else {
        current := current + [csv[i]];
      }
      i := i + 1;
    }
    var last := Trim(current);
    if last != [] {
      out := out + [last];
    }
    assert csv[..|csv|] == csv;
  }

  /** `contains`: target occurs in values. */
  method Contains(values: seq<string>, target: string) returns (found: bool)
    ensures found <==> target in values
  {
    for i := 0 to |values|
      invariant target !in values[..i]
    {
      if values[i] == target {
        return true;
      }
    }
    return false;
  }

  // ---------------------------------------------------------------------------
  // parseArgs
  // ---------------------------------------------------------------------------

  /** `Options`. */
  datatype Options = Options(iterations: int, warmup: int, clearTTEachRun: bool,
                             quietEngineLogs: bool, listOnly: bool,
                             scenarioKeys: seq<string>, variantKeys: seq<string>)

  /** `Options()`: one measured run, no warm-up, a fresh table each run, engine logs off. */
  const DefaultOptions: Options := Options(1, 0, true, true, false, [], [])

  /** The options that take a value. */
  predicate TakesValue(arg: string) {
    arg == "--iterations" || arg == "--warmup" || arg == "--scenario" || arg == "--variant"
  }

  /** The options that stand alone (`--help` stands alone but always stops parsing). */
  predicate IsFlag(arg: string) {
    arg == "--list" || arg == "--no-tt-clear" || arg == "--verbose-engine"
  }

  /**
   * The parse of argv from index i on, starting from opts: whether it succeeds, and the
   * options as they stand when it stops (on a failure, those set so far).
   */
  function ParseFrom(argv: seq<string>, i: nat, opts: Options): (bool, Options)
    decreases |argv| - i
  {
    if i >= |argv| then (true, opts)
    else
      var arg := argv[i];
      if arg == "--help" then (false, opts)
      else if arg == "--list" then ParseFrom(argv, i + 1, opts.(listOnly := true))
      else if TakesValue(arg) then
        if i + 1 >= |argv| then (false, opts)
        else
          var value := argv[i + 1];
          if arg == "--iterations" then
            var p := ParseInt(value, 1, opts.iterations);
            if !p.0 then (false, opts) else ParseFrom(argv, i + 2, opts.(iterations := p.1))
          else if arg == "--warmup" then
            var p := ParseInt(value, 0, opts.warmup);
            if !p.0 then (false, opts) else ParseFrom(argv, i + 2, opts.(warmup := p.1))
          else if arg == "--scenario" then
            ParseFrom(argv, i + 2, opts.(scenarioKeys := SplitCsvTokens(value)))
          else
            ParseFrom(argv, i + 2, opts.(variantKeys := SplitCsvTokens(value)))
      else if arg == "--no-tt-clear" then ParseFrom(argv, i + 1, opts.(clearTTEachRun := false))
      else if arg == "--verbose-engine" then ParseFrom(argv, i + 1, opts.(quietEngineLogs := false))
      else (false, opts)
  }

  /**
   * The command lines `parseArgs` accepts, from index i on: each argument is a known flag, or
   * a value option followed by its value, where `--iterations` needs an integer in
   * [1, 1000000] and `--warmup` one in [0, 1000000].
   */
  predicate Accepted(argv: seq<string>, i: nat)
    decreases |argv| - i
  {
    i >= |argv| ||
    (IsFlag(argv[i]) && Accepted(argv, i + 1)) ||
    (TakesValue(argv[i]) && i + 1 < |argv| &&
     (argv[i] == "--iterations" ==> ParseInt(argv[i + 1], 1, 0).0) &&
     (argv[i] == "--warmup" ==> ParseInt(argv[i + 1], 0, 0).0) &&
     Accepted(argv, i + 2))
  }

  /** Whether ParseInt succeeds does not depend on the value it would leave in place. */
  lemma ParseIntSuccessIgnoresOut(text: string, minValue: int, a: int, b: int)
    ensures ParseInt(text, minValue, a).0 == ParseInt(text, minValue, b).0
  {
  }

  /**
   * `parseArgs` succeeds exactly on the accepted command lines: it rejects `--help`, an
   * unknown option, a value option without a value, and an out-of-range count.
   */
  lemma {:induction false} ParseSucceedsIffAccepted(argv: seq<string>, i: nat, opts: Options)
    ensures ParseFrom(argv, i, opts).0 <==> Accepted(argv, i)
    decreases |argv| - i
  {
    if i < |argv| {
      var arg := argv[i];
      if arg == "--list" {
        ParseSucceedsIffAccepted(argv, i + 1, opts.(listOnly := true));
      } else if arg == "--no-tt-clear" {
        ParseSucceedsIffAccepted(argv, i + 1, opts.(clearTTEachRun := false));
      } else if arg == "--verbose-engine" {
        ParseSucceedsIffAccepted(argv, i + 1, opts.(quietEngineLogs := false));
      } else if TakesValue(arg) && i + 1 < |argv| {
        var value := argv[i + 1];
        if arg == "--iterations" {
          ParseIntSuccessIgnoresOut(value, 1, opts.iterations, 0);
          var p := ParseInt(value, 1, opts.iterations);
          if p.0 {
            ParseSucceedsIffAccepted(argv, i + 2, opts.(iterations := p.1));
          }
        } else if arg == "--warmup" {
          ParseIntSuccessIgnoresOut(value, 0, opts.warmup, 0);
          var p := ParseInt(value, 0, opts.warmup);
          if p.0 {
            ParseSucceedsIffAccepted(argv, i + 2, opts.(warmup := p.1));
          }
        } else if arg == "--scenario" {
          ParseSucceedsIffAccepted(argv, i + 2, opts.(scenarioKeys := SplitCsvTokens(value)));
        } else {
          ParseSucceedsIffAccepted(argv, i + 2, opts.(variantKeys := SplitCsvTokens(value)));
        }
      }
    }
  }

  /** Counts the parse starts with in range stay in range: at least one run, no negative warm-up. */
  lemma {:induction false} ParseKeepsCountsInRange(argv: seq<string>, i: nat, opts: Options)
    requires 1 <= opts.iterations && 0 <= opts.warmup
    ensures var (_, o) := ParseFrom(argv, i, opts); 1 <= o.iterations && 0 <= o.warmup
    decreases |argv| - i
  {
    if i < |argv| {
      var arg := argv[i];
      if arg == "--list" {
        ParseKeepsCountsInRange(argv, i + 1, opts.(listOnly := true));
      } else if arg == "--no-tt-clear" {
        ParseKeepsCountsInRange(argv, i + 1, opts.(clearTTEachRun := false));
      } else if arg == "--verbose-engine" {
        ParseKeepsCountsInRange(argv, i + 1, opts.(quietEngineLogs := false));
      } else if TakesValue(arg) && i + 1 < |argv| {
        var value := argv[i + 1];
        if arg == "--iterations" {
          var p := ParseInt(value, 1, opts.iterations);
          if p.0 {
            ParseKeepsCountsInRange(argv, i + 2, opts.(iterations := p.1));
          }
        } else if arg == "--warmup" {
          var p := ParseInt(value, 0, opts.warmup);
          if p.0 {
            ParseKeepsCountsInRange(argv, i + 2, opts.(warmup := p.1));
          }
        } else if arg == "--scenario" {
          ParseKeepsCountsInRange(argv, i + 2, opts.(scenarioKeys := SplitCsvTokens(value)));
        } else {
          ParseKeepsCountsInRange(argv, i + 2, opts.(variantKeys := SplitCsvTokens(value)));
        }
      }
    }
  }

  /**
   * `parseArgs`: walks argv from index 1 (index 0 is the program name), updating opts; it
   * stops with false at `--help`, at an unknown option, at a value option with no value
   * after it, and at a count `parseInt` refuses.
   */
  method ParseArgs(argv: seq<string>, opts: Options) returns (ok: bool, opts': Options)
    ensures (ok, opts') == ParseFrom(argv, 1, opts)
  {
    opts' := opts;
    var i := 1;
    while i < |argv|
      invariant 1 <= i
      invariant ParseFrom(argv, i, opts') == ParseFrom(argv, 1, opts)
      decreases |argv| - i
    {
      var arg := argv[i];
      if arg == "--help" {
        return false, opts';
      }
      if arg == "--list" {
        opts' := opts'.(listOnly := true);
        i := i + 1;
        continue;
      }
      if arg == "--iterations" || arg == "--warmup" || arg == "--scenario" || arg == "--variant" {
        if i + 1 >= |argv| {
          return false, opts';
        }
        i := i + 1;
        var value := argv[i];
        if arg == "--iterations" {
          var p := ParseInt(value, 1, opts'.iterations);
          if !p.0 {
            return false, opts';
          }
          opts' := opts'.(iterations := p.1);
        } else if arg == "--warmup" {
          var p := ParseInt(value, 0, opts'.warmup);
          if !p.0 {
            return false, opts';
          }
          opts' := opts'.(warmup := p.1);
        } else if arg == "--scenario" {
          var keys := SplitCsv(value);
          opts' := opts'.(scenarioKeys := keys);
        } else {
          var keys := SplitCsv(value);
          opts' := opts'.(variantKeys := keys);
        }
        i := i + 1;
        continue;
      }
      if arg == "--no-tt-clear" {
        opts' := opts'.(clearTTEachRun := false);
        i := i + 1;
        continue;
      }
      if arg == "--verbose-engine" {
        opts' := opts'.(quietEngineLogs := false);
        i := i + 1;
        continue;
      }
      return false, opts';
    }
    ok := true;
  }

  // ---------------------------------------------------------------------------
  // Scenario and variant selection
  // ---------------------------------------------------------------------------

  /** `Scenario`: a named position with its side to move, goal, scores and rule switches. */
  datatype Scenario = Scenario(key: string, description: string, nextPlayer: int, goal: int,
                               lastScore: int, nextScore: int, enableCapture: bool,
                               enableDoubleThreeRestriction: bool, rows: seq<string>)

  /** `Variant`: a named search configuration. */
  datatype Variant = Variant(key: string, description: string)

  /** The first entry of all, from index j on, whose key is `key`. */
  function FindFrom<T>(all: seq<T>, keyOf: T -> string, key: string, j: nat): (r: Option<T>)
    ensures r.Some? ==> r.value in all && keyOf(r.value) == key
    ensures r.None? <==> forall k :: j <= k < |all| ==> keyOf(all[k]) != key
    decreases |all| - j
  {
    if j >= |all| then None
    else if keyOf(all[j]) == key then Some(all[j])
    else FindFrom(all, keyOf, key, j + 1)
  }

  /** For each requested key in order, the first entry with that key; unknown keys are dropped. */
  function Matches<T>(all: seq<T>, keyOf: T -> string, requested: seq<string>): seq<T>
  {
    if requested == [] then []
    else
      var m := FindFrom(all, keyOf, requested[|requested| - 1], 0);
      Matches(all, keyOf, requested[..|requested| - 1]) + (if m.Some? then [m.value] else [])
  }

  /** The requested keys that name some entry, in request order. */
  function KnownKeys<T>(all: seq<T>, keyOf: T -> string, requested: seq<string>): seq<string>
  {
    if requested == [] then []
    else
      var key := requested[|requested| - 1];
      KnownKeys(all, keyOf, requested[..|requested| - 1]) +
        (if exists k :: 0 <= k < |all| && keyOf(all[k]) == key then [key] else [])
  }

  /**
   * The matches are entries of all, and their keys are exactly the known requested keys in
   * request order (a key requested twice is matched twice).
   */
  lemma {:induction false} MatchesFollowRequest<T>(all: seq<T>, keyOf: T -> string, requested: seq<string>)
    ensures forall x :: x in Matches(all, keyOf, requested) ==> x in all
    ensures |Matches(all, keyOf, requested)| == |KnownKeys(all, keyOf, requested)|
    ensures forall k :: 0 <= k < |Matches(all, keyOf, requested)| ==>
      keyOf(Matches(all, keyOf, requested)[k]) == KnownKeys(all, keyOf, requested)[k]
  {
    if requested != [] {
      MatchesFollowRequest(all, keyOf, requested[..|requested| - 1]);
    }
  }

  /** Searches all for each requested key in turn and keeps the first match of each. */
  method MatchRequested<T>(all: seq<T>, keyOf: T -> string, requested: seq<string>)
    returns (selected: seq<T>)
    ensures selected == Matches(all, keyOf, requested)
  {
    selected := [];
    for i := 0 to |requested|
      invariant selected == Matches(all, keyOf, requested[..i])
    {
      assert requested[..i + 1][..i] == requested[..i];
      var j := 0;
      while j < |all|
        invariant 0 <= j <= |all|
        invariant FindFrom(all, keyOf, requested[i], j) == FindFrom(all, keyOf, requested[i], 0)
      {
        if keyOf(all[j]) == requested[i] {
          selected := selected + [all[j]];
          break;
        }
        j := j + 1;
      }
    }
    assert requested[..|requested|] == requested;
  }

  /**
   * `selectScenarios`: every scenario for an empty request or one naming "all"; otherwise the
   * first scenario with each requested key, in request order, unknown keys dropped.
   */
  method SelectScenarios(all: seq<Scenario>, requested: seq<string>) returns (selected: seq<Scenario>)
    ensures requested == [] || "all" in requested ==> selected == all
    ensures requested != [] && "all" !in requested ==>
      selected == Matches(all, (s: Scenario) => s.key, requested)
  {
    var wantsAll := Contains(requested, "all");
    if requested == [] || wantsAll {
      return all;
    }
    selected := MatchRequested(all, (s: Scenario) => s.key, requested);
  }

  /**
   * `selectVariants`: a copy of every variant for an empty request, every variant for one
   * naming "all", and otherwise the matches as for scenarios.
   */
  method SelectVariants(all: seq<Variant>, requested: seq<string>) returns (selected: seq<Variant>)
    ensures requested == [] || "all" in requested ==> selected == all
    ensures requested != [] && "all" !in requested ==>
      selected == Matches(all, (v: Variant) => v.key, requested)
  {
    if requested == [] {
      var defaults: seq<Variant> := [];
      for i := 0 to |all|
        invariant defaults == all[..i]
      {
        defaults := defaults + [all[i]];
      }
      assert all[..|all|] == all;
      return defaults;
    }
    var wantsAll := Contains(requested, "all");
    if wantsAll {
      return all;
    }
    selected := MatchRequested(all, (v: Variant) => v.key, requested);
  }

  // ---------------------------------------------------------------------------
  // Board rows
  // ---------------------------------------------------------------------------

  /** `emptyRows`: 19 rows of 19 '.' cells. */
  function EmptyRows(): (rows: seq<string>)
    ensures |rows| == BoardSize && forall y :: 0 <= y < BoardSize ==> rows[y] == seq(BoardSize, _ => '.')
  {
    seq(BoardSize, _ => seq(BoardSize, _ => '.'))
  }

  /**
   * `placeStone`: writes `stone` at column x of row y when both lie in 0..18 and does
   * nothing otherwise. On the board the rows must be long enough, as indexing is unchecked.
   */
  function PlaceStone(rows: seq<string>, x: int, y: int, stone: char): (r: seq<string>)
    requires 0 <= x < BoardSize && 0 <= y < BoardSize ==> y < |rows| && x < |rows[y]|
    ensures !(0 <= x < BoardSize && 0 <= y < BoardSize) ==> r == rows
    ensures 0 <= x < BoardSize && 0 <= y < BoardSize ==>
      |r| == |rows| && |r[y]| == |rows[y]| && r[y][x] == stone &&
      (forall j :: 0 <= j < |rows| && j != y ==> r[j] == rows[j]) &&
      forall k :: 0 <= k < |rows[y]| && k != x ==> r[y][k] == rows[y][k]
  {
    if x < 0 || x >= BoardSize || y < 0 || y >= BoardSize then rows
    else rows[y := rows[y][x := stone]]
  }

  predicate IsStone(c: char) {
    c == PlayerX || c == PlayerO
  }

  /** The 'X' and 'O' cells of one row. */
  function RowStones(row: string): nat {
    if row == [] then 0 else RowStones(row[..|row| - 1]) + (if IsStone(row[|row| - 1]) then 1 else 0)
  }

  /** The 'X' and 'O' cells of all rows. */
  function Stones(rows: seq<string>): nat {
    if rows == [] then 0 else Stones(rows[..|rows| - 1]) + RowStones(rows[|rows| - 1])
  }

  /** `countStones`: counts the 'X' and 'O' cells, row by row. */
  method CountStones(s: Scenario) returns (count: nat)
    ensures count == Stones(s.rows)
  {
    count := 0;
    for y := 0 to |s.rows|
      invariant count == Stones(s.rows[..y])
    {
      assert s.rows[..y + 1][..y] == s.rows[..y];
      var row := s.rows[y];
      for x := 0 to |row|
        invariant count == Stones(s.rows[..y]) + RowStones(row[..x])
      {
        assert row[..x + 1][..x] == row[..x];
        if row[x] == PlayerX || row[x] == PlayerO {
          count := count + 1;
        }
      }
      assert row[..|row|] == row;
    }
    assert s.rows[..|s.rows|] == s.rows;
  }

  /** Changing one cell changes a row's count by what leaves and what arrives. */
  lemma {:induction false} RowStonesUpdate(row: string, x: nat, c: char)
    requires x < |row|
    ensures RowStones(row[x := c]) + (if IsStone(row[x]) then 1 else 0) ==
            RowStones(row) + (if IsStone(c) then 1 else 0)
    decreases |row|
  {
    var n := |row| - 1;
    if x < n {
      RowStonesUpdate(row[..n], x, c);
      assert row[x := c][..n] == row[..n][x := c];
    } else {
      assert row[x := c][..n] == row[..n];
    }
  }

  /** Changing one row changes the total by that row's change. */
  lemma {:induction false} StonesUpdate(rows: seq<string>, y: nat, row: string)
    requires y < |rows|
    ensures Stones(rows[y := row]) + RowStones(rows[y]) == Stones(rows) + RowStones(row)
    decreases |rows|
  {
    var n := |rows| - 1;
    if y < n {
      StonesUpdate(rows[..n], y, row);
      assert rows[y := row][..n] == rows[..n][y := row];
    } else {
      assert rows[y := row][..n] == rows[..n];
    }
  }

  /** The empty board holds no stone. */
  lemma {:induction false} EmptyRowsHaveNoStones()
    ensures Stones(EmptyRows()) == 0
  {
    var rows := EmptyRows();
    forall y | 0 <= y <= BoardSize
      ensures Stones(rows[..y]) == 0
    {
      EmptyPrefix(rows, y);
    }
    assert rows[..BoardSize] == rows;
  }

  lemma {:induction false} EmptyPrefix(rows: seq<string>, y: nat)
    requires rows == EmptyRows() && y <= BoardSize
    ensures Stones(rows[..y]) == 0
  {
    if y > 0 {
      EmptyPrefix(rows, y - 1);
      assert rows[..y][..y - 1] == rows[..y - 1];
      assert rows[..y][y - 1] == rows[y - 1];
      DotsHaveNoStones(rows[y - 1], BoardSize);
      assert rows[y - 1][..BoardSize] == rows[y - 1];
    }
  }

  lemma {:induction false} DotsHaveNoStones(row: string, n: nat)
    requires n <= |row| && forall k :: 0 <= k < |row| ==> row[k] == '.'
    ensures RowStones(row[..n]) == 0
  {
    if n > 0 {
      DotsHaveNoStones(row, n - 1);
      assert row[..n][..n - 1] == row[..n - 1];
    } else {
      assert row[..0] == [];
    }
  }

  /** Placing a stone on an empty ('.') cell of the board adds exactly one to the count. */
  lemma PlaceStoneAddsOne(rows: seq<string>, x: int, y: int, stone: char)
    requires 0 <= x < BoardSize && 0 <= y < BoardSize && y < |rows| && x < |rows[y]|
    requires rows[y][x] == '.' && IsStone(stone)
    ensures Stones(PlaceStone(rows, x, y, stone)) == Stones(rows) + 1
  {
    RowStonesUpdate(rows[y], x, stone);
    StonesUpdate(rows, y, rows[y][x := stone]);
  }

  /** `hasValidBoardShape`: 19 rows, each 19 cells long. */
  method HasValidBoardShape(s: Scenario) returns (valid: bool)
    ensures valid <==> |s.rows| == BoardSize && forall y :: 0 <= y < |s.rows| ==> |s.rows[y]| == BoardSize
  {
    if |s.rows| != BoardSize {
      return false;
    }
    for i := 0 to |s.rows|
      invariant forall y :: 0 <= y < i ==> |s.rows[y]| == BoardSize
    {
      if |s.rows[i]| != BoardSize {
        return false;
      }
    }
    return true;
  }
}
