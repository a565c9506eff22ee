/**
 * Build-log diagnostic extraction (app/services/slidev_project_service.rb:67-152):
 * the message a failed Slidev build is reported with, computed from the
 * build log by an ordered fallback chain
 *   1. the Vite/Vue compile-error extractor,
 *   2. the first five lines with an error keyword,
 *   3. a fixed message naming the log file.
 */
module BuildLog {
  import opened Wrappers
  import opened Text
  import opened LogPatterns

  const FAILED_HEADER: string := "Slidevのビルドに失敗しました:\n\n"
  const SYNTAX_ADVICE: string := "\n\nslides.mdの構文を確認してください。"
  const LOG_MISSING: string := "Slidevのビルドに失敗しました。ログファイルが見つかりません。"
  const SEE_LOG: string := "Slidevのビルドに失敗しました。詳細はログファイルを確認してください: "
  const FILE_KEY: string := "file:"
  const SLIDES_FILE: string := "slides.md"

  /** The build log's path relative to the application root. */
  function LogFileName(slug: string): string {
    "log/slidev_build_" + slug + ".log"
  }

  /** The last-resort message (source line 82). */
  function GenericFailure(slug: string): string {
    SEE_LOG + LogFileName(slug)
  }

  /** Ruby's `find_index`: the first position whose element satisfies `p`. */
  function FirstIndex<T>(xs: seq<T>, p: T -> bool): (r: Option<nat>)
    ensures r.Some? ==> r.value < |xs| && p(xs[r.value])
    ensures r.Some? ==> forall j | 0 <= j < r.value :: !p(xs[j])
    ensures r.None? <==> forall j | 0 <= j < |xs| :: !p(xs[j])
    decreases |xs|
  {
    if |xs| == 0 then None
    else if p(xs[0]) then Some(0)
    else
      match FirstIndex(xs[1..], p)
      case None => None
      case Some(i) => Some(i + 1)
  }

  /** The first position satisfying `p` is the one `FirstIndex` finds. */
  lemma FirstIndexIs<T>(xs: seq<T>, p: T -> bool, i: nat)
    requires i < |xs| && p(xs[i])
    requires forall j | 0 <= j < i :: !p(xs[j])
    ensures FirstIndex(xs, p) == Some(i)
  {
    var k := FirstIndex(xs, p);
    assert k.Some?;
    assert !(k.value < i);
    assert !(k.value > i);
  }

  /** Every element of a joined list appears in any text built around the join. */
  lemma JoinContains(xs: seq<string>, sep: string, i: nat, pre: string, post: string)
    requires i < |xs|
    ensures Contains(pre + Join(xs, sep) + post, xs[i])
  {
    var x, z := JoinSplit(xs, sep, i);
    AppendRegroup(pre, x, xs[i], z, post);
    ContainsMiddle(pre + x, xs[i], z + post);
  }

  // ---------------------------------------------------------------------
  // Hints (source lines 141-151)

  /** One row of the hint table: a case-insensitive pattern and its hint. */
  datatype HintRule = HintRule(pattern: string, hint: string)

  /** The hint table, in the order the `case` statement tries its branches. */
  const HINT_RULES: seq<HintRule> := [
    HintRule("Element is missing end tag", "ヒント: HTMLタグが正しく閉じられていません。<div>には</div>が必要です。"),
    HintRule("Unexpected token", "ヒント: 構文エラーがあります。Markdown記法やコードブロックの閉じ忘れを確認してください。"),
    HintRule("Cannot find module", "ヒント: モジュールが見つかりません。package.jsonの依存関係を確認してください。")
  ]

  predicate RuleMatches(message: string, rule: HintRule) {
    ContainsIgnoreCase(message, rule.pattern)
  }

  /** `get_error_hint`: the hint of the first table row whose pattern occurs in `message`. */
  function ErrorHint(message: string): (r: Option<string>)
    ensures r.None? <==> forall i | 0 <= i < |HINT_RULES| :: !RuleMatches(message, HINT_RULES[i])
    ensures r.Some? ==> exists i | 0 <= i < |HINT_RULES| ::
              && r.value == HINT_RULES[i].hint
              && RuleMatches(message, HINT_RULES[i])
              && forall j | 0 <= j < i :: !RuleMatches(message, HINT_RULES[j])
  {
    match FirstIndex(HINT_RULES, (rule: HintRule) => RuleMatches(message, rule))
    case Some(i) => Some(HINT_RULES[i].hint)
    case None => None
  }

  /** An earlier row of the table always wins over a later one. */
  lemma ErrorHintPriority(message: string, i: nat)
    requires i < |HINT_RULES| && RuleMatches(message, HINT_RULES[i])
    requires forall j | 0 <= j < i :: !RuleMatches(message, HINT_RULES[j])
    ensures ErrorHint(message) == Some(HINT_RULES[i].hint)
  {
    var k :| 0 <= k < |HINT_RULES| && ErrorHint(message).value == HINT_RULES[k].hint
             && RuleMatches(message, HINT_RULES[k])
             && forall j | 0 <= j < k :: !RuleMatches(message, HINT_RULES[j]);
    assert k == i;
  }

  function HintLines(message: string): seq<string> {
    match ErrorHint(message)
    case Some(h) => [h]
    case None => []
  }

  // ---------------------------------------------------------------------
  // The Vite extractor (source lines 86-126)

  predicate IsMarkerLine(line: string) {
    Contains(line, VITE_MARKER) || Contains(line, SYNTAX_MARKER)
  }

  predicate IsFileLine(line: string) {
    Contains(line, FILE_KEY) && Contains(line, SLIDES_FILE)
  }

  /** The message taken from the marker line (source lines 95-102); `[vite:vue]` is checked first. */
  function MessageLines(line: string): (r: seq<string>)
    ensures |r| <= 1 && (|r| == 1 <==> IsMarkerLine(line))
    ensures Contains(line, VITE_MARKER) ==> r == [StripViteTag(Strip(line))]
    ensures !Contains(line, VITE_MARKER) && Contains(line, SYNTAX_MARKER) ==> r == [StripSyntaxTag(Strip(line))]
  {
    if Contains(line, VITE_MARKER) then [StripViteTag(Strip(line))]
    else if Contains(line, SYNTAX_MARKER) then [StripSyntaxTag(Strip(line))]
    else []
  }

  /** The location sentence for the first `file:` line mentioning slides.md (source lines 105-117). */
  function LocationLines(lines: seq<string>): seq<string> {
    match FirstIndex(lines, IsFileLine)
    case None => []
    case Some(i) =>
      match FileLocation(lines[i])
      case Some(loc) => [LocationText(loc)]
      case None => []
  }

  /** `error_lines` before the hint is added: the message, then the location if any. */
  function ErrorLines(lines: seq<string>, marker: nat): seq<string>
    requires marker < |lines|
  {
    MessageLines(lines[marker]) + LocationLines(lines)
  }

  /** The lines of the composed diagnostic: `error_lines` and the hint for its first line. */
  function ReportLines(errorLines: seq<string>): seq<string>
    requires |errorLines| > 0
  {
    errorLines + HintLines(errorLines[0])
  }

  /** `extract_vite_error`. */
  function ViteError(lines: seq<string>): (r: Option<string>)
    ensures r.None? <==> forall i | 0 <= i < |lines| :: !IsMarkerLine(lines[i])
  {
    match FirstIndex(lines, IsMarkerLine)
    case None => None
    case Some(i) =>
      var errorLines := ErrorLines(lines, i);
      if |errorLines| == 0 then None
      else Some(FAILED_HEADER + Join(ReportLines(errorLines), "\n") + SYNTAX_ADVICE)
  }

  /**
   * Once some line carries a marker, the diagnostic is built from the FIRST
   * such line: its message, then the location sentence if the first `file:`
   * line yields one, then at most one hint chosen from the message alone.
   */
  lemma ViteErrorShape(lines: seq<string>, i: nat)
    requires i < |lines| && IsMarkerLine(lines[i])
    requires forall j | 0 <= j < i :: !IsMarkerLine(lines[j])
    ensures var message := MessageLines(lines[i])[0];
            var report := [message] + LocationLines(lines) + HintLines(message);
            && |LocationLines(lines)| <= 1
            && ViteError(lines) == Some(FAILED_HEADER + Join(report, "\n") + SYNTAX_ADVICE)
  {
    FirstIndexIs(lines, IsMarkerLine, i);
    var message := MessageLines(lines[i])[0];
    assert MessageLines(lines[i]) == [message];
    var errorLines := ErrorLines(lines, i);
    assert errorLines[0] == message;
    assert ReportLines(errorLines) == [message] + LocationLines(lines) + HintLines(message);
  }

  /** When the marker line holds both markers, the `[vite:vue]` prefix removal applies. */
  lemma ViteMarkerWins(line: string)
    requires Contains(line, VITE_MARKER) && Contains(line, SYNTAX_MARKER)
    ensures MessageLines(line) == [StripViteTag(Strip(line))]
  {
  }

  /**
   * A marker line reading `[vite:vue] [plugin vite:vue] <msg>` once trimmed
   * reports exactly `<msg>` as its message.
   */
  lemma ViteMessageIsTrimmedLineWithoutPrefix(line: string, w1: string, w2: string, msg: string)
    requires Strip(line) == VITE_MARKER + w1 + PLUGIN_TAG + w2 + msg
    requires forall i | 0 <= i < |w1| :: IsRegexSpace(w1[i])
    requires forall i | 0 <= i < |w2| :: IsRegexSpace(w2[i])
    requires msg == [] || !IsRegexSpace(msg[0])
    requires !Contains(msg, VITE_MARKER)
    ensures MessageLines(line) == [msg]
  {
    StripViteTagPrefix(Strip(line), w1, w2, msg);
    ContainsThroughStrip(line, VITE_MARKER);
    ViteLineMessage(line, msg);
  }

  lemma ViteLineMessage(line: string, msg: string)
    requires Contains(line, VITE_MARKER)
    requires StripViteTag(Strip(line)) == msg
    ensures MessageLines(line) == [msg]
  {
  }

  /** What the trimmed line starts with occurs in the line itself. */
  lemma ContainsThroughStrip(line: string, t: string)
    requires StartsWith(Strip(line), t)
    ensures Contains(line, t)
  {
    var x, z := StripDecompose(line);
    assert line[|x|..][..|t|] == Strip(line)[..|t|];
    ContainsAt(line, t, |x|);
  }

  /** The digits captured by a location match are non-empty digit strings. */
  lemma LocationDigits(s: string, loc: Location)
    requires FileLocation(s) == Some(loc)
    ensures |loc.line| > 0 && AllDigits(loc.line) && |loc.column| > 0 && AllDigits(loc.column)
  {
    var q :| 0 <= q <= |s| && (MatchChunk(s[q..]) == Some(loc) || MatchSlides(s[q..]) == Some(loc));
    if MatchChunk(s[q..]) == Some(loc) {
      MatchAtDigits(ChunkFile, s[q..], loc);
    } else {
      MatchAtDigits(SlidesFile, s[q..], loc);
    }
  }

  /** Either pattern captures non-empty digit strings. */
  lemma MatchAtDigits(form: LocationForm, t: string, loc: Location)
    requires MatchAt(form, t) == Some(loc)
    ensures |loc.line| > 0 && AllDigits(loc.line) && |loc.column| > 0 && AllDigits(loc.column)
  {
    match form
    case ChunkFile =>
      var u := t[|CHUNK_HEAD|..];
      var n := DigitRun(u);
      LineColAtSound(u[n + |CHUNK_TAIL|..]);
    case SlidesFile =>
      LineColAtSound(t[|SLIDES_HEAD|..]);
  }

  /** The location sentence comes from the first `file:` line that mentions slides.md. */
  lemma LocationLinesFound(lines: seq<string>, f: nat, loc: Location)
    requires f < |lines| && IsFileLine(lines[f])
    requires forall j | 0 <= j < f :: !IsFileLine(lines[j])
    requires FileLocation(lines[f]) == Some(loc)
    ensures LocationLines(lines) == [LocationText(loc)]
  {
    FirstIndexIs(lines, IsFileLine, f);
  }

  /**
   * A location found on the first `file:` line is reported: the diagnostic
   * contains its sentence, and the line and column can be read back from
   * that sentence unchanged.
   */
  lemma ViteErrorReportsLocation(lines: seq<string>, i: nat, f: nat, loc: Location)
    requires i < |lines| && IsMarkerLine(lines[i])
    requires forall j | 0 <= j < i :: !IsMarkerLine(lines[j])
    requires f < |lines| && IsFileLine(lines[f])
    requires forall j | 0 <= j < f :: !IsFileLine(lines[j])
    requires FileLocation(lines[f]) == Some(loc)
    ensures ViteError(lines).Some?
    ensures Contains(ViteError(lines).value, LocationText(loc))
    ensures ParseLocationText(LocationText(loc)) == Some(loc)
  {
    LocationLinesFound(lines, f, loc);
    ViteErrorShape(lines, i);
    var message := MessageLines(lines[i])[0];
    ReportHasLine(message, LocationText(loc), HintLines(message));
    FileLocationRoundTrip(lines[f], loc);
  }

  /** The line after the message in a report is found in the diagnostic built from it. */
  lemma ReportHasLine(message: string, line: string, hints: seq<string>)
    ensures Contains(FAILED_HEADER + Join([message] + [line] + hints, "\n") + SYNTAX_ADVICE, line)
  {
    var report := [message] + [line] + hints;
    assert report[1] == line;
    JoinContains(report, "\n", 1, FAILED_HEADER, SYNTAX_ADVICE);
  }

  /** The sentence for a location found on a line reads back as that location. */
  lemma FileLocationRoundTrip(s: string, loc: Location)
    requires FileLocation(s) == Some(loc)
    ensures ParseLocationText(LocationText(loc)) == Some(loc)
  {
    LocationDigits(s, loc);
    LocationTextRoundTrip(loc);
  }

  /**
   * The diagnostic has no location sentence exactly when there is no
   * `file:` line mentioning slides.md, or the first one has no location:
   * later `file:` lines are never looked at.
   */
  lemma ViteErrorWithoutLocation(lines: seq<string>)
    ensures var f := FirstIndex(lines, IsFileLine);
            LocationLines(lines) == [] <==> f.None? || FileLocation(lines[f.value]).None?
  {
  }

  // ---------------------------------------------------------------------
  // The keyword extractor (source lines 129-138)

  const ERROR_COLON: string := "Error:"
  const ERROR_UPPER: string := "ERROR"
  const FAILED_WORD: string := "failed"
  const KEYWORD_LIMIT: nat := 5

  /** `line =~ /Error:/i || line =~ /ERROR/i || line.include?('failed')`. */
  predicate IsKeywordLine(line: string) {
    ContainsIgnoreCase(line, ERROR_COLON) || ContainsIgnoreCase(line, ERROR_UPPER) || Contains(line, FAILED_WORD)
  }

  /** Ruby's `select` with the keyword test: the keyword lines, in log order. */
  function KeywordLines(lines: seq<string>): (r: seq<string>)
    ensures |r| <= |lines|
    ensures forall k | 0 <= k < |r| :: IsKeywordLine(r[k])
    ensures forall i | 0 <= i < |lines| && IsKeywordLine(lines[i]) :: lines[i] in r
    ensures forall k | 0 <= k < |r| :: r[k] in lines
    decreases |lines|
  {
    if |lines| == 0 then []
    else (if IsKeywordLine(lines[0]) then [lines[0]] else []) + KeywordLines(lines[1..])
  }

  /** Selection distributes over concatenation, so the original order is kept. */
  lemma {:induction false} KeywordLinesAppend(a: seq<string>, b: seq<string>)
    ensures KeywordLines(a + b) == KeywordLines(a) + KeywordLines(b)
    decreases |a|
  {
    if |a| == 0 {
      assert a + b == b;
    } else {
      assert (a + b)[1..] == a[1..] + b;
      KeywordLinesAppend(a[1..], b);
    }
  }

  /** Ruby's `first(n)`. */
  function Take<T>(xs: seq<T>, n: nat): (r: seq<T>)
    ensures |r| <= n && |r| <= |xs|
    ensures |r| == n || |r| == |xs|
    ensures r == xs[..|r|]
  {
    if |xs| <= n then xs else xs[..n]
  }

  /** `extract_general_error`. */
  function GeneralError(lines: seq<string>): (r: Option<string>)
    ensures r.None? <==> forall i | 0 <= i < |lines| :: !IsKeywordLine(lines[i])
    ensures r.Some? ==> StartsWith(r.value, FAILED_HEADER)
    ensures r.Some? ==> r.value[|FAILED_HEADER|..] == Strip(Join(Take(KeywordLines(lines), KEYWORD_LIMIT), "\n"))
  {
    var first := Take(KeywordLines(lines), KEYWORD_LIMIT);
    if |first| == 0 then None
    else
      var m := FAILED_HEADER + Strip(Join(first, "\n"));
      assert m[..|FAILED_HEADER|] == FAILED_HEADER;
      Some(m)
  }

  /**
   * Only the first five keyword lines are reported: once a log has five,
   * nothing that follows changes the diagnostic.
   */
  lemma GeneralErrorFirstFive(a: seq<string>, b: seq<string>)
    requires |KeywordLines(a)| >= KEYWORD_LIMIT
    ensures GeneralError(a + b) == GeneralError(a)
  {
    KeywordLinesAppend(a, b);
    var ka := KeywordLines(a);
    assert Take(ka + KeywordLines(b), KEYWORD_LIMIT) == ka[..KEYWORD_LIMIT] == Take(ka, KEYWORD_LIMIT);
  }

  lemma ContainsAfter(p: string, s: string, t: string)
    requires Contains(s, t)
    ensures Contains(p + s, t)
  {
    var i := ContainsWitness(s, t);
    assert (p + s)[|p| + i..] == s[i..];
    ContainsAt(p + s, t, |p| + i);
  }

  /** A text matched case-insensitively starts, in `line`, at a character `strip` keeps. */
  lemma IgnoreCaseNonSpace(line: string, t: string) returns (i: nat)
    requires ContainsIgnoreCase(line, t) && |t| > 0 && !IsStripSpace(t[0])
    ensures i < |line| && !IsStripSpace(line[i])
  {
    var low := Lower(line);
    var j := ContainsWitness(low, Lower(t));
    assert low[j..][0] == Lower(t)[0];
    i := j;
  }

  /** A keyword line holds a character `strip` keeps. */
  lemma KeywordNonSpace(line: string) returns (i: nat)
    requires IsKeywordLine(line)
    ensures i < |line| && !IsStripSpace(line[i])
  {
    if Contains(line, FAILED_WORD) {
      i := ContainsWitness(line, FAILED_WORD);
      assert line[i..][0] == FAILED_WORD[0];
    } else if ContainsIgnoreCase(line, ERROR_COLON) {
      i := IgnoreCaseNonSpace(line, ERROR_COLON);
    } else {
      i := IgnoreCaseNonSpace(line, ERROR_UPPER);
    }
  }

  /**
   * Every element of a list that holds a non-space character survives,
   * trimmed, in the trimmed join of the list.
   */
  lemma StripJoinKeeps(xs: seq<string>, sep: string, k: nat, n: nat)
    requires k < |xs| && n < |xs[k]| && !IsStripSpace(xs[k][n])
    ensures Contains(Strip(Join(xs, sep)), Strip(xs[k]))
  {
    var x, z := JoinSplit(xs, sep, k);
    StripKeepsPart(Join(xs, sep), x, xs[k], z, n);
  }

  /**
   * Each of the (at most five) keyword lines reported appears in the
   * diagnostic, up to the whitespace at its two ends.
   */
  lemma GeneralErrorKeepsLines(lines: seq<string>, k: nat)
    requires k < |Take(KeywordLines(lines), KEYWORD_LIMIT)|
    ensures GeneralError(lines).Some?
    ensures Contains(GeneralError(lines).value, Strip(Take(KeywordLines(lines), KEYWORD_LIMIT)[k]))
  {
    var first := Take(KeywordLines(lines), KEYWORD_LIMIT);
    var n := KeywordNonSpace(first[k]);
    StripJoinKeeps(first, "\n", k, n);
    ContainsAfter(FAILED_HEADER, Strip(Join(first, "\n")), Strip(first[k]));
  }

  // ---------------------------------------------------------------------
  // The fallback chain (source lines 67-83)

  /**
   * `extract_build_error`: `log` is the build log's text, `None` when the
   * log file does not exist.
   */
  function ExtractBuildError(log: Option<string>, slug: string): (r: string)
    ensures log.None? ==> r == LOG_MISSING
    ensures log.Some? && (exists i | 0 <= i < |Lines(log.value)| :: IsMarkerLine(Lines(log.value)[i])) ==>
              Some(r) == ViteError(Lines(log.value))
    ensures log.Some? && (forall i | 0 <= i < |Lines(log.value)| :: !IsMarkerLine(Lines(log.value)[i])) ==>
              r == (match GeneralError(Lines(log.value)) case Some(m) => m case None => GenericFailure(slug))
    ensures log.Some? && (forall i | 0 <= i < |Lines(log.value)| ::
              !IsMarkerLine(Lines(log.value)[i]) && !IsKeywordLine(Lines(log.value)[i])) ==>
              r == GenericFailure(slug) && Contains(r, LogFileName(slug))
  {
    match log
    case None => LOG_MISSING
    case Some(content) =>
      var lines := Lines(content);
      match ViteError(lines)
      case Some(m) => m
      case None =>
        match GeneralError(lines)
        case Some(m) => m
        case None =>
          ContainsMiddle(SEE_LOG, LogFileName(slug), []);
          assert SEE_LOG + LogFileName(slug) + [] == GenericFailure(slug);
          GenericFailure(slug)
  }

  /** A log without keyword lines selects nothing. */
  lemma {:induction false} KeywordLinesNone(lines: seq<string>)
    requires forall j | 0 <= j < |lines| :: !IsKeywordLine(lines[j])
    ensures KeywordLines(lines) == []
    decreases |lines|
  {
    if |lines| > 0 {
      KeywordLinesNone(lines[1..]);
    }
  }

  /** The first keyword line of the log heads the selection. */
  lemma KeywordLinesFirst(lines: seq<string>, i: nat)
    requires i < |lines| && IsKeywordLine(lines[i])
    requires forall j | 0 <= j < i :: !IsKeywordLine(lines[j])
    ensures |KeywordLines(lines)| > 0 && KeywordLines(lines)[0] == lines[i]
  {
    assert lines == lines[..i] + [lines[i]] + lines[i + 1..];
    KeywordLinesAppend(lines[..i] + [lines[i]], lines[i + 1..]);
    KeywordLinesAppend(lines[..i], [lines[i]]);
    KeywordLinesNone(lines[..i]);
    assert KeywordLines([lines[i]]) == [lines[i]];
  }

  /** A keyword report is never mistaken for the generic fallback: the two texts part at character 17. */
  lemma HeaderIsNotGeneric(r: string, slug: string)
    requires StartsWith(r, FAILED_HEADER)
    ensures r != GenericFailure(slug)
  {
    PrefixesDiffer(r, GenericFailure(slug), FAILED_HEADER, SEE_LOG, 17);
  }

  lemma PrefixesDiffer(r: string, g: string, p: string, q: string, k: nat)
    requires StartsWith(r, p) && StartsWith(g, q)
    requires k < |p| && k < |q| && p[k] != q[k]
    ensures r != g
  {
    assert r[k] == p[k];
  }

  /**
   * A log with no marker but with an error-keyword line yields that line
   * (trimmed) rather than the generic fallback.
   */
  lemma KeywordLineReported(content: string, slug: string, i: nat)
    requires forall j | 0 <= j < |Lines(content)| :: !IsMarkerLine(Lines(content)[j])
    requires i < |Lines(content)| && IsKeywordLine(Lines(content)[i])
    requires forall j | 0 <= j < i :: !IsKeywordLine(Lines(content)[j])
    ensures ExtractBuildError(Some(content), slug) != GenericFailure(slug)
    ensures Contains(ExtractBuildError(Some(content), slug), Strip(Lines(content)[i]))
  {
    var lines := Lines(content);
    KeywordLinesFirst(lines, i);
    GeneralErrorKeepsLines(lines, 0);
    var r := ExtractBuildError(Some(content), slug);
    assert r == GeneralError(lines).value;
    HeaderIsNotGeneric(r, slug);
  }
}
