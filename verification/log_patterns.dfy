/**
 * The regular expressions the build-log extractor applies to single log
 * lines, written out as scanners:
 *   - the two `gsub` prefix removals (app/services/slidev_project_service.rb:97,100),
 *     `\[vite:vue\]\s*\[plugin vite:vue\]\s*` and its line-anchored
 *     `^SyntaxError:\s*\[plugin vite:vue\]\s*` variant;
 *   - the two source-location patterns (lines 108 and 112),
 *     `slides\.md__slidev_\d+\.md:(\d+):(\d+)` and `slides\.md:(\d+):(\d+)`.
 * Every quantifier in these patterns is followed by a character it cannot
 * consume, so greedy matching never backtracks and a match at a position
 * is unique; a search is the leftmost position where that match exists.
 */
module LogPatterns {
  import opened Wrappers
  import opened Text

  const VITE_MARKER: string := "[vite:vue]"
  const SYNTAX_MARKER: string := "SyntaxError:"
  const PLUGIN_TAG: string := "[plugin vite:vue]"

  // ---------------------------------------------------------------------
  // Prefix removal

  /** How many characters of Ruby's `\s` class `s` starts with (what `\s*` consumes). */
  function SpaceRun(s: string): (n: nat)
    ensures n <= |s|
    ensures forall i | 0 <= i < n :: IsRegexSpace(s[i])
    ensures n == |s| || !IsRegexSpace(s[n])
    decreases |s|
  {
    if |s| > 0 && IsRegexSpace(s[0]) then 1 + SpaceRun(s[1..]) else 0
  }

  /**
   * The length of the match of `lead\s*tag\s*` at the very start of `s`,
   * if there is one; the extractor's patterns have `tag` = `[plugin vite:vue]`.
   */
  function TagMatch(s: string, lead: string, tag: string): (r: Option<nat>)
    ensures r.Some? ==> |lead| + |tag| <= r.value <= |s| && StartsWith(s, lead)
  {
    if !StartsWith(s, lead) then None
    else
      var a := |lead| + SpaceRun(s[|lead|..]);
      if !StartsWith(s[a..], tag) then None
      else
        var b := a + |tag|;
        Some(b + SpaceRun(s[b..]))
  }

  /**
   * Ruby's `s.gsub(re, '')` for `re` = `lead\s*tag\s*`, prefixed with `^`
   * when `anchored`. The scan removes each leftmost match and resumes after
   * it; `atLineStart` tells whether the scan position is the start of the
   * text or follows a "\n" there, which is where `^` matches.
   */
  function RemoveTag(s: string, lead: string, tag: string, anchored: bool, atLineStart: bool): string
    requires |lead| > 0
    decreases |s|
  {
    if |s| == 0 then ""
    else
      var m := if anchored && !atLineStart then None else TagMatch(s, lead, tag);
      match m
      case Some(n) => RemoveTag(s[n..], lead, tag, anchored, s[n - 1] == '\n')
      case None => [s[0]] + RemoveTag(s[1..], lead, tag, anchored, s[0] == '\n')
  }

  /** The message part of a `[vite:vue]` line (source line 97), on the stripped line. */
  function StripViteTag(s: string): string {
    RemoveTag(s, VITE_MARKER, PLUGIN_TAG, false, true)
  }

  /** The message part of a `SyntaxError:` line (source line 100), on the stripped line. */
  function StripSyntaxTag(s: string): string {
    RemoveTag(s, SYNTAX_MARKER, PLUGIN_TAG, true, true)
  }

  lemma {:induction false} SpaceRunBefore(w: string, t: string)
    requires forall i | 0 <= i < |w| :: IsRegexSpace(w[i])
    requires t == [] || !IsRegexSpace(t[0])
    ensures SpaceRun(w + t) == |w|
    decreases |w|
  {
    if |w| > 0 {
      assert (w + t)[1..] == w[1..] + t;
      SpaceRunBefore(w[1..], t);
    } else {
      assert w + t == t;
    }
  }

  /** A text without the lead marker is left as it is. */
  lemma {:induction false} RemoveTagWithoutLead(s: string, lead: string, tag: string, anchored: bool, atLineStart: bool)
    requires |lead| > 0 && !Contains(s, lead)
    ensures RemoveTag(s, lead, tag, anchored, atLineStart) == s
    decreases |s|
  {
    if |s| > 0 {
      assert !StartsWith(s, lead);
      RemoveTagWithoutLead(s[1..], lead, tag, anchored, s[0] == '\n');
      assert [s[0]] + s[1..] == s;
    }
  }

  /** The anchored removal touches nothing away from the start of a line. */
  lemma {:induction false} RemoveTagOffLineStart(s: string, lead: string, tag: string)
    requires |lead| > 0
    requires forall i | 0 <= i < |s| :: s[i] != '\n'
    ensures RemoveTag(s, lead, tag, true, false) == s
    decreases |s|
  {
    if |s| > 0 {
      RemoveTagOffLineStart(s[1..], lead, tag);
      assert [s[0]] + s[1..] == s;
    }
  }

  /**
   * The match at the start of `lead + w1 + tag + w2 + rest` covers exactly
   * the prefix before `rest` when the `w`s are whitespace and neither `tag`
   * nor `rest` starts with whitespace.
   */
  lemma TagMatchPrefix(lead: string, tag: string, w1: string, w2: string, rest: string)
    requires |tag| > 0 && !IsRegexSpace(tag[0])
    requires forall i | 0 <= i < |w1| :: IsRegexSpace(w1[i])
    requires forall i | 0 <= i < |w2| :: IsRegexSpace(w2[i])
    requires rest == [] || !IsRegexSpace(rest[0])
    ensures TagMatch(lead + w1 + tag + w2 + rest, lead, tag) == Some(|lead| + |w1| + |tag| + |w2|)
  {
    AppendAssoc5(lead, w1, tag, w2, rest);
    var s := lead + (w1 + (tag + (w2 + rest)));
    LeadStep(s, lead, w1, tag + (w2 + rest));
    TagStep(s, lead, w1, tag, w2, rest);
    TagMatchFrom(s, lead, tag, |lead| + |w1|, |lead| + |w1| + |tag| + |w2|);
  }

  /** After the lead, `\s*` consumes exactly the whitespace `w1`. */
  lemma LeadStep(s: string, lead: string, w1: string, t: string)
    requires s == lead + (w1 + t)
    requires forall i | 0 <= i < |w1| :: IsRegexSpace(w1[i])
    requires t == [] || !IsRegexSpace(t[0])
    ensures StartsWith(s, lead)
    ensures SpaceRun(s[|lead|..]) == |w1|
  {
    AppendSplit(lead, w1 + t);
    SpaceRunBefore(w1, t);
  }

  /** After the lead and `w1`, the tag follows, and then `\s*` consumes exactly `w2`. */
  lemma TagStep(s: string, lead: string, w1: string, tag: string, w2: string, rest: string)
    requires s == lead + (w1 + (tag + (w2 + rest)))
    requires forall i | 0 <= i < |w2| :: IsRegexSpace(w2[i])
    requires rest == [] || !IsRegexSpace(rest[0])
    ensures StartsWith(s[|lead| + |w1|..], tag)
    ensures |lead| + |w1| + |tag| <= |s|
    ensures SpaceRun(s[|lead| + |w1| + |tag|..]) == |w2|
  {
    var t3 := w2 + rest;
    var t2 := tag + t3;
    assert s[|lead| + |w1|..] == t2;
    AppendSplit(tag, t3);
    assert s[|lead| + |w1| + |tag|..] == t3;
    SpaceRunBefore(w2, rest);
  }

  /**
   * `s[from..to]` is what a greedy `\s*` consumes at `from`: all of it is
   * `\s`, and it ends at the end of `s` or at a character that is not.
   */
  ghost predicate MaximalSpaceRun(s: string, from: nat, to: nat) {
    && from <= to <= |s|
    && (forall i | from <= i < to :: IsRegexSpace(s[i]))
    && (to == |s| || !IsRegexSpace(s[to]))
  }

  /**
   * The pattern `lead\s*tag\s*` matches the first `n` characters of `s`:
   * the lead, a maximal `\s` run ending at `a`, the tag, and a maximal
   * `\s` run ending at `n`.
   */
  ghost predicate IsTagMatch(s: string, lead: string, tag: string, n: nat) {
    && StartsWith(s, lead)
    && exists a: nat ::
         && MaximalSpaceRun(s, |lead|, a)
         && a + |tag| <= |s| && s[a..a + |tag|] == tag
         && MaximalSpaceRun(s, a + |tag|, n)
  }

  /** A maximal `\s` run from `k` is the one `SpaceRun` measures, and no other. */
  lemma SpaceRunMaximal(s: string, k: nat, t: nat)
    requires k <= |s|
    ensures MaximalSpaceRun(s, k, t) <==> t == k + SpaceRun(s[k..])
  {
    SpaceRunIsMaximal(s, k);
    if MaximalSpaceRun(s, k, t) {
      MaximalSpaceRunUnique(s, k, t);
    }
  }

  lemma SpaceRunIsMaximal(s: string, k: nat)
    requires k <= |s|
    ensures MaximalSpaceRun(s, k, k + SpaceRun(s[k..]))
  {
    var n := SpaceRun(s[k..]);
    assert forall i | k <= i < k + n :: s[i] == s[k..][i - k];
    if k + n < |s| {
      assert s[k + n] == s[k..][n];
    }
  }

  lemma MaximalSpaceRunUnique(s: string, k: nat, t: nat)
    requires MaximalSpaceRun(s, k, t)
    ensures t == k + SpaceRun(s[k..])
  {
    var u := s[k..];
    assert forall i | 0 <= i < |u| :: u[i] == s[k + i];
  }

  /** The scanner finds the pattern's match at the start of `s`, and only that. */
  lemma TagMatchSpec(s: string, lead: string, tag: string, n: nat)
    ensures TagMatch(s, lead, tag) == Some(n) <==> IsTagMatch(s, lead, tag, n)
  {
    if TagMatch(s, lead, tag) == Some(n) {
      TagMatchSound(s, lead, tag, n);
    }
    if IsTagMatch(s, lead, tag, n) {
      TagMatchComplete(s, lead, tag, n);
    }
  }

  lemma TagMatchSound(s: string, lead: string, tag: string, n: nat)
    requires TagMatch(s, lead, tag) == Some(n)
    ensures IsTagMatch(s, lead, tag, n)
  {
    var a := |lead| + SpaceRun(s[|lead|..]);
    SpaceRunIsMaximal(s, |lead|);
    TakeOfDrop(s, a, |tag|);
    SpaceRunIsMaximal(s, a + |tag|);
  }

  lemma TagMatchComplete(s: string, lead: string, tag: string, n: nat)
    requires IsTagMatch(s, lead, tag, n)
    ensures TagMatch(s, lead, tag) == Some(n)
  {
    var a: nat :| MaximalSpaceRun(s, |lead|, a) && a + |tag| <= |s| && s[a..a + |tag|] == tag
                  && MaximalSpaceRun(s, a + |tag|, n);
    MaximalSpaceRunUnique(s, |lead|, a);
    MaximalSpaceRunUnique(s, a + |tag|, n);
    TakeOfDrop(s, a, |tag|);
    TagMatchFrom(s, lead, tag, a, n);
  }

  /** `TagMatch` once the end of each step is known. */
  lemma TagMatchFrom(s: string, lead: string, tag: string, a: nat, n: nat)
    requires StartsWith(s, lead) && a == |lead| + SpaceRun(s[|lead|..])
    requires a + |tag| <= |s| && s[a..][..|tag|] == tag
    requires n == a + |tag| + SpaceRun(s[a + |tag|..])
    ensures TagMatch(s, lead, tag) == Some(n)
  {
  }

  /** The unanchored removal on `s` = `lead + w1 + tag + w2 + rest` leaves `rest`. */
  lemma RemoveTagPrefix(s: string, lead: string, tag: string, w1: string, w2: string, rest: string)
    requires s == lead + w1 + tag + w2 + rest
    requires |lead| > 0 && |tag| > 0 && !IsRegexSpace(tag[0])
    requires forall i | 0 <= i < |w1| :: IsRegexSpace(w1[i])
    requires forall i | 0 <= i < |w2| :: IsRegexSpace(w2[i])
    requires rest == [] || !IsRegexSpace(rest[0])
    requires !Contains(rest, lead)
    ensures StartsWith(s, lead)
    ensures RemoveTag(s, lead, tag, false, true) == rest
  {
    TagMatchPrefix(lead, tag, w1, w2, rest);
    var n := |lead| + |w1| + |tag| + |w2|;
    assert s[n..] == rest;
    RemoveTagWithoutLead(rest, lead, tag, false, s[n - 1] == '\n');
  }

  /** The anchored removal on `s` = `lead + w1 + tag + w2 + rest` at a line start leaves `rest`. */
  lemma RemoveAnchoredTagPrefix(s: string, lead: string, tag: string, w1: string, w2: string, rest: string)
    requires s == lead + w1 + tag + w2 + rest
    requires |lead| > 0 && |tag| > 0 && !IsRegexSpace(tag[0]) && tag[|tag| - 1] != '\n'
    requires forall i | 0 <= i < |w1| :: IsRegexSpace(w1[i])
    requires forall i | 0 <= i < |w2| :: IsRegexSpace(w2[i]) && w2[i] != '\n'
    requires rest == [] || !IsRegexSpace(rest[0])
    requires forall i | 0 <= i < |rest| :: rest[i] != '\n'
    ensures StartsWith(s, lead)
    ensures RemoveTag(s, lead, tag, true, true) == rest
  {
    TagMatchPrefix(lead, tag, w1, w2, rest);
    var n := |lead| + |w1| + |tag| + |w2|;
    assert s[n..] == rest;
    assert s[n - 1] != '\n' by {
      if |w2| > 0 {
        assert s[n - 1] == w2[|w2| - 1];
      } else {
        assert s[n - 1] == tag[|tag| - 1];
      }
    }
    RemoveTagOffLineStart(rest, lead, tag);
  }

  /**
   * A typical `[vite:vue] [plugin vite:vue] <message>` line loses exactly
   * its tool prefix, provided the message does not repeat the marker.
   */
  lemma StripViteTagPrefix(s: string, w1: string, w2: string, rest: string)
    requires s == VITE_MARKER + w1 + PLUGIN_TAG + w2 + rest
    requires forall i | 0 <= i < |w1| :: IsRegexSpace(w1[i])
    requires forall i | 0 <= i < |w2| :: IsRegexSpace(w2[i])
    requires rest == [] || !IsRegexSpace(rest[0])
    requires !Contains(rest, VITE_MARKER)
    ensures StartsWith(s, VITE_MARKER)
    ensures StripViteTag(s) == rest
  {
    RemoveTagPrefix(s, VITE_MARKER, PLUGIN_TAG, w1, w2, rest);
  }

  /**
   * A `SyntaxError: [plugin vite:vue] <message>` line of a single text line
   * loses exactly its tool prefix; the `^` anchor stops any later match.
   */
  lemma StripSyntaxTagPrefix(s: string, w1: string, w2: string, rest: string)
    requires s == SYNTAX_MARKER + w1 + PLUGIN_TAG + w2 + rest
    requires forall i | 0 <= i < |w1| :: IsRegexSpace(w1[i])
    requires forall i | 0 <= i < |w2| :: IsRegexSpace(w2[i]) && w2[i] != '\n'
    requires rest == [] || !IsRegexSpace(rest[0])
    requires forall i | 0 <= i < |rest| :: rest[i] != '\n'
    ensures StartsWith(s, SYNTAX_MARKER)
    ensures StripSyntaxTag(s) == rest
  {
    RemoveAnchoredTagPrefix(s, SYNTAX_MARKER, PLUGIN_TAG, w1, w2, rest);
  }

  // ---------------------------------------------------------------------
  // Source locations

  /** A `line:column` pair as captured by the two groups of a location pattern. */
  datatype Location = Location(line: string, column: string)

  /** The two location patterns, in the order the extractor tries them. */
  datatype LocationForm =
    | ChunkFile   // slides\.md__slidev_\d+\.md:(\d+):(\d+)
    | SlidesFile  // slides\.md:(\d+):(\d+)

  const CHUNK_HEAD: string := "slides.md__slidev_"
  const CHUNK_TAIL: string := ".md:"
  const SLIDES_HEAD: string := "slides.md:"

  /** `(\d+):(\d+)` matched at the very start of `s`. */
  function LineColAt(s: string): Option<Location> {
    var a := DigitRun(s);
    if a == 0 || a == |s| || s[a] != ':' then None
    else
      var b := DigitRun(s[a + 1..]);
      if b == 0 then None else Some(Location(s[..a], s[a + 1..a + 1 + b]))
  }

  /** The reference reading of `(\d+):(\d+)` at the start of `s` capturing `loc`. */
  ghost predicate IsLineCol(s: string, loc: Location) {
    var k := |loc.line| + 1 + |loc.column|;
    && |loc.line| > 0 && AllDigits(loc.line)
    && |loc.column| > 0 && AllDigits(loc.column)
    && StartsWith(s, loc.line + ":" + loc.column)
    && (k == |s| || !IsDigit(s[k]))
  }

  lemma LineColAtSound(s: string)
    requires LineColAt(s).Some?
    ensures IsLineCol(s, LineColAt(s).value)
  {
    var loc := LineColAt(s).value;
    var a := DigitRun(s);
    var t := s[a + 1..];
    var b := DigitRun(t);
    assert loc.line == s[..a] && loc.column == t[..b];
    assert s[..a + 1 + b] == s[..a] + [s[a]] + t[..b];
    assert a + 1 + b == |s| || s[a + 1 + b] == t[b];
  }

  lemma LineColAtComplete(s: string, loc: Location)
    requires IsLineCol(s, loc)
    ensures LineColAt(s) == Some(loc)
  {
    var p := loc.line + ":" + loc.column;
    var r := s[|p|..];
    assert s == p + r by { AppendSplit(s[..|p|], r); }
    AppendAssoc(loc.line, ":", loc.column);
    AppendAssoc(loc.line, ":" + loc.column, r);
    AppendAssoc(":", loc.column, r);
    assert r == [] || r[0] == s[|p|];
    LineColAtOf(loc, r);
  }

  /** `(\d+):(\d+)` on `line:column` followed by a non-digit captures line and column. */
  lemma LineColAtOf(loc: Location, r: string)
    requires |loc.line| > 0 && AllDigits(loc.line)
    requires |loc.column| > 0 && AllDigits(loc.column)
    requires r == [] || !IsDigit(r[0])
    ensures LineColAt(loc.line + (":" + (loc.column + r))) == Some(loc)
  {
    ColonStep(loc.line, loc.column + r);
    DigitRunBefore(loc.column, r);
    AppendSplit(loc.column, r);
    var s := loc.line + (":" + (loc.column + r));
    TakeOfDrop(s, |loc.line| + 1, |loc.column|);
    LineColAtFrom(s, |loc.line|, |loc.column|);
  }

  /** A digit string, a colon, then `t`: the digit run stops at the colon. */
  lemma ColonStep(line: string, t: string)
    requires AllDigits(line)
    ensures var s := line + (":" + t);
            && DigitRun(s) == |line| && s[..|line|] == line
            && |line| < |s| && s[|line|] == ':' && s[|line| + 1..] == t
  {
    var s := line + (":" + t);
    DigitRunBefore(line, ":" + t);
    AppendSplit(line, ":" + t);
    assert s[|line| + 1..] == t by { assert s[|line|..] == ":" + t; }
  }

  /** `LineColAt` once the two digit runs and the colon between them are known. */
  lemma LineColAtFrom(s: string, a: nat, b: nat)
    requires DigitRun(s) == a && 0 < a < |s| && s[a] == ':'
    requires DigitRun(s[a + 1..]) == b && 0 < b
    ensures LineColAt(s) == Some(Location(s[..a], s[a + 1..a + 1 + b]))
  {
  }

  /** The scanner captures exactly what the pattern's groups capture. */
  lemma LineColAtSpec(s: string, loc: Location)
    ensures LineColAt(s) == Some(loc) <==> IsLineCol(s, loc)
  {
    if LineColAt(s) == Some(loc) {
      LineColAtSound(s);
    }
    if IsLineCol(s, loc) {
      LineColAtComplete(s, loc);
    }
  }

  /** The location pattern of `form` matched at the very start of `s`. */
  function MatchAt(form: LocationForm, s: string): Option<Location> {
    match form
    case SlidesFile =>
      if StartsWith(s, SLIDES_HEAD) then LineColAt(s[|SLIDES_HEAD|..]) else None
    case ChunkFile =>
      if !StartsWith(s, CHUNK_HEAD) then None
      else
        var t := s[|CHUNK_HEAD|..];
        var n := DigitRun(t);
        if n == 0 || !StartsWith(t[n..], CHUNK_TAIL) then None
        else LineColAt(t[n + |CHUNK_TAIL|..])
  }

  /** A hit of a pattern search: where the match starts and what it captured. */
  datatype Hit<T> = Hit(pos: nat, captured: T)

  /**
   * Ruby's `s =~ re` for the pattern whose match at the start of a text is
   * `matchAt`: the leftmost match at or after `from`.
   */
  function Search<T>(matchAt: string -> Option<T>, s: string, from: nat): (r: Option<Hit<T>>)
    requires from <= |s|
    ensures r.Some? ==> from <= r.value.pos <= |s| && matchAt(s[r.value.pos..]) == Some(r.value.captured)
    ensures r.Some? ==> forall q | from <= q < r.value.pos :: matchAt(s[q..]).None?
    ensures r.None? ==> forall q | from <= q <= |s| :: matchAt(s[q..]).None?
    decreases |s| - from
  {
    match matchAt(s[from..])
    case Some(c) => Some(Hit(from, c))
    case None => if from == |s| then None else Search(matchAt, s, from + 1)
  }

  function MatchChunk(s: string): Option<Location> {
    MatchAt(ChunkFile, s)
  }

  function MatchSlides(s: string): Option<Location> {
    MatchAt(SlidesFile, s)
  }

  /**
   * `c` is what the leftmost match of `matchAt` in `s` captured, the match
   * starting at `q`: what `s =~ re` followed by `$1`, `$2` reads.
   */
  ghost predicate FirstMatchAt<T>(matchAt: string -> Option<T>, s: string, q: nat, c: T) {
    && q <= |s|
    && matchAt(s[q..]) == Some(c)
    && forall p | 0 <= p < q :: matchAt(s[p..]).None?
  }

  /**
   * The location reported for a `file:` line (source lines 108-116): the
   * leftmost `slides.md__slidev_<n>.md:L:C` match takes priority over the
   * leftmost plain `slides.md:L:C` match.
   */
  function FileLocation(s: string): (r: Option<Location>)
    ensures r.None? <==> forall q | 0 <= q <= |s| :: MatchChunk(s[q..]).None? && MatchSlides(s[q..]).None?
    ensures r.Some? ==> exists q | 0 <= q <= |s| :: MatchChunk(s[q..]) == r || MatchSlides(s[q..]) == r
    ensures (exists q | 0 <= q <= |s| :: MatchChunk(s[q..]).Some?) ==>
              r.Some? && exists q: nat :: FirstMatchAt(MatchChunk, s, q, r.value)
    ensures r.Some? && (forall q | 0 <= q <= |s| :: MatchChunk(s[q..]).None?) ==>
              exists q: nat :: FirstMatchAt(MatchSlides, s, q, r.value)
  {
    SearchFirst(MatchChunk, s);
    SearchFirst(MatchSlides, s);
    match Search(MatchChunk, s, 0)
    case Some(h) => Some(h.captured)
    case None =>
      match Search(MatchSlides, s, 0)
      case Some(h) => Some(h.captured)
      case None => None
  }

  /** A search from the start of `s` finds the leftmost match, or there is none. */
  lemma SearchFirst<T>(matchAt: string -> Option<T>, s: string)
    ensures var h := Search(matchAt, s, 0);
            && (h.Some? ==> FirstMatchAt(matchAt, s, h.value.pos, h.value.captured))
            && (h.None? <==> forall q | 0 <= q <= |s| :: matchAt(s[q..]).None?)
  {
  }

  const LOCATION_PREFIX: string := "エラー箇所: slides.md の "
  const LOCATION_LINE_UNIT: string := "行目、"
  const LOCATION_SUFFIX: string := "列目付近"

  /** The location sentence the extractor emits (source lines 111 and 115). */
  function LocationText(loc: Location): string {
    LOCATION_PREFIX + loc.line + LOCATION_LINE_UNIT + loc.column + LOCATION_SUFFIX
  }

  /** Reads a location sentence back into the captured numbers. */
  function ParseLocationText(t: string): Option<Location> {
    if !StartsWith(t, LOCATION_PREFIX) then None
    else
      var u := t[|LOCATION_PREFIX|..];
      var a := DigitRun(u);
      if a == 0 || !StartsWith(u[a..], LOCATION_LINE_UNIT) then None
      else
        var v := u[a + |LOCATION_LINE_UNIT|..];
        var b := DigitRun(v);
        if b == 0 || v[b..] != LOCATION_SUFFIX then None
        else Some(Location(u[..a], v[..b]))
  }

  lemma DigitRunBefore(d: string, t: string)
    requires AllDigits(d)
    requires t == [] || !IsDigit(t[0])
    ensures DigitRun(d + t) == |d|
  {
    var s := d + t;
    assert forall i | 0 <= i < |d| :: s[i] == d[i];
    assert |d| == |s| || s[|d|] == t[0];
  }

  /**
   * The emitted location sentence carries exactly the captured line and
   * column: both can be read back from it unchanged.
   */
  lemma LocationTextRoundTrip(loc: Location)
    requires |loc.line| > 0 && AllDigits(loc.line)
    requires |loc.column| > 0 && AllDigits(loc.column)
    ensures ParseLocationText(LocationText(loc)) == Some(loc)
  {
    AppendAssoc5(LOCATION_PREFIX, loc.line, LOCATION_LINE_UNIT, loc.column, LOCATION_SUFFIX);
    LocationTextNested(loc);
  }

  /** `LocationTextRoundTrip` on the sentence nested to the right. */
  lemma LocationTextNested(loc: Location)
    requires |loc.line| > 0 && AllDigits(loc.line)
    requires |loc.column| > 0 && AllDigits(loc.column)
    ensures ParseLocationText(LOCATION_PREFIX + (loc.line + (LOCATION_LINE_UNIT + (loc.column + LOCATION_SUFFIX))))
            == Some(loc)
  {
    var v := loc.column + LOCATION_SUFFIX;
    var u := loc.line + (LOCATION_LINE_UNIT + v);
    var t := LOCATION_PREFIX + u;
    AppendSplit(LOCATION_PREFIX, u);
    UnitStep(loc.line, v);
    ColumnStep(loc.column);
  }

  /** The line number, then the unit, then `v`: the digit run is the line number. */
  lemma UnitStep(line: string, v: string)
    requires AllDigits(line)
    ensures var u := line + (LOCATION_LINE_UNIT + v);
            && DigitRun(u) == |line| && u[..|line|] == line
            && StartsWith(u[|line|..], LOCATION_LINE_UNIT)
            && u[|line| + |LOCATION_LINE_UNIT|..] == v
  {
    var w := LOCATION_LINE_UNIT + v;
    var u := line + w;
    DigitRunBefore(line, w);
    AppendSplit(line, w);
    AppendSplit(LOCATION_LINE_UNIT, v);
    assert u[|line| + |LOCATION_LINE_UNIT|..] == w[|LOCATION_LINE_UNIT|..];
  }

  /** The column number followed by the suffix: the digit run is the column number. */
  lemma ColumnStep(column: string)
    requires AllDigits(column)
    ensures var v := column + LOCATION_SUFFIX;
            && DigitRun(v) == |column| && v[..|column|] == column && v[|column|..] == LOCATION_SUFFIX
  {
    DigitRunBefore(column, LOCATION_SUFFIX);
    AppendSplit(column, LOCATION_SUFFIX);
  }
}
