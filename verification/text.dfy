/**
 * The Ruby and Rails string operations the application relies on, over
 * `string` = `seq<char>`: `String#include?`, case-insensitive matching of a
 * literal pattern, `String#strip`, `Array#join`, `String#lines`,
 * `Integer#to_s` and Rails' `blank?` / `present?`.
 */
module Text {
  import opened Wrappers

  predicate StartsWith(s: string, p: string) {
    |p| <= |s| && s[..|p|] == p
  }

  /** Ruby's `s.include?(t)`: `t` occurs in `s` at some position. */
  predicate Contains(s: string, t: string)
    decreases |s|
  {
    StartsWith(s, t) || (|s| > 0 && Contains(s[1..], t))
  }

  lemma {:induction false} ContainsAt(s: string, t: string, i: nat)
    requires i <= |s| && StartsWith(s[i..], t)
    ensures Contains(s, t)
    decreases i
  {
    if i > 0 {
      assert s[1..][i - 1..] == s[i..];
      ContainsAt(s[1..], t, i - 1);
    }
  }

  lemma {:induction false} ContainsWitness(s: string, t: string) returns (i: nat)
    requires Contains(s, t)
    ensures i <= |s| && StartsWith(s[i..], t)
    decreases |s|
  {
    if StartsWith(s, t) {
      i := 0;
    } else {
      var j := ContainsWitness(s[1..], t);
      i := j + 1;
      assert s[1..][j..] == s[i..];
    }
  }

  /** A concatenation cut where its parts meet gives the parts back. */
  lemma AppendSplit(x: string, y: string)
    ensures (x + y)[..|x|] == x && (x + y)[|x|..] == y
  {
  }

  /** Taking `j` elements after dropping `i` is the slice from `i` to `i + j`. */
  lemma TakeOfDrop(s: string, i: nat, j: nat)
    requires i + j <= |s|
    ensures s[i..][..j] == s[i..i + j]
  {
  }

  /** Concatenation is associative. */
  lemma AppendAssoc(x: string, y: string, z: string)
    ensures x + y + z == x + (y + z)
  {
  }

  /** Five parts concatenated left to right equal the same parts nested to the right. */
  lemma AppendAssoc5(a: string, b: string, c: string, d: string, e: string)
    ensures a + b + c + d + e == a + (b + (c + (d + e)))
  {
    AppendAssoc(a + b + c, d, e);
    AppendAssoc(a + b, c, d + e);
    AppendAssoc(a, b, c + (d + e));
  }

  /** Regrouping a middle part's own ends with its neighbours. */
  lemma AppendRegroup(x: string, a: string, c: string, b: string, z: string)
    ensures x + (a + c + b) + z == (x + a) + c + (b + z)
  {
    AppendAssoc(x, a + c, b);
    AppendAssoc(x, a, c);
    AppendAssoc(x + a + c, b, z);
  }

  lemma ContainsMiddle(x: string, y: string, z: string)
    ensures Contains(x + y + z, y)
  {
    var s := x + y + z;
    assert s[|x|..][..|y|] == y;
    ContainsAt(s, y, |x|);
  }

  /** A string never contains a text longer than itself. */
  lemma ContainsLength(s: string, t: string)
    requires Contains(s, t)
    ensures |t| <= |s|
  {
    var i := ContainsWitness(s, t);
  }

  // ---------------------------------------------------------------------
  // Case-insensitive matching of a literal pattern (a Ruby `/.../i` regex
  // whose pattern has no metacharacters), with ASCII case folding.

  function LowerChar(c: char): char {
    if 'A' <= c <= 'Z' then (c as int + 32) as char else c
  }

  function Lower(s: string): string {
    seq(|s|, i requires 0 <= i < |s| => LowerChar(s[i]))
  }

  predicate ContainsIgnoreCase(s: string, t: string) {
    Contains(Lower(s), Lower(t))
  }

  // ---------------------------------------------------------------------
  // Whitespace

  /** The characters Ruby's `String#strip` removes: NUL, \t, \n, \v, \f, \r and space. */
  predicate IsStripSpace(c: char) {
    c == ' ' || c == '\t' || c == '\n' || c == '\U{000B}' || c == '\U{000C}' || c == '\r' || c == '\0'
  }

  /** The characters of Ruby's regex class `\s`: \t, \n, \v, \f, \r and space. */
  predicate IsRegexSpace(c: char) {
    c == ' ' || c == '\t' || c == '\n' || c == '\U{000B}' || c == '\U{000C}' || c == '\r'
  }

  /** Unicode White_Space, the class `[[:space:]]` Rails' `String#blank?` matches. */
  predicate IsWhiteSpace(c: char) {
    ('\U{0009}' <= c <= '\U{000D}') || c == ' ' || c == '\U{0085}' || c == '\U{00A0}'
    || c == '\U{1680}' || ('\U{2000}' <= c <= '\U{200A}') || c == '\U{2028}' || c == '\U{2029}'
    || c == '\U{202F}' || c == '\U{205F}' || c == '\U{3000}'
  }

  /** Rails' `String#blank?`: empty or whitespace only. */
  predicate Blank(s: string) {
    forall i | 0 <= i < |s| :: IsWhiteSpace(s[i])
  }

  /** Rails' `present?` on a nilable string: not nil and not blank. */
  predicate Present(o: Option<string>) {
    o.Some? && !Blank(o.value)
  }

  // ---------------------------------------------------------------------
  // String#strip

  /** How many strip spaces `s` starts with. */
  function LeadingSpaces(s: string): (k: nat)
    ensures k <= |s|
    ensures forall i | 0 <= i < k :: IsStripSpace(s[i])
    ensures k == |s| || !IsStripSpace(s[k])
    decreases |s|
  {
    if |s| > 0 && IsStripSpace(s[0]) then 1 + LeadingSpaces(s[1..]) else 0
  }

  /** The length of `s` without the strip spaces it ends with. */
  function TrimmedEnd(s: string): (k: nat)
    ensures k <= |s|
    ensures forall i | k <= i < |s| :: IsStripSpace(s[i])
    ensures k == 0 || !IsStripSpace(s[k - 1])
    decreases |s|
  {
    if |s| > 0 && IsStripSpace(s[|s| - 1]) then TrimmedEnd(s[..|s| - 1]) else |s|
  }

  /** Ruby's `lstrip`. */
  function LStrip(s: string): string {
    s[LeadingSpaces(s)..]
  }

  /** Ruby's `rstrip`. */
  function RStrip(s: string): string {
    s[..TrimmedEnd(s)]
  }

  /** Ruby's `strip`. */
  function Strip(s: string): (r: string)
    ensures r == [] || (!IsStripSpace(r[0]) && !IsStripSpace(r[|r| - 1]))
  {
    RStrip(LStrip(s))
  }

  /** `Strip` cuts a (possibly empty) run of spaces from each end and nothing else. */
  lemma StripDecompose(s: string) returns (x: string, z: string)
    ensures s == x + Strip(s) + z
    ensures forall i | 0 <= i < |x| :: IsStripSpace(x[i])
    ensures forall i | 0 <= i < |z| :: IsStripSpace(z[i])
  {
    var a := LeadingSpaces(s);
    var b := TrimmedEnd(s[a..]);
    assert Strip(s) == s[a..a + b];
    x := s[..a];
    z := s[a + b..];
    assert s == x + s[a..a + b] + z;
    forall i | 0 <= i < |x| ensures IsStripSpace(x[i]) {
      assert x[i] == s[i];
    }
    forall i | 0 <= i < |z| ensures IsStripSpace(z[i]) {
      assert z[i] == s[a..][b + i];
    }
  }

  /** A string holding a non-space character does not strip to the empty string. */
  lemma StripNonEmpty(s: string, i: nat)
    requires i < |s| && !IsStripSpace(s[i])
    ensures Strip(s) != []
  {
    var x, z := StripDecompose(s);
    assert s[i] in x + Strip(s) + z;
  }

  lemma {:induction false} LStripBefore(x: string, w: string) returns (x': string)
    requires |w| > 0 && !IsStripSpace(w[0])
    ensures LStrip(x + w) == x' + w
    decreases |x|
  {
    if |x| == 0 {
      assert x + w == w;
      x' := [];
    } else if IsStripSpace(x[0]) {
      assert (x + w)[1..] == x[1..] + w;
      x' := LStripBefore(x[1..], w);
    } else {
      x' := x;
    }
  }

  lemma {:induction false} RStripAfter(w: string, z: string) returns (z': string)
    requires |w| > 0 && !IsStripSpace(w[|w| - 1])
    ensures RStrip(w + z) == w + z'
    decreases |z|
  {
    if |z| == 0 {
      assert w + z == w;
      z' := [];
    } else if IsStripSpace(z[|z| - 1]) {
      assert (w + z)[..|w + z| - 1] == w + z[..|z| - 1];
      z' := RStripAfter(w, z[..|z| - 1]);
    } else {
      z' := z;
    }
  }

  /**
   * Stripping a text keeps every piece of it that starts and ends with a
   * non-space character: `strip` only ever removes whitespace at the ends.
   */
  lemma StripKeepsCore(x: string, y: string, z: string)
    requires |y| > 0 && !IsStripSpace(y[0]) && !IsStripSpace(y[|y| - 1])
    ensures Contains(Strip(x + y + z), y)
  {
    AppendAssoc(x, y, z);
    var x' := LStripBefore(x, y + z);
    AppendAssoc(x', y, z);
    var z' := RStripAfter(x' + y, z);
    ContainsMiddle(x', y, z');
  }

  /** A part of a text holding a non-space character survives, trimmed, in the trimmed text. */
  lemma StripKeepsPart(s: string, x: string, line: string, z: string, n: nat)
    requires s == x + line + z
    requires n < |line| && !IsStripSpace(line[n])
    ensures Contains(Strip(s), Strip(line))
  {
    var a, b := StripDecompose(line);
    StripNonEmpty(line, n);
    var core := Strip(line);
    AppendRegroup(x, a, core, b, z);
    StripKeepsCore(x + a, core, b + z);
  }

  // ---------------------------------------------------------------------
  // Array#join

  function Join(xs: seq<string>, sep: string): string
    decreases |xs|
  {
    if |xs| == 0 then ""
    else if |xs| == 1 then xs[0]
    else xs[0] + sep + Join(xs[1..], sep)
  }

  /** Every element of a joined list appears whole in the joined text. */
  lemma {:induction false} JoinSplit(xs: seq<string>, sep: string, i: nat) returns (x: string, z: string)
    requires i < |xs|
    ensures Join(xs, sep) == x + xs[i] + z
    decreases |xs|
  {
    if |xs| == 1 {
      x, z := [], [];
    } else if i == 0 {
      x, z := [], sep + Join(xs[1..], sep);
    } else {
      var x1, z1 := JoinSplit(xs[1..], sep, i - 1);
      x, z := xs[0] + sep + x1, z1;
    }
  }

  /** A two-element join is the two elements around one separator. */
  lemma JoinTwo(a: string, b: string, sep: string)
    ensures Join([a, b], sep) == a + sep + b
  {
    assert [a, b][1..] == [b];
  }

  // ---------------------------------------------------------------------
  // String#lines

  /** The index just past the first "\n" of `s`, or `|s|` when `s` has none. */
  function LineEnd(s: string): (k: nat)
    requires |s| > 0
    ensures 0 < k <= |s|
    ensures forall i | 0 <= i < k - 1 :: s[i] != '\n'
    ensures k == |s| || s[k - 1] == '\n'
    decreases |s|
  {
    if s[0] == '\n' || |s| == 1 then 1 else 1 + LineEnd(s[1..])
  }

  /**
   * Ruby's `String#lines`: `s` cut after every "\n"; each piece keeps its
   * line terminator and only the last may lack one.
   */
  function Lines(s: string): (r: seq<string>)
    ensures forall i | 0 <= i < |r| :: |r[i]| > 0
    ensures forall i, j | 0 <= i < |r| && 0 <= j < |r[i]| - 1 :: r[i][j] != '\n'
    ensures forall i | 0 <= i < |r| - 1 :: r[i][|r[i]| - 1] == '\n'
    decreases |s|
  {
    if |s| == 0 then [] else [s[..LineEnd(s)]] + Lines(s[LineEnd(s)..])
  }

  function Concat(xs: seq<string>): string
    decreases |xs|
  {
    if |xs| == 0 then "" else xs[0] + Concat(xs[1..])
  }

  /** Splitting into lines loses nothing: the lines concatenate back to the text. */
  lemma {:induction false} LinesRoundTrip(s: string)
    ensures Concat(Lines(s)) == s
    decreases |s|
  {
    if |s| > 0 {
      var k := LineEnd(s);
      LinesRoundTrip(s[k..]);
      assert s[..k] + s[k..] == s;
    }
  }

  // ---------------------------------------------------------------------
  // Digits

  predicate IsDigit(c: char) {
    '0' <= c <= '9'
  }

  predicate AllDigits(s: string) {
    forall i | 0 <= i < |s| :: IsDigit(s[i])
  }

  /** The length of the longest prefix of `s` made of ASCII digits (what `\d+` consumes). */
  function DigitRun(s: string): (n: nat)
    ensures n <= |s|
    ensures AllDigits(s[..n])
    ensures n == |s| || !IsDigit(s[n])
    decreases |s|
  {
    if |s| > 0 && IsDigit(s[0]) then 1 + DigitRun(s[1..]) else 0
  }

  /** Ruby's `Integer#to_s` for a non-negative integer. */
  function NatToString(n: nat): (r: string)
    ensures |r| > 0 && AllDigits(r)
    // no leading zero: only 0 itself prints as "0"
    ensures r[0] == '0' <==> n == 0
    ensures r[0] == '0' ==> r == "0"
    decreases n
  {
    if n < 10 then ["0123456789"[n]] else NatToString(n / 10) + ["0123456789"[n % 10]]
  }

  /** The number a string of decimal digits denotes (Ruby's `Integer("...")` on digits). */
  function DigitsValue(s: string): nat
    requires AllDigits(s)
    decreases |s|
  {
    if |s| == 0 then 0 else DigitsValue(s[..|s| - 1]) * 10 + (s[|s| - 1] as int - '0' as int)
  }

  /** Printing a number and reading its digits back gives the number. */
  lemma {:induction false} NatToStringRoundTrip(n: nat)
    ensures DigitsValue(NatToString(n)) == n
    decreases n
  {
    var s := NatToString(n);
    if n < 10 {
      assert s[..0] == [];
    } else {
      NatToStringRoundTrip(n / 10);
      assert s[..|s| - 1] == NatToString(n / 10);
    }
  }

  /**
   * The printed form is the only one: a digit string with no leading zero
   * is the decimal form of the number it denotes.
   */
  lemma {:induction false} NatToStringUnique(s: string)
    requires |s| > 0 && AllDigits(s) && (s[0] == '0' ==> s == "0")
    ensures NatToString(DigitsValue(s)) == s
    decreases |s|
  {
    var d := s[|s| - 1] as int - '0' as int;
    if |s| == 1 {
      assert s[..0] == [];
      assert "0123456789"[d] == s[0];
    } else {
      var p := s[..|s| - 1];
      assert p[0] == s[0] != '0';
      DigitsValuePositive(p);
      NatToStringUnique(p);
      var n := DigitsValue(s);
      assert n / 10 == DigitsValue(p) && n % 10 == d;
      assert "0123456789"[d] == s[|s| - 1];
      assert p + [s[|s| - 1]] == s;
    }
  }

  /** A digit string that starts with a non-zero digit denotes a positive number. */
  lemma {:induction false} DigitsValuePositive(s: string)
    requires |s| > 0 && AllDigits(s) && s[0] != '0'
    ensures DigitsValue(s) > 0
    decreases |s|
  {
    if |s| > 1 {
      var p := s[..|s| - 1];
      assert p[0] == s[0];
      DigitsValuePositive(p);
    } else {
      assert s[..0] == [];
    }
  }
}
