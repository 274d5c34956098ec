/**
 * The value formatter and parser of the node form (src/App.tsx:79-93).
 *
 * At level 4 an amount is shown as `¥ 1,234,567`: the text is prefixed
 * with `¥ ` and a comma is put wherever the JavaScript pattern
 * `\B(?=(\d{3})+(?!\d))` matches. Everywhere else the value is a
 * percentage shown as `40%`. The parser undoes each display.
 */
module FormValue {
  import opened DataModel
  import opened KeyCodec

  const Yen: char := '\U{A5}'
  const Comma: char := ','
  const Percent: char := '%'

  /** `${v}`: an absent value renders as "undefined". */
  function Render(v: Option<string>): string {
    match v
    case None => "undefined"
    case Some(s) => s
  }

  /** The word characters of a JavaScript pattern: `[A-Za-z0-9_]`. */
  predicate IsWordChar(c: char) {
    IsDigit(c) || ('a' <= c <= 'z') || ('A' <= c <= 'Z') || c == '_'
  }

  /** The white space `\s` matches in JavaScript. */
  predicate IsJsSpace(c: char) {
    || c == '\t' || c == '\n' || c == '\U{B}' || c == '\U{C}' || c == '\r' || c == ' '
    || c == '\U{A0}' || c == '\U{1680}' || ('\U{2000}' <= c <= '\U{200A}')
    || c == '\U{2028}' || c == '\U{2029}' || c == '\U{202F}' || c == '\U{205F}'
    || c == '\U{3000}' || c == '\U{FEFF}'
  }

  /** Length of the run of digits starting at position `p`. */
  function DigitRun(s: string, p: nat): (n: nat)
    requires p <= |s|
    ensures p + n <= |s|
    decreases |s| - p
  {
    if p < |s| && IsDigit(s[p]) then 1 + DigitRun(s, p + 1) else 0
  }

  /** The run is all digits and stops at a non-digit or at the end. */
  lemma {:induction false} DigitRunIsMaximal(s: string, p: nat)
    requires p <= |s|
    ensures forall k :: p <= k < p + DigitRun(s, p) ==> IsDigit(s[k])
    ensures p + DigitRun(s, p) < |s| ==> !IsDigit(s[p + DigitRun(s, p)])
    decreases |s| - p
  {
    if p < |s| && IsDigit(s[p]) {
      DigitRunIsMaximal(s, p + 1);
    }
  }

  /**
   * `\B(?=(\d{3})+(?!\d))` matches at position `p`: the position is not a
   * word boundary and the digits from `p` up to the next non-digit are a
   * positive multiple of three.
   */
  predicate CommaAt(s: string, p: nat)
    requires p <= |s|
  {
    var run := DigitRun(s, p);
    && 0 < p
    && IsWordChar(s[p - 1])
    && run > 0
    && run % 3 == 0
  }

  /** `s.replace(/\B(?=(\d{3})+(?!\d))/g, ',')`, from position `p` on. */
  function CommasFrom(s: string, p: nat): string
    requires p <= |s|
    decreases |s| - p
  {
    if p == |s| then []
    else (if CommaAt(s, p) then [Comma] else []) + [s[p]] + CommasFrom(s, p + 1)
  }

  function InsertCommas(s: string): string {
    CommasFrom(s, 0)
  }

  /** `formatValue` for the form of the node keyed `treeKey`. */
  function FormatValue(treeKey: string, v: Option<string>): string {
    if ParseKey(treeKey) == 4 then InsertCommas([Yen, ' '] + Render(v))
    else Render(v) + [Percent]
  }

  /** `s.replace(/¥\s?|(,*)/g, '')`: every comma, and every `¥` with one white space after it, dropped. */
  function StripAmount(s: string): string {
    if s == [] then []
    else if s[0] == Yen then
      if |s| > 1 && IsJsSpace(s[1]) then StripAmount(s[2..]) else StripAmount(s[1..])
    else if s[0] == Comma then StripAmount(s[1..])
    else [s[0]] + StripAmount(s[1..])
  }

  /** `s.replace('%', '')`: only the first `%` is dropped. */
  function StripPercent(s: string): string {
    if s == [] then []
    else if s[0] == Percent then s[1..]
    else [s[0]] + StripPercent(s[1..])
  }

  /** `parseValue`: an absent or empty text parses to the empty text. */
  function ParseValue(treeKey: string, v: Option<string>): string {
    match v
    case None => []
    case Some(s) =>
      if s == [] then []
      else if ParseKey(treeKey) == 4 then StripAmount(s)
      else StripPercent(s)
  }

  predicate Free(s: string, c: char) {
    forall k :: 0 <= k < |s| ==> s[k] != c
  }

  /** The comma-stripping half of the parser removes exactly what the formatter added. */
  lemma {:induction false} StripCommasFrom(s: string, p: nat)
    requires p <= |s|
    requires forall k :: p <= k < |s| ==> s[k] != Comma && s[k] != Yen
    ensures StripAmount(CommasFrom(s, p)) == s[p..]
    decreases |s| - p
  {
    if p < |s| {
      StripCommasFrom(s, p + 1);
      var rest := CommasFrom(s, p + 1);
      var tail := [s[p]] + rest;
      assert StripAmount(tail) == [s[p]] + StripAmount(rest);
      if CommaAt(s, p) {
        assert ([Comma] + tail)[1..] == tail;
      }
      assert s[p..] == [s[p]] + s[p + 1..];
    }
  }

  /** The commas after the `¥ ` prefix are those of the text itself, seen in context. */
  lemma PrefixCommas(x: string)
    ensures InsertCommas([Yen, ' '] + x) == [Yen, ' '] + CommasFrom([Yen, ' '] + x, 2)
  {
    var s := [Yen, ' '] + x;
    assert !CommaAt(s, 0);
    assert DigitRun(s, 1) == 0;
    assert !CommaAt(s, 1);
    assert CommasFrom(s, 0) == [Yen] + CommasFrom(s, 1);
    assert CommasFrom(s, 1) == [' '] + CommasFrom(s, 2);
  }

  /**
   * At level 4, parsing what the formatter shows gives back the text,
   * provided it holds no `,` and no `¥` of its own.
   */
  lemma AmountRoundTrip(treeKey: string, x: string)
    requires ParseKey(treeKey) == 4 && Free(x, Comma) && Free(x, Yen)
    ensures ParseValue(treeKey, Some(FormatValue(treeKey, Some(x)))) == x
  {
    var s := [Yen, ' '] + x;
    PrefixCommas(x);
    assert forall k :: 2 <= k < |s| ==> s[k] == x[k - 2];
    var shown := FormatValue(treeKey, Some(x));
    var body := CommasFrom(s, 2);
    StripCommasFrom(s, 2);
    assert s[2..] == x;
    assert shown == [Yen, ' '] + body;
    assert shown[2..] == body;
    assert IsJsSpace(shown[1]);
  }

  lemma {:induction false} StripPercentSuffix(x: string)
    requires Free(x, Percent)
    ensures StripPercent(x + [Percent]) == x
  {
    if x != [] {
      StripPercentSuffix(x[1..]);
      assert (x + [Percent])[1..] == x[1..] + [Percent];
      assert x == [x[0]] + x[1..];
    }
  }

  /**
   * At levels 1-3, parsing what the formatter shows gives back the text,
   * provided it holds no `%` of its own.
   */
  lemma PercentRoundTrip(treeKey: string, x: string)
    requires ParseKey(treeKey) != 4 && Free(x, Percent)
    ensures ParseValue(treeKey, Some(FormatValue(treeKey, Some(x)))) == x
  {
    StripPercentSuffix(x);
  }

  /** An absent value is shown as the text "undefined", so it does not come back absent. */
  lemma AbsentValueShown(treeKey: string)
    ensures ParseKey(treeKey) != 4 ==> FormatValue(treeKey, None) == "undefined%"
    ensures ParseValue(treeKey, None) == [] && ParseValue(treeKey, Some([])) == []
  {
  }

  /** The digit runs of `¥ 1234567`, position by position. */
  lemma GroupingRuns(s: string)
    requires s == "\U{A5} 1234567"
    ensures DigitRun(s, 9) == 0 && DigitRun(s, 8) == 1 && DigitRun(s, 7) == 2
    ensures DigitRun(s, 6) == 3 && DigitRun(s, 5) == 4 && DigitRun(s, 4) == 5
    ensures DigitRun(s, 3) == 6 && DigitRun(s, 2) == 7 && DigitRun(s, 1) == 0
  {
    assert DigitRun(s, 9) == 0;
    assert DigitRun(s, 8) == 1;
    assert DigitRun(s, 7) == 2;
    assert DigitRun(s, 6) == 3;
    assert DigitRun(s, 5) == 4;
    assert DigitRun(s, 4) == 5;
    assert DigitRun(s, 3) == 6;
    assert DigitRun(s, 2) == 7;
    assert DigitRun(s, 1) == 0;
  }

  lemma GroupingTail(s: string)
    requires s == "\U{A5} 1234567"
    ensures CommasFrom(s, 5) == "4,567"
  {
    GroupingRuns(s);
    assert CommasFrom(s, 8) == "7";
    assert CommasFrom(s, 7) == "67";
    assert CommasFrom(s, 6) == ",567";
  }

  lemma GroupingMiddle(s: string)
    requires s == "\U{A5} 1234567"
    ensures CommasFrom(s, 3) == ",234,567"
  {
    GroupingRuns(s);
    GroupingTail(s);
    assert CommasFrom(s, 4) == "34,567";
  }

  /** Comma positions: one before each digit that starts a multiple-of-three run after a word character. */
  lemma GroupingOf(s: string)
    requires s == "\U{A5} 1234567"
    ensures InsertCommas(s) == "\U{A5} 1,234,567"
  {
    GroupingRuns(s);
    GroupingMiddle(s);
    assert CommasFrom(s, 2) == "1,234,567";
    assert CommasFrom(s, 1) == " 1,234,567";
  }

  /** An amount of 1234567 is shown as `¥ 1,234,567`. */
  lemma GroupingExample()
    ensures InsertCommas("\U{A5} 1234567") == "\U{A5} 1,234,567"
  {
    GroupingOf("\U{A5} 1234567");
  }
}
