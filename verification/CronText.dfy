/** The parser is complete: every schedule whose fields are in range and whose date exists
    has a text that parses to it. Together with `Parse`'s own contract, the schedules the
    parser can produce are exactly the well-formed ones.
 */
module CronText {
  import opened Cron
  import opened Texts
  import opened Wrappers

  // ---------------------------------------------------------------------------
  // Writing a schedule down
  // ---------------------------------------------------------------------------

  function DigitChar(d: int): (c: char)
    requires 0 <= d < 10
    ensures IsDigit(c) && c as int - '0' as int == d
  {
    ('0' as int + d) as char
  }

  function Digits(n: nat): (s: string)
    ensures s != [] && AllDigits(s)
  {
    if n < 10 then [DigitChar(n)] else Digits(n / 10) + [DigitChar(n % 10)]
  }

  function DigitsOfAll(values: seq<Byte>): (pieces: seq<string>)
    ensures |pieces| == |values| && forall i :: 0 <= i < |pieces| ==> pieces[i] == Digits(values[i])
  {
    if values == [] then [] else [Digits(values[0])] + DigitsOfAll(values[1..])
  }

  function RenderField(f: CronField): string {
    match f
    case Any => "*"
    case Value(v) => Digits(v)
    case Range(lo, hi) => Join([Digits(lo), Digits(hi)], '-')
    case Step(step, _) => "*/" + Digits(step)
    case List(values) => Join(DigitsOfAll(values), ',')
  }

  function Words(s: CronSchedule): seq<string> {
    [RenderField(s.second), RenderField(s.minute), RenderField(s.hour),
     RenderField(s.dayOfMonth), RenderField(s.month), RenderField(s.dayOfWeek)]
  }

  function Render(s: CronSchedule): string {
    Join(Words(s), ' ')
  }

  // ---------------------------------------------------------------------------
  // Numbers
  // ---------------------------------------------------------------------------

  lemma {:induction false} DigitsValueOfDigits(n: nat)
    ensures DigitsValue(Digits(n)) == n
  {
    if n >= 10 {
      DigitsValueOfDigits(n / 10);
      var s := Digits(n);
      assert s[..|s| - 1] == Digits(n / 10);
    }
  }

  lemma ParseDigits(v: Byte)
    ensures ParseByte(Digits(v)) == Some(v)
  {
    DigitsValueOfDigits(v);
    assert IsDigit(Digits(v)[0]);
  }

  lemma {:induction false} ParseAllDigits(values: seq<Byte>)
    ensures ParseBytes(DigitsOfAll(values)) == Some(values)
  {
    if values != [] {
      ParseDigits(values[0]);
      ParseAllDigits(values[1..]);
      assert values == [values[0]] + values[1..];
    }
  }

  // ---------------------------------------------------------------------------
  // Splitting what was joined
  // ---------------------------------------------------------------------------

  lemma {:induction false} WordLengthOf(w: string, rest: string)
    requires forall i :: 0 <= i < |w| ==> !IsWhitespace(w[i])
    requires rest == [] || IsWhitespace(rest[0])
    ensures WordLength(w + rest) == |w|
  {
    if w != [] {
      assert (w + rest)[1..] == w[1..] + rest;
      WordLengthOf(w[1..], rest);
    }
  }

  predicate IsWord(w: string) {
    w != [] && forall i :: 0 <= i < |w| ==> !IsWhitespace(w[i])
  }

  lemma SplitWord(w: string, rest: string)
    requires IsWord(w) && (rest == [] || IsWhitespace(rest[0]))
    ensures SplitWhitespace(w + rest) == [w] + SplitWhitespace(rest)
  {
    WordLengthOf(w, rest);
    assert (w + rest)[..|w|] == w && (w + rest)[|w|..] == rest;
  }

  lemma {:induction false} SplitWords(words: seq<string>)
    requires words != [] && forall i :: 0 <= i < |words| ==> IsWord(words[i])
    ensures SplitWhitespace(Join(words, ' ')) == words
  {
    if |words| == 1 {
      SplitWord(words[0], []);
      assert words[0] + [] == words[0];
    } else {
      var tail := Join(words[1..], ' ');
      SplitWords(words[1..]);
      SplitWord(words[0], [' '] + tail);
      assert words[0] + ([' '] + tail) == Join(words, ' ');
      assert ([' '] + tail)[1..] == tail;
    }
  }

  // ---------------------------------------------------------------------------
  // Fields
  // ---------------------------------------------------------------------------

  predicate DigitsOr(s: string, sep: char) {
    forall i :: 0 <= i < |s| ==> IsDigit(s[i]) || s[i] == sep
  }

  lemma {:induction false} JoinOfDigits(pieces: seq<string>, sep: char)
    requires pieces != [] && forall i :: 0 <= i < |pieces| ==> pieces[i] != [] && AllDigits(pieces[i])
    ensures DigitsOr(Join(pieces, sep), sep) && IsDigit(Join(pieces, sep)[0])
    ensures |pieces| > 1 ==> sep in Join(pieces, sep)
  {
    if |pieces| > 1 {
      JoinOfDigits(pieces[1..], sep);
      assert Join(pieces, sep)[|pieces[0]|] == sep;
    }
  }

  lemma DigitIsNoStar(text: string)
    requires text != [] && IsDigit(text[0])
    ensures text != "*" && (|text| >= 2 ==> text[..2] != "*/")
  {
    assert |text| >= 2 ==> text[..2][0] == text[0];
  }

  lemma ParseRenderedRange(text: string, lo: Byte, hi: Byte, min: Byte, max: Byte)
    requires min <= lo <= hi <= max
    ensures ParseRange(text, [Digits(lo), Digits(hi)], min, max) == Success(Range(lo, hi))
  {
    ParseDigits(lo);
    ParseDigits(hi);
  }

  lemma ParseRenderRange(lo: Byte, hi: Byte, min: Byte, max: Byte)
    requires min <= lo <= hi <= max
    ensures ParseField(RenderField(Range(lo, hi)), min, max) == Success(Range(lo, hi))
  {
    var pieces := [Digits(lo), Digits(hi)];
    var text := Join(pieces, '-');
    JoinOfDigits(pieces, '-');
    SplitJoin(pieces, '-');
    ParseRenderedRange(text, lo, hi, min, max);
    DigitIsNoStar(text);
  }

  lemma ParseRenderedList(text: string, values: seq<Byte>, min: Byte, max: Byte)
    requires FieldInBounds(List(values), min, max)
    ensures ParseList(text, DigitsOfAll(values), min, max) == Success(List(values))
  {
    ParseAllDigits(values);
  }

  lemma ParseRenderList(values: seq<Byte>, min: Byte, max: Byte)
    requires FieldInBounds(List(values), min, max)
    ensures ParseField(RenderField(List(values)), min, max) == Success(List(values))
  {
    var pieces := DigitsOfAll(values);
    var text := Join(pieces, ',');
    JoinOfDigits(pieces, ',');
    SplitJoin(pieces, ',');
    ParseRenderedList(text, values, min, max);
    DigitIsNoStar(text);
  }

  /** Each in-range field has a text, one word long, that parses to it. */
  lemma ParseRenderField(f: CronField, min: Byte, max: Byte)
    requires FieldInBounds(f, min, max)
    ensures ParseField(RenderField(f), min, max) == Success(f)
  {
    match f
    case Any =>
    case Value(v) =>
      ParseDigits(v);
      assert IsDigit(Digits(v)[0]);
    case Range(lo, hi) => ParseRenderRange(lo, hi, min, max);
    case Step(step, _) =>
      ParseDigits(step);
      assert RenderField(f)[2..] == Digits(step);
    case List(values) => ParseRenderList(values, min, max);
  }

  lemma RenderedFieldIsWord(f: CronField, min: Byte, max: Byte)
    requires FieldInBounds(f, min, max)
    ensures IsWord(RenderField(f))
  {
    match f
    case Any =>
    case Value(v) =>
    case Range(lo, hi) => JoinOfDigits([Digits(lo), Digits(hi)], '-');
    case Step(step, _) =>
    case List(values) => JoinOfDigits(DigitsOfAll(values), ',');
  }

  lemma ParseFieldByField(parts: seq<string>, s: CronSchedule)
    requires |parts| == 6 && HasReachableDate(s)
    requires ParseField(parts[0], 0, 59) == Success(s.second)
    requires ParseField(parts[1], 0, 59) == Success(s.minute)
    requires ParseField(parts[2], 0, 23) == Success(s.hour)
    requires ParseField(parts[3], 1, 31) == Success(s.dayOfMonth)
    requires ParseField(parts[4], 1, 12) == Success(s.month)
    requires ParseField(parts[5], 0, 7) == Success(s.dayOfWeek)
    ensures ParseFields(parts) == Success(s)
  {
  }

  lemma ParseRenderedWords(s: CronSchedule, words: seq<string>)
    requires WellFormed(s) && words == Words(s)
    ensures ParseFields(words) == Success(s)
  {
    assert ParseField(words[0], 0, 59) == Success(s.second) by { ParseRenderField(s.second, 0, 59); }
    assert ParseField(words[1], 0, 59) == Success(s.minute) by { ParseRenderField(s.minute, 0, 59); }
    assert ParseField(words[2], 0, 23) == Success(s.hour) by { ParseRenderField(s.hour, 0, 23); }
    assert ParseField(words[3], 1, 31) == Success(s.dayOfMonth) by { ParseRenderField(s.dayOfMonth, 1, 31); }
    assert ParseField(words[4], 1, 12) == Success(s.month) by { ParseRenderField(s.month, 1, 12); }
    assert ParseField(words[5], 0, 7) == Success(s.dayOfWeek) by { ParseRenderField(s.dayOfWeek, 0, 7); }
    ParseFieldByField(words, s);
  }

  /** Writing a well-formed schedule down and parsing it gives the schedule back. */
  lemma ParseRender(s: CronSchedule)
    requires WellFormed(s)
    ensures Parse(Render(s)) == Success(s)
  {
    RenderedFieldIsWord(s.second, 0, 59);
    RenderedFieldIsWord(s.minute, 0, 59);
    RenderedFieldIsWord(s.hour, 0, 23);
    RenderedFieldIsWord(s.dayOfMonth, 1, 31);
    RenderedFieldIsWord(s.month, 1, 12);
    RenderedFieldIsWord(s.dayOfWeek, 0, 7);
    SplitWords(Words(s));
    ParseRenderedWords(s, Words(s));
  }

  /** The parser's range: it can produce a schedule exactly when the schedule is well formed. */
  lemma ParserRange(s: CronSchedule)
    ensures WellFormed(s) <==> exists text :: Parse(text) == Success(s)
  {
    if WellFormed(s) {
      ParseRender(s);
    }
  }

  /** A standard expression, five words apart by any whitespace, means the six-field one with
      seconds 0. */
  lemma FiveFieldsMeanSecondZero(text: string)
    requires |SplitWhitespace(text)| == 5
    ensures Parse(text) == Parse("0 " + text)
  {
    SplitWord("0", " " + text);
    assert "0" + (" " + text) == "0 " + text;
    assert (" " + text)[1..] == text;
  }
}
