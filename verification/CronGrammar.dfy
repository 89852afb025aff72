/** What a cron expression says, read off its text by a grammar that does not mention the
    parser: which texts are accepted, what each word stands for, and at which wall-clock
    seconds the whole expression fires.
 */
module CronGrammar {
  import opened Calendar
  import opened Cron
  import opened CronLaws
  import opened CronSearch
  import opened Texts
  import opened Wrappers

  // ---------------------------------------------------------------------------
  // Words
  // ---------------------------------------------------------------------------

  /** `text` is white space, then the words in order, each set off by white space. */
  ghost predicate Spells(text: string, words: seq<string>)
    decreases |words|
  {
    if words == [] then AllWhitespace(text)
    else exists i, j ::
        && 0 <= i < j <= |text|
        && AllWhitespace(text[..i])
        && text[i..j] == words[0]
        && NoWhitespace(text[i..j])
        && (j == |text| || IsWhitespace(text[j]))
        && Spells(text[j..], words[1..])
  }

  predicate AllWhitespace(s: string) {
    forall k :: 0 <= k < |s| ==> IsWhitespace(s[k])
  }

  predicate NoWhitespace(s: string) {
    forall k :: 0 <= k < |s| ==> !IsWhitespace(s[k])
  }

  lemma {:induction false} SkipWhitespace(text: string, i: nat)
    requires i <= |text| && AllWhitespace(text[..i])
    ensures SplitWhitespace(text) == SplitWhitespace(text[i..])
  {
    if i > 0 {
      assert IsWhitespace(text[..i][0]);
      assert text[1..][..i - 1] == text[..i][1..];
      SkipWhitespace(text[1..], i - 1);
      assert text[1..][i - 1..] == text[i..];
    } else {
      assert text[0..] == text;
    }
  }

  lemma WordLengthIs(s: string, k: nat)
    requires k <= |s| && NoWhitespace(s[..k]) && (k == |s| || IsWhitespace(s[k]))
    ensures WordLength(s) == k
  {
    assert forall i :: 0 <= i < k ==> s[..k][i] == s[i];
  }

  lemma FirstWord(text: string, i: nat, j: nat)
    requires i < j <= |text| && AllWhitespace(text[..i]) && NoWhitespace(text[i..j])
    requires j == |text| || IsWhitespace(text[j])
    ensures SplitWhitespace(text) == [text[i..j]] + SplitWhitespace(text[j..])
  {
    SkipWhitespace(text, i);
    var s := text[i..];
    assert s[..j - i] == text[i..j] && s[j - i..] == text[j..];
    assert !IsWhitespace(text[i..j][0]);
    WordLengthIs(s, j - i);
  }

  lemma {:induction false} SpelledSplits(text: string, words: seq<string>)
    requires Spells(text, words)
    ensures SplitWhitespace(text) == words
    decreases |words|
  {
    if words == [] {
      assert text[..|text|] == text;
      SkipWhitespace(text, |text|);
    } else {
      var i, j :| && 0 <= i < j <= |text|
                  && AllWhitespace(text[..i])
                  && text[i..j] == words[0]
                  && NoWhitespace(text[i..j])
                  && (j == |text| || IsWhitespace(text[j]))
                  && Spells(text[j..], words[1..]);
      FirstWord(text, i, j);
      SpelledSplits(text[j..], words[1..]);
    }
  }

  /** Where the first word begins, or the end of the text. */
  function Gap(s: string): (k: nat)
    ensures k <= |s| && AllWhitespace(s[..k])
    ensures k < |s| ==> !IsWhitespace(s[k])
  {
    if s == [] || !IsWhitespace(s[0]) then 0 else 1 + Gap(s[1..])
  }

  lemma {:induction false} SplitSpells(text: string)
    ensures Spells(text, SplitWhitespace(text))
    decreases |text|
  {
    var i := Gap(text);
    if i == |text| {
      assert text[..i] == text;
      SkipWhitespace(text, i);
    } else {
      var j := i + WordLength(text[i..]);
      assert text[i..][0] == text[i];
      assert j < |text| ==> text[i..][j - i] == text[j];
      forall k | 0 <= k < j - i
        ensures !IsWhitespace(text[i..j][k])
      {
        assert text[i..j][k] == text[i..][k];
      }
      FirstWord(text, i, j);
      SplitSpells(text[j..]);
      assert SplitWhitespace(text)[1..] == SplitWhitespace(text[j..]);
    }
  }

  /** A text spells exactly one list of words: the one that splitting it gives. */
  lemma WordsExact(text: string, words: seq<string>)
    ensures Spells(text, words) <==> SplitWhitespace(text) == words
  {
    SplitSpells(text);
    if Spells(text, words) {
      SpelledSplits(text, words);
    }
  }

  // ---------------------------------------------------------------------------
  // Numbers
  // ---------------------------------------------------------------------------

  /** Digits read from left to right, after those that make up `acc`. */
  function Decimal(s: string, acc: nat): nat
    requires AllDigits(s)
  {
    if s == [] then acc else Decimal(s[1..], 10 * acc + (s[0] as int - '0' as int))
  }

  /** A decimal number, leading zeros allowed, with an optional plus sign. */
  predicate Numeral(w: string, v: nat) {
    || (w != [] && AllDigits(w) && Decimal(w, 0) == v)
    || (|w| > 1 && w[0] == '+' && AllDigits(w[1..]) && Decimal(w[1..], 0) == v)
  }

  lemma {:induction false} DecimalLast(s: string, acc: nat)
    requires s != [] && AllDigits(s)
    ensures Decimal(s, acc) == 10 * Decimal(s[..|s| - 1], acc) + (s[|s| - 1] as int - '0' as int)
    decreases |s|
  {
    if |s| > 1 {
      var next := 10 * acc + (s[0] as int - '0' as int);
      DecimalLast(s[1..], next);
      assert s[1..][..|s| - 2] == s[..|s| - 1][1..];
    }
  }

  lemma {:induction false} DecimalIsValue(s: string)
    requires AllDigits(s)
    ensures Decimal(s, 0) == DigitsValue(s)
  {
    if s != [] {
      DecimalLast(s, 0);
      DecimalIsValue(s[..|s| - 1]);
    }
  }

  /** The number parser accepts exactly the numerals that fit a byte. */
  lemma NumberExact(w: string, v: Byte)
    ensures ParseByte(w) == Some(v) <==> Numeral(w, v)
  {
    if w != [] && w[0] == '+' {
      assert !IsDigit(w[0]);
      if AllDigits(w[1..]) {
        DecimalIsValue(w[1..]);
      }
    } else if AllDigits(w) {
      DecimalIsValue(w);
    }
  }

  /** A numeral is made of digits and a plus sign. */
  lemma NumeralChars(w: string, v: nat)
    requires Numeral(w, v)
    ensures w != [] && '*' !in w && '-' !in w && ',' !in w
  {
    forall i | 0 <= i < |w|
      ensures IsDigit(w[i]) || w[i] == '+'
    {
      if w[0] == '+' && i > 0 {
        assert w[1..][i - 1] == w[i];
      }
    }
  }

  // ---------------------------------------------------------------------------
  // The five forms of a word
  // ---------------------------------------------------------------------------

  ghost predicate IsStepText(w: string, n: Byte) {
    exists t :: w == "*/" + t && Numeral(t, n)
  }

  ghost predicate IsRangeText(w: string, lo: Byte, hi: Byte) {
    exists a, b :: w == a + ['-'] + b && Numeral(a, lo) && Numeral(b, hi)
  }

  ghost predicate IsListText(w: string, values: seq<Byte>) {
    exists pieces :: w == Join(pieces, ',') && AreNumerals(pieces, values)
  }

  predicate AreNumerals(pieces: seq<string>, values: seq<Byte>) {
    |pieces| == |values| >= 2 && forall i :: 0 <= i < |values| ==> Numeral(pieces[i], values[i])
  }

  /** What a word says, whatever its bounds: `*`, `*` by a step, two numbers with a dash
      between, numbers with commas between, or a number. Steps count from `min`. */
  ghost predicate Reads(w: string, min: Byte, field: CronField) {
    match field
    case Any => w == "*"
    case Step(n, from) => from == min && IsStepText(w, n)
    case Range(lo, hi) => IsRangeText(w, lo, hi)
    case List(values) => IsListText(w, values)
    case Value(v) => Numeral(w, v)
  }

  /** What a word says in a field that runs from `min` to `max`. */
  ghost predicate Denotes(w: string, min: Byte, max: Byte, field: CronField) {
    && Reads(w, min, field)
    && match field
       case Any => true
       case Step(n, _) => 0 < n <= max
       case Range(lo, hi) => min <= lo <= hi <= max
       case List(values) => forall v :: v in values ==> min <= v <= max
       case Value(v) => min <= v <= max
  }

  lemma StepTextExact(w: string, n: Byte)
    ensures IsStepText(w, n) <==> |w| >= 2 && w[..2] == "*/" && ParseByte(w[2..]) == Some(n)
  {
    if |w| >= 2 && w[..2] == "*/" {
      NumberExact(w[2..], n);
      assert w == "*/" + w[2..];
    }
    forall t | w == "*/" + t
      ensures w[..2] == "*/" && w[2..] == t
    {
    }
  }

  /** No step text is a lone star, holds a dash or holds a comma. */
  lemma StepTextChars(w: string, n: Byte)
    requires IsStepText(w, n)
    ensures |w| > 2 && w[0] == '*' && w[1] == '/' && '-' !in w && ',' !in w
  {
    var t :| w == "*/" + t && Numeral(t, n);
    NumeralChars(t, n);
  }

  lemma RangeTextSplits(w: string, lo: Byte, hi: Byte)
    requires IsRangeText(w, lo, hi)
    ensures w != [] && '*' !in w && '-' in w
    ensures var parts := Split(w, '-');
            |parts| == 2 && ParseByte(parts[0]) == Some(lo) && ParseByte(parts[1]) == Some(hi)
  {
    var a, b :| w == a + ['-'] + b && Numeral(a, lo) && Numeral(b, hi);
    NumeralChars(a, lo);
    NumeralChars(b, hi);
    SplitHead(a, b, '-');
    SplitWhole(b, '-');
    NumberExact(a, lo);
    NumberExact(b, hi);
    assert w[|a|] == '-';
  }

  lemma SplitsToRangeText(w: string, lo: Byte, hi: Byte)
    requires var parts := Split(w, '-');
             |parts| == 2 && ParseByte(parts[0]) == Some(lo) && ParseByte(parts[1]) == Some(hi)
    ensures IsRangeText(w, lo, hi)
  {
    var parts := Split(w, '-');
    JoinSplit(w, '-');
    assert parts == [parts[0], parts[1]];
    assert Join(parts, '-') == parts[0] + ['-'] + parts[1];
    NumberExact(parts[0], lo);
    NumberExact(parts[1], hi);
  }

  lemma {:induction false} ParseBytesExact(pieces: seq<string>, values: seq<Byte>)
    ensures ParseBytes(pieces) == Some(values)
       <==> |pieces| == |values| && forall i :: 0 <= i < |values| ==> Numeral(pieces[i], values[i])
  {
    if pieces != [] && |pieces| == |values| {
      NumberExact(pieces[0], values[0]);
      ParseBytesExact(pieces[1..], values[1..]);
      assert values == [values[0]] + values[1..];
      assert forall i :: 0 < i < |values| ==> pieces[i] == pieces[1..][i - 1] && values[i] == values[1..][i - 1];
    }
  }

  lemma {:induction false} JoinedNumerals(pieces: seq<string>, values: seq<Byte>)
    requires |pieces| == |values| >= 1 && forall i :: 0 <= i < |values| ==> Numeral(pieces[i], values[i])
    ensures var w := Join(pieces, ','); w != [] && '*' !in w && '-' !in w
    ensures |pieces| > 1 ==> ',' in Join(pieces, ',')
  {
    NumeralChars(pieces[0], values[0]);
    if |pieces| > 1 {
      JoinedNumerals(pieces[1..], values[1..]);
      assert Join(pieces, ',')[|pieces[0]|] == ',';
    }
  }

  lemma ListTextSplits(w: string, values: seq<Byte>)
    requires IsListText(w, values)
    ensures w != [] && '*' !in w && '-' !in w && ',' in w
    ensures ParseBytes(Split(w, ',')) == Some(values)
  {
    var pieces :| w == Join(pieces, ',') && AreNumerals(pieces, values);
    JoinedNumerals(pieces, values);
    forall i | 0 <= i < |pieces|
      ensures ',' !in pieces[i]
    {
      NumeralChars(pieces[i], values[i]);
    }
    SplitJoin(pieces, ',');
    ParseBytesExact(pieces, values);
  }

  lemma SplitsToListText(w: string, values: seq<Byte>)
    requires ',' in w && ParseBytes(Split(w, ',')) == Some(values)
    ensures IsListText(w, values)
  {
    var pieces := Split(w, ',');
    JoinSplit(w, ',');
    ParseBytesExact(pieces, values);
    assert AreNumerals(pieces, values);
  }

  // ---------------------------------------------------------------------------
  // The parser decides the grammar
  // ---------------------------------------------------------------------------

  lemma ParsedDenotes(w: string, min: Byte, max: Byte)
    ensures var r := ParseField(w, min, max); r.Success? ==> Denotes(w, min, max, r.value)
  {
    var r := ParseField(w, min, max);
    if r.Success? {
      match r.value
      case Any =>
      case Step(n, _) => StepTextExact(w, n);
      case Range(lo, hi) => SplitsToRangeText(w, lo, hi);
      case List(values) => SplitsToListText(w, values);
      case Value(v) => NumberExact(w, v);
    }
  }

  lemma StepParses(w: string, min: Byte, max: Byte, n: Byte)
    requires IsStepText(w, n) && 0 < n <= max
    ensures ParseField(w, min, max) == Success(Step(n, min))
  {
    StepTextExact(w, n);
    StepTextChars(w, n);
  }

  lemma NoStar(w: string)
    requires w != [] && '*' !in w
    ensures w != "*" && (|w| >= 2 ==> w[..2] != "*/")
  {
    assert |w| >= 2 ==> w[..2][0] == w[0];
  }

  lemma RangeParses(w: string, min: Byte, max: Byte, lo: Byte, hi: Byte)
    requires IsRangeText(w, lo, hi) && min <= lo <= hi <= max
    ensures ParseField(w, min, max) == Success(Range(lo, hi))
  {
    RangeTextSplits(w, lo, hi);
    NoStar(w);
  }

  lemma ListParses(w: string, min: Byte, max: Byte, values: seq<Byte>)
    requires IsListText(w, values) && forall v :: v in values ==> min <= v <= max
    ensures ParseField(w, min, max) == Success(List(values))
  {
    ListTextSplits(w, values);
    NoStar(w);
    assert forall i :: 0 <= i < |values| ==> values[i] in values;
    assert FirstOutOfBounds(values, min, max) == None;
  }

  lemma NumberParses(w: string, min: Byte, max: Byte, v: Byte)
    requires Numeral(w, v) && min <= v <= max
    ensures ParseField(w, min, max) == Success(Value(v))
  {
    NumeralChars(w, v);
    NoStar(w);
    NumberExact(w, v);
  }

  lemma DenotedParses(w: string, min: Byte, max: Byte, field: CronField)
    requires Denotes(w, min, max, field)
    ensures ParseField(w, min, max) == Success(field)
  {
    match field
    case Any =>
    case Step(n, _) => StepParses(w, min, max, n);
    case Range(lo, hi) => RangeParses(w, min, max, lo, hi);
    case List(values) => ListParses(w, min, max, values);
    case Value(v) => NumberParses(w, min, max, v);
  }

  /** A field is parsed exactly as the grammar reads it: accepted if and only if it has one
      of the five forms with its numbers in bounds, and then as that form. */
  lemma FieldExact(w: string, min: Byte, max: Byte, field: CronField)
    ensures ParseField(w, min, max) == Success(field) <==> Denotes(w, min, max, field)
  {
    ParsedDenotes(w, min, max);
    if Denotes(w, min, max, field) {
      DenotedParses(w, min, max, field);
    }
  }

  /** The six words of an expression; five mean that the seconds are 0. */
  function SixWords(words: seq<string>): seq<string> {
    if |words| == 5 then ["0"] + words else words
  }

  ghost predicate WordsDenote(words: seq<string>, s: CronSchedule) {
    && |words| == 6
    && Denotes(words[0], 0, 59, s.second)
    && Denotes(words[1], 0, 59, s.minute)
    && Denotes(words[2], 0, 23, s.hour)
    && Denotes(words[3], 1, 31, s.dayOfMonth)
    && Denotes(words[4], 1, 12, s.month)
    && Denotes(words[5], 0, 7, s.dayOfWeek)
  }

  /** The fields, each parsed from its word. */
  predicate FieldsParse(words: seq<string>, s: CronSchedule) {
    && |words| == 6
    && ParseField(words[0], 0, 59) == Success(s.second)
    && ParseField(words[1], 0, 59) == Success(s.minute)
    && ParseField(words[2], 0, 23) == Success(s.hour)
    && ParseField(words[3], 1, 31) == Success(s.dayOfMonth)
    && ParseField(words[4], 1, 12) == Success(s.month)
    && ParseField(words[5], 0, 7) == Success(s.dayOfWeek)
  }

  lemma FieldsExact(words: seq<string>, s: CronSchedule)
    ensures FieldsParse(words, s) <==> WordsDenote(words, s)
  {
    if |words| == 6 {
      FieldExact(words[0], 0, 59, s.second);
      FieldExact(words[1], 0, 59, s.minute);
      FieldExact(words[2], 0, 23, s.hour);
      FieldExact(words[3], 1, 31, s.dayOfMonth);
      FieldExact(words[4], 1, 12, s.month);
      FieldExact(words[5], 0, 7, s.dayOfWeek);
    }
  }

  lemma ParseFieldsExact(words: seq<string>, s: CronSchedule)
    requires |words| == 6
    ensures ParseFields(words) == Success(s) <==> FieldsParse(words, s) && HasReachableDate(s)
  {
  }

  lemma ParsedInBounds(words: seq<string>, s: CronSchedule)
    requires FieldsParse(words, s)
    ensures InBounds(s)
  {
  }

  /** An expression is accepted if and only if it is five or six words, each of which denotes
      its field, and some Gregorian date has the days they ask for. Then the schedule is the
      one they denote. */
  lemma ExpressionExact(text: string, words: seq<string>, s: CronSchedule)
    requires Spells(text, words)
    ensures Parse(text) == Success(s)
       <==> WordsDenote(SixWords(words), s) && exists n :: DayMatches(s, n)
  {
    WordsExact(text, words);
    var six := SixWords(words);
    FieldsExact(six, s);
    if |six| == 6 {
      ParseFieldsExact(six, s);
      if FieldsParse(six, s) {
        ParsedInBounds(six, s);
        ReachableDateExact(s);
      }
    }
  }

  // ---------------------------------------------------------------------------
  // What an expression fires on
  // ---------------------------------------------------------------------------

  /** The values a word admits: all of them, those whole steps from the field's least value,
      those from the first number to the second, those listed, or the one named. */
  ghost predicate Admits(w: string, min: Byte, v: Byte) {
    || w == "*"
    || (exists n: Byte, k: nat {:trigger StepAdmits(w, min, n, k, v)} :: StepAdmits(w, min, n, k, v))
    || (exists lo: Byte, hi: Byte :: IsRangeText(w, lo, hi) && lo <= v <= hi)
    || (exists values :: IsListText(w, values) && v in values)
    || Numeral(w, v)
  }

  ghost predicate StepAdmits(w: string, min: Byte, n: Byte, k: nat, v: Byte) {
    IsStepText(w, n) && v == min + k * n
  }

  lemma ReadsChars(w: string, min: Byte, field: CronField)
    requires Reads(w, min, field)
    ensures w != []
    ensures field.Any? || field.Step? <==> w[0] == '*'
    ensures field.Any? <==> w == "*"
    ensures field.Range? <==> '-' in w
    ensures field.List? <==> '-' !in w && ',' in w
  {
    match field
    case Any =>
    case Step(n, _) => StepTextChars(w, n);
    case Range(lo, hi) => RangeTextSplits(w, lo, hi);
    case List(values) => ListTextSplits(w, values);
    case Value(v) => NumeralChars(w, v);
  }

  /** A word has at most one reading. */
  lemma ReadsOnce(w: string, min: Byte, a: CronField, b: CronField)
    requires Reads(w, min, a) && Reads(w, min, b)
    ensures a == b
  {
    ReadsChars(w, min, a);
    ReadsChars(w, min, b);
    match a
    case Any =>
    case Step(n, _) =>
      StepTextExact(w, n);
      StepTextExact(w, b.step);
    case Range(lo, hi) =>
      RangeTextSplits(w, lo, hi);
      RangeTextSplits(w, b.lo, b.hi);
    case List(values) =>
      ListTextSplits(w, values);
      ListTextSplits(w, b.values);
    case Value(v) =>
      NumberExact(w, v);
      NumberExact(w, b.v);
  }

  lemma SmallMultiple(d: int, n: nat)
    requires n > 0
    ensures d > 0 ==> d * n >= n
    ensures d < 0 ==> d * n + n <= 0
  {
  }

  lemma MultipleOf(x: nat, n: nat, k: nat)
    requires n > 0 && x == k * n
    ensures x % n == 0
  {
    var q, r := x / n, x % n;
    assert x == q * n + r;
    assert (k - q) * n == k * n - q * n;
    SmallMultiple(k - q, n);
  }

  lemma StepMeans(w: string, min: Byte, n: Byte, v: Byte)
    requires IsStepText(w, n) && n > 0
    ensures FieldMatches(Step(n, min), v)
       <==> exists k: nat {:trigger StepAdmits(w, min, n, k, v)} :: StepAdmits(w, min, n, k, v)
  {
    if FieldMatches(Step(n, min), v) {
      var k := (v - min) / n;
      assert StepAdmits(w, min, n, k, v);
    }
    forall k: nat | StepAdmits(w, min, n, k, v)
      ensures FieldMatches(Step(n, min), v)
    {
      MultipleOf(v - min, n, k);
    }
  }

  lemma MatchesIsAdmitted(w: string, min: Byte, max: Byte, field: CronField, v: Byte)
    requires Denotes(w, min, max, field) && FieldMatches(field, v)
    ensures Admits(w, min, v)
  {
    if field.Step? {
      StepMeans(w, min, field.step, v);
      var k: nat :| StepAdmits(w, min, field.step, k, v);
    }
  }

  lemma AdmittedMatches(w: string, min: Byte, max: Byte, field: CronField, v: Byte)
    requires Denotes(w, min, max, field) && Admits(w, min, v)
    ensures FieldMatches(field, v)
  {
    if n: Byte, k: nat :| StepAdmits(w, min, n, k, v) {
      ReadsOnce(w, min, field, Step(n, min));
      StepMeans(w, min, n, v);
    } else if lo: Byte, hi: Byte :| IsRangeText(w, lo, hi) && lo <= v <= hi {
      ReadsOnce(w, min, field, Range(lo, hi));
    } else if values :| IsListText(w, values) && v in values {
      ReadsOnce(w, min, field, List(values));
    } else if Numeral(w, v) {
      ReadsOnce(w, min, field, Value(v));
    } else {
      ReadsOnce(w, min, field, Any);
    }
  }

  /** A field matches exactly the values its word admits, and counts as restricted exactly
      when the word does not start with a star. */
  lemma FieldMeaning(w: string, min: Byte, max: Byte, field: CronField, v: Byte)
    requires Denotes(w, min, max, field)
    ensures FieldMatches(field, v) <==> Admits(w, min, v)
    ensures w != [] && (Restricted(field) <==> w[0] != '*')
  {
    ReadsChars(w, min, field);
    if FieldMatches(field, v) {
      MatchesIsAdmitted(w, min, max, field, v);
    }
    if Admits(w, min, v) {
      AdmittedMatches(w, min, max, field, v);
    }
  }

  /** The day rule on the words: both day words must admit the day when either starts with
      a star; otherwise either suffices. Sunday is 0 or 7. */
  ghost predicate DayWordsAdmit(dom: string, dow: string, day: Byte, weekday: Byte)
    requires dom != [] && dow != []
  {
    var byDay := Admits(dom, 1, day);
    var byWeekday := Admits(dow, 0, weekday) || (weekday == 0 && Admits(dow, 0, 7));
    if dom[0] == '*' || dow[0] == '*' then byDay && byWeekday else byDay || byWeekday
  }

  /** The six words admit the time of day `hour:minute:second` on a day. */
  ghost predicate WordsAdmit(
    words: seq<string>, month: Byte, day: Byte, weekday: Byte, hour: Byte, minute: Byte, second: Byte)
    requires |words| == 6 && words[3] != [] && words[5] != []
  {
    && Admits(words[0], 0, second)
    && Admits(words[1], 0, minute)
    && Admits(words[2], 0, hour)
    && DayWordsAdmit(words[3], words[5], day, weekday)
    && Admits(words[4], 1, month)
  }

  lemma DayRule(words: seq<string>, s: CronSchedule, month: Byte, day: Byte, weekday: Byte)
    requires WordsDenote(words, s)
    ensures words[3] != [] && words[5] != []
    ensures DateFieldsMatch(s, month, day, weekday)
       <==> DayWordsAdmit(words[3], words[5], day, weekday) && Admits(words[4], 1, month)
  {
    FieldMeaning(words[3], 1, 31, s.dayOfMonth, day);
    FieldMeaning(words[4], 1, 12, s.month, month);
    FieldMeaning(words[5], 0, 7, s.dayOfWeek, weekday);
    FieldMeaning(words[5], 0, 7, s.dayOfWeek, 7);
  }

  lemma Clock(hour: Byte, minute: Byte, second: Byte)
    requires hour < 24 && minute < 60 && second < 60
    ensures var sod := hour * 3600 + minute * 60 + second;
            && 0 <= sod < SECONDS_PER_DAY
            && HourOf(sod) == hour && MinuteOf(sod) == minute && SecondOf(sod) == second
  {
  }

  lemma TimeRule(words: seq<string>, s: CronSchedule, sod: int, hour: Byte, minute: Byte, second: Byte)
    requires WordsDenote(words, s) && 0 <= sod < SECONDS_PER_DAY
    requires HourOf(sod) == hour && MinuteOf(sod) == minute && SecondOf(sod) == second
    ensures TimeMatches(s, sod)
       <==> Admits(words[0], 0, second) && Admits(words[1], 0, minute) && Admits(words[2], 0, hour)
  {
    FieldMeaning(words[0], 0, 59, s.second, second);
    FieldMeaning(words[1], 0, 59, s.minute, minute);
    FieldMeaning(words[2], 0, 23, s.hour, hour);
  }

  lemma MatchesAt(s: CronSchedule, n: int, sod: int)
    requires 0 <= sod < SECONDS_PER_DAY
    ensures Matches(s, n * SECONDS_PER_DAY + sod) <==> DayMatches(s, n) && TimeMatches(s, sod)
  {
    var w := n * SECONDS_PER_DAY + sod;
    assert w / SECONDS_PER_DAY == n && w % SECONDS_PER_DAY == sod;
  }

  lemma AcceptedDenotes(text: string, words: seq<string>, s: CronSchedule)
    requires Spells(text, words) && Parse(text) == Success(s)
    ensures WordsDenote(SixWords(words), s)
  {
    ExpressionExact(text, words, s);
  }

  lemma FiresAt(
    words: seq<string>, s: CronSchedule, n: int, d: Date, sod: int, hour: Byte, minute: Byte, second: Byte)
    requires WordsDenote(words, s) && d == DateOf(n) && 0 <= sod < SECONDS_PER_DAY
    requires HourOf(sod) == hour && MinuteOf(sod) == minute && SecondOf(sod) == second
    ensures words[3] != [] && words[5] != []
    ensures DayMatches(s, n) && TimeMatches(s, sod)
       <==> WordsAdmit(words, d.month, d.day, Weekday(n), hour, minute, second)
  {
    DayRule(words, s, d.month, d.day, Weekday(n));
    TimeRule(words, s, sod, hour, minute, second);
  }

  /** The schedule that six words denote matches a wall-clock second exactly when the words
      admit it. */
  lemma FiresExactly(words: seq<string>, s: CronSchedule, d: Date, hour: Byte, minute: Byte, second: Byte)
    requires WordsDenote(words, s)
    requires d.Valid() && hour < 24 && minute < 60 && second < 60
    ensures words[3] != [] && words[5] != []
    ensures Matches(s, DayNumber(d) * SECONDS_PER_DAY + (hour * 3600 + minute * 60 + second))
       <==> WordsAdmit(words, d.month, d.day, Weekday(DayNumber(d)), hour, minute, second)
  {
    var n, sod := DayNumber(d), hour * 3600 + minute * 60 + second;
    DateOfDayNumber(d);
    Clock(hour, minute, second);
    MatchesAt(s, n, sod);
    FiresAt(words, s, n, d, sod, hour, minute, second);
  }

  /** However long an accepted expression runs and whatever the zone: if its minute word does
      not start with a star and its hour word is not a star, no wall second comes twice. */
  lemma ExpressionNeverFiresTwice(
    text: string, words: seq<string>, s: CronSchedule, z: Zone, ts: seq<int>, i: nat, j: nat)
    requires Spells(text, words) && Parse(text) == Success(s)
    requires IsRunSequence(s, z, ts) && i < j < |ts|
    ensures var six := SixWords(words);
            && |six| == 6 && six[1] != []
            && (six[1][0] != '*' && six[2] != "*" ==> WallSecond(z, ts[i]) < WallSecond(z, ts[j]))
  {
    AcceptedDenotes(text, words, s);
    var six := SixWords(words);
    ReadsChars(six[1], 0, s.minute);
    ReadsChars(six[2], 0, s.hour);
    if six[1][0] != '*' && six[2] != "*" {
      WallClocksIncrease(s, z, ts, i, j);
    }
  }
}
