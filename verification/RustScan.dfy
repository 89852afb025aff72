/** The Rust source scanner: two views of a text, offset for offset.

    In the `code` view comments are blanked and the inside of every literal is replaced by
    `_`; in the `text` view only comments are blanked. Which characters count as
    alphanumeric (Python's `isalnum`) is a parameter.
 */
module RustScan {
  import opened Wrappers

  datatype ScanError = UnterminatedRawString | UnterminatedString

  /** A token and where it ends. `bodyStart` and `bodyEnd` delimit the inside of a literal. */
  datatype Token =
    | Plain
    | Comment(end: nat)
    | Literal(bodyStart: nat, bodyEnd: nat, end: nat)
    | Broken(error: ScanError)

  // ---------------------------------------------------------------------------
  // Searching
  // ---------------------------------------------------------------------------

  predicate StartsAt(src: string, i: nat, what: string) {
    i + |what| <= |src| && src[i..i + |what|] == what
  }

  /** The first index from `i` on at which `what` starts, or the length of the text. */
  function Find(src: string, what: string, i: nat): (j: nat)
    requires i <= |src| && what != []
    ensures i <= j <= |src| && (j < |src| ==> StartsAt(src, j, what))
    ensures forall k :: i <= k < j ==> !StartsAt(src, k, what)
    decreases |src| - i
  {
    if i == |src| || StartsAt(src, i, what) then i else Find(src, what, i + 1)
  }

  /** Where a block comment ends whose `depth` openers are still open at `j`; an unclosed
      one runs to the end of the text. */
  function BlockEnd(src: string, j: nat, depth: nat): (e: nat)
    requires j <= |src|
    ensures j <= e <= |src|
    decreases |src| - j
  {
    if j == |src| || depth == 0 then j
    else if StartsAt(src, j, "/*") then BlockEnd(src, j + 2, depth + 1)
    else if StartsAt(src, j, "*/") then BlockEnd(src, j + 2, depth - 1)
    else BlockEnd(src, j + 1, depth)
  }

  /** The closing quote of a string whose body continues at `j`; past the end if there is none. */
  function QuoteEnd(src: string, j: nat): (e: nat)
    ensures j <= e
    ensures e < |src| ==> src[e] == '"'
    decreases |src| - j
  {
    if j >= |src| || src[j] == '"' then j
    else QuoteEnd(src, j + if src[j] == '\\' then 2 else 1)
  }

  function CountHashes(src: string, j: nat): (e: nat)
    requires j <= |src|
    ensures j <= e <= |src| && (forall k :: j <= k < e ==> src[k] == '#')
    ensures e < |src| ==> src[e] != '#'
    decreases |src| - j
  {
    if j == |src| || src[j] != '#' then j else CountHashes(src, j + 1)
  }

  /** `b?r(#*)"` at `i`: the hashes' first index and the index after the quote. */
  function RawStringAt(src: string, i: nat): (r: Option<(nat, nat)>)
    requires i < |src|
    ensures r.Some? ==> i < r.value.0 < r.value.1 <= |src| && src[r.value.1 - 1] == '"'
  {
    var at := if src[i] == 'b' then i + 1 else i;
    if at < |src| && src[at] == 'r' then
      var e := CountHashes(src, at + 1);
      if e < |src| && src[e] == '"' then Some((at + 1, e + 1)) else None
    else None
  }

  /** `'(\\.[^']*|[^'\\])'` at `i`: the index after the closing quote. A `.` is not a newline. */
  function CharLiteralAt(src: string, i: nat): (r: Option<nat>)
    requires i < |src|
    ensures r.Some? ==> i + 2 < r.value <= |src| && src[i] == '\'' && src[r.value - 1] == '\''
  {
    if src[i] != '\'' || i + 2 >= |src| then None
    else if src[i + 1] == '\\' then
      if src[i + 2] == '\n' then None
      else
        var e := Find(src, "'", i + 3);
        if e < |src| then Some(e + 1) else None
    else if src[i + 1] != '\'' && src[i + 2] == '\'' then Some(i + 3)
    else None
  }

  predicate IdentBefore(src: string, i: nat, alnum: char -> bool)
    requires i < |src|
  {
    i > 0 && (alnum(src[i - 1]) || src[i - 1] == '_')
  }

  // ---------------------------------------------------------------------------
  // Tokens
  // ---------------------------------------------------------------------------

  /** Where a token at `i` may lie. */
  predicate Shape(src: string, i: nat, t: Token) {
    match t
    case Comment(end) => i < end <= |src|
    case Literal(bodyStart, bodyEnd, end) => i < bodyStart <= bodyEnd < end <= |src|
    case _ => true
  }

  function CommentAt(src: string, i: nat): (t: Token)
    requires i < |src| && (StartsAt(src, i, "//") || StartsAt(src, i, "/*"))
    ensures t.Comment? && Shape(src, i, t)
  {
    if StartsAt(src, i, "//") then
      assert src[i..i + 2][0] == src[i];
      assert StartsAt(src, i, "\n") ==> src[i..i + 1][0] == src[i];
      Comment(Find(src, "\n", i))
    else Comment(BlockEnd(src, i + 2, 1))
  }

  function RawLiteralAt(src: string, i: nat): (t: Token)
    requires i < |src| && RawStringAt(src, i).Some?
    ensures Shape(src, i, t) && (t.Literal? || t.Broken?)
  {
    var (hashesAt, bodyStart) := RawStringAt(src, i).value;
    var hashes := src[hashesAt..bodyStart - 1];
    var bodyEnd := Find(src, "\"" + hashes, bodyStart);
    if bodyEnd == |src| then Broken(UnterminatedRawString)
    else Literal(bodyStart, bodyEnd, bodyEnd + 1 + |hashes|)
  }

  function StringLiteralAt(src: string, i: nat): (t: Token)
    requires i < |src| && src[i] == '"'
    ensures Shape(src, i, t) && (t.Literal? || t.Broken?)
  {
    var e := QuoteEnd(src, i + 1);
    if e >= |src| then Broken(UnterminatedString) else Literal(i + 1, e, e + 1)
  }

  /** The token at `i`. */
  function TokenAt(src: string, i: nat, alnum: char -> bool): (t: Token)
    requires i < |src|
    ensures Shape(src, i, t)
  {
    if StartsAt(src, i, "//") || StartsAt(src, i, "/*") then CommentAt(src, i)
    else if !IdentBefore(src, i, alnum) && RawStringAt(src, i).Some? then RawLiteralAt(src, i)
    else if src[i] == '"' then StringLiteralAt(src, i)
    else if CharLiteralAt(src, i).Some? then
      Literal(i + 1, CharLiteralAt(src, i).value - 1, CharLiteralAt(src, i).value)
    else Plain
  }

  /** The index after the token at `i`. */
  function TokenEnd(t: Token, i: nat): nat
    requires !t.Broken?
  {
    if t.Plain? then i + 1 else t.end
  }

  function Blank(c: char): char {
    if c == '\n' then '\n' else ' '
  }

  function Fill(c: char): char {
    if c == '\n' then '\n' else '_'
  }

  /** The character shown at `k` in the code view, `k` lying in token `t`. */
  function CodeChar(src: string, t: Token, k: nat): char
    requires k < |src|
  {
    match t
    case Comment(_) => Blank(src[k])
    case Literal(bodyStart, bodyEnd, _) => if bodyStart <= k < bodyEnd then Fill(src[k]) else src[k]
    case _ => src[k]
  }

  function TextChar(src: string, t: Token, k: nat): char
    requires k < |src|
  {
    if t.Comment? then Blank(src[k]) else src[k]
  }

  // ---------------------------------------------------------------------------
  // Tokenizations, for any way `tok` of reading the token at an index
  // ---------------------------------------------------------------------------

  type Lexer = nat -> Token

  /** The Rust lexer. */
  ghost function RustLexer(src: string, alnum: char -> bool): (tok: Lexer)
    ensures IsRustLexer(src, alnum, tok)
  {
    (i: nat) => if i < |src| then TokenAt(src, i, alnum) else Plain
  }

  ghost predicate IsRustLexer(src: string, alnum: char -> bool, tok: Lexer) {
    forall i: nat {:trigger TokenAt(src, i, alnum)} :: i < |src| ==> tok(i) == TokenAt(src, i, alnum)
  }

  /** Position `k` belongs to the token that starts at `start`. */
  ghost predicate Owns(tok: Lexer, start: nat, k: nat) {
    start <= k && !tok(start).Broken? && k < TokenEnd(tok(start), start)
  }

  /** `owner` gives, for a leading part of the text, the start of the token that owns each
      position: tokens follow one another without gaps, each read where the last one ends. */
  ghost predicate Tokenized(tok: Lexer, owner: seq<nat>) {
    && (forall k :: 0 <= k < |owner| ==> Owns(tok, owner[k], k) && TokenEnd(tok(owner[k]), owner[k]) <= |owner|)
    && (forall k :: 0 <= k < |owner| ==>
          owner[k] == if k == 0 then 0 else if Owns(tok, owner[k - 1], k) then owner[k - 1] else k)
  }

  /** The scanner's two outcomes, for the tokenization it finds. */
  ghost predicate ScansTo(src: string, tok: Lexer, owner: seq<nat>, r: Result<Views, ScanError>) {
    && Tokenized(tok, owner) && |owner| <= |src|
    && match r
       case Failure(error) => |owner| < |src| && tok(|owner|) == Broken(error)
       case Success(views) =>
         && |owner| == |views.code| == |views.text| == |src|
         && Shows(src, tok, owner, views.code, views.text)
  }

  ghost predicate Shows(src: string, tok: Lexer, owner: seq<nat>, code: string, text: string) {
    && |owner| == |code| == |text| <= |src|
    && (forall k :: 0 <= k < |owner| ==> code[k] == CodeChar(src, tok(owner[k]), k))
    && (forall k :: 0 <= k < |owner| ==> text[k] == TextChar(src, tok(owner[k]), k))
  }

  // ---------------------------------------------------------------------------
  // The scanner
  // ---------------------------------------------------------------------------

  function Blanked(s: string): (r: string)
    ensures |r| == |s| && forall k :: 0 <= k < |s| ==> r[k] == Blank(s[k])
  {
    seq(|s|, k requires 0 <= k < |s| => Blank(s[k]))
  }

  function Filler(s: string): (r: string)
    ensures |r| == |s| && forall k :: 0 <= k < |s| ==> r[k] == Fill(s[k])
  {
    seq(|s|, k requires 0 <= k < |s| => Fill(s[k]))
  }

  method FindBlockEnd(src: string, start: nat) returns (j: nat)
    requires start <= |src|
    ensures j == BlockEnd(src, start, 1)
  {
    var depth: nat := 1;
    j := start;
    while j < |src| && depth > 0
      invariant j <= |src| && BlockEnd(src, start, 1) == BlockEnd(src, j, depth)
      decreases |src| - j
    {
      if StartsAt(src, j, "/*") {
        depth, j := depth + 1, j + 2;
      } else if StartsAt(src, j, "*/") {
        depth, j := depth - 1, j + 2;
      } else {
        j := j + 1;
      }
    }
  }

  method FindQuoteEnd(src: string, start: nat) returns (j: nat)
    ensures j == QuoteEnd(src, start)
  {
    j := start;
    while j < |src| && src[j] != '"'
      invariant QuoteEnd(src, start) == QuoteEnd(src, j)
      decreases |src| - j
    {
      j := j + if src[j] == '\\' then 2 else 1;
    }
  }

  /** The token at `i`, found as the loop finds it. */
  method ReadToken(src: string, i: nat, alnum: char -> bool, ghost tok: Lexer) returns (t: Token)
    requires i < |src| && IsRustLexer(src, alnum, tok)
    ensures t == tok(i) && Shape(src, i, t)
  {
    assert tok(i) == TokenAt(src, i, alnum);
    if StartsAt(src, i, "//") {
      t := CommentAt(src, i);
    } else if StartsAt(src, i, "/*") {
      var j := FindBlockEnd(src, i + 2);
      t := Comment(j);
    } else if !IdentBefore(src, i, alnum) && RawStringAt(src, i).Some? {
      t := RawLiteralAt(src, i);
    } else if src[i] == '"' {
      var end := FindQuoteEnd(src, i + 1);
      t := if end >= |src| then Broken(UnterminatedString) else Literal(i + 1, end, end + 1);
    } else if CharLiteralAt(src, i).Some? {
      var j := CharLiteralAt(src, i).value;
      t := Literal(i + 1, j - 1, j);
    } else {
      t := Plain;
    }
  }

  /** What the loop appends to the two views for token `t`. */
  method Emit(src: string, i: nat, t: Token) returns (code: string, text: string)
    requires i < |src| && Shape(src, i, t) && !t.Broken?
    ensures |code| == |text| == TokenEnd(t, i) - i
    ensures forall k :: 0 <= k < |code| ==> code[k] == CodeChar(src, t, i + k)
    ensures forall k :: 0 <= k < |text| ==> text[k] == TextChar(src, t, i + k)
  {
    match t
    case Comment(end) =>
      code := Blanked(src[i..end]);
      text := code;
    case Literal(bodyStart, bodyEnd, end) =>
      code := src[i..bodyStart] + Filler(src[bodyStart..bodyEnd]) + src[bodyEnd..end];
      text := src[i..end];
    case Plain =>
      code, text := [src[i]], [src[i]];
  }

  datatype Views = Views(code: string, text: string)

  /** One more token of the tokenization. */
  ghost function Extend(owner: seq<nat>, i: nat, e: nat): (r: seq<nat>)
    requires i == |owner| <= e
    ensures |r| == e && r[..i] == owner && forall k :: i <= k < e ==> r[k] == i
  {
    owner + seq(e - i, _ => i)
  }

  lemma ExtendTokenized(tok: Lexer, owner: seq<nat>, i: nat, e: nat)
    requires Tokenized(tok, owner) && i == |owner| < e
    requires !tok(i).Broken? && e == TokenEnd(tok(i), i)
    ensures Tokenized(tok, Extend(owner, i, e))
  {
    var r := Extend(owner, i, e);
    forall k | 0 <= k < e
      ensures Owns(tok, r[k], k) && TokenEnd(tok(r[k]), r[k]) <= e
      ensures r[k] == if k == 0 then 0 else if Owns(tok, r[k - 1], k) then r[k - 1] else k
    {
      if k < i {
        assert r[k] == owner[k] && (k > 0 ==> r[k - 1] == owner[k - 1]);
      } else if k == i && i > 0 {
        assert r[i - 1] == owner[i - 1];
      }
    }
  }

  lemma ExtendShows(src: string, tok: Lexer, owner: seq<nat>, code: string, text: string,
                    i: nat, e: nat, c: string, x: string)
    requires Shows(src, tok, owner, code, text) && i == |owner| <= e <= |src|
    requires |c| == |x| == e - i
    requires forall k :: 0 <= k < |c| ==> c[k] == CodeChar(src, tok(i), i + k)
    requires forall k :: 0 <= k < |x| ==> x[k] == TextChar(src, tok(i), i + k)
    ensures Shows(src, tok, Extend(owner, i, e), code + c, text + x)
  {
    var r := Extend(owner, i, e);
    forall k | 0 <= k < e
      ensures (code + c)[k] == CodeChar(src, tok(r[k]), k)
      ensures (text + x)[k] == TextChar(src, tok(r[k]), k)
    {
      if k < i {
        assert r[k] == owner[k];
      } else {
        assert (code + c)[k] == c[k - i] && (text + x)[k] == x[k - i];
      }
    }
  }

  /** The scanner, for every text: it ends, with the first unterminated literal or with both
      views of the whole text. */
  method ScanRust(src: string, alnum: char -> bool) returns (r: Result<Views, ScanError>)
    ensures exists owner :: ScansTo(src, RustLexer(src, alnum), owner, r)
  {
    r := ScanTokens(src, alnum, RustLexer(src, alnum));
  }

  /** Its loop. */
  method ScanTokens(src: string, alnum: char -> bool, ghost tok: Lexer)
    returns (r: Result<Views, ScanError>)
    requires IsRustLexer(src, alnum, tok)
    ensures exists owner :: ScansTo(src, tok, owner, r)
  {
    var code, text: string := [], [];
    var i: nat := 0;
    ghost var owner: seq<nat> := [];
    while i < |src|
      invariant i == |owner| <= |src|
      invariant Tokenized(tok, owner) && Shows(src, tok, owner, code, text)
      decreases |src| - i
    {
      var t := ReadToken(src, i, alnum, tok);
      if t.Broken? {
        assert ScansTo(src, tok, owner, Failure(t.error));
        return Failure(t.error);
      }
      var c, x := Emit(src, i, t);
      var j := TokenEnd(t, i);
      ExtendTokenized(tok, owner, i, j);
      ExtendShows(src, tok, owner, code, text, i, j, c, x);
      owner := Extend(owner, i, j);
      code, text := code + c, text + x;
      i := j;
    }
    r := Success(Views(code, text));
    assert ScansTo(src, tok, owner, r);
  }

  // ---------------------------------------------------------------------------
  // What the views are good for
  // ---------------------------------------------------------------------------

  /** A text has one tokenization: any two agree as far as both go. */
  lemma {:induction false} TokenizationUnique(tok: Lexer, a: seq<nat>, b: seq<nat>, k: nat)
    requires Tokenized(tok, a) && Tokenized(tok, b) && k < |a| && k < |b|
    ensures a[k] == b[k]
  {
    if k > 0 {
      TokenizationUnique(tok, a, b, k - 1);
    }
  }

  /** So a text scans to one outcome. */
  lemma ScanUnique(src: string, tok: Lexer, a: seq<nat>, b: seq<nat>,
                   r: Result<Views, ScanError>, q: Result<Views, ScanError>)
    requires ScansTo(src, tok, a, r) && ScansTo(src, tok, b, q)
    ensures r == q
  {
    forall k | 0 <= k < |a| && k < |b|
      ensures a[k] == b[k]
    {
      TokenizationUnique(tok, a, b, k);
    }
    if |a| < |b| {
      BoundaryIsToken(tok, b, |a|, a);
    } else if |b| < |a| {
      BoundaryIsToken(tok, a, |b|, b);
    } else if r.Success? && q.Success? {
      assert r.value.code == q.value.code && r.value.text == q.value.text;
    }
  }

  lemma BoundaryIsToken(tok: Lexer, long: seq<nat>, i: nat, short: seq<nat>)
    requires Tokenized(tok, long) && Tokenized(tok, short) && i == |short| < |long|
    requires forall k :: 0 <= k < i ==> short[k] == long[k]
    ensures long[i] == i && !tok(i).Broken?
  {
    if i > 0 {
      assert TokenEnd(tok(short[i - 1]), short[i - 1]) <= i;
    }
  }

  /** For every text that scans: both views have its length, keep every newline and add
      none; the code view shows the source outside comments and literal bodies, the text
      view outside comments. */
  lemma ViewsAligned(src: string, tok: Lexer, owner: seq<nat>, v: Views, k: nat)
    requires ScansTo(src, tok, owner, Success(v)) && k < |src|
    ensures |v.code| == |v.text| == |src|
    ensures v.code[k] == '\n' <==> src[k] == '\n'
    ensures v.text[k] == '\n' <==> src[k] == '\n'
    ensures var t := tok(owner[k]);
            && (t.Plain? ==> v.code[k] == v.text[k] == src[k])
            && (t.Comment? && src[k] != '\n' ==> v.code[k] == v.text[k] == ' ')
            && (t.Literal? ==> v.text[k] == src[k])
            && (t.Literal? && src[k] != '\n' ==>
                  v.code[k] == if t.bodyStart <= k < t.bodyEnd then '_' else src[k])
  {
    assert Owns(tok, owner[k], k);
  }

  /** Backslashes that stand directly before `k`, not counting past `start`. */
  ghost function BackslashesBefore(src: string, start: nat, k: nat): nat
    requires start <= k <= |src|
    decreases k
  {
    if k == start || src[k - 1] != '\\' then 0 else BackslashesBefore(src, start, k - 1) + 1
  }

  /** A string literal ends at its first unescaped quote: an even number of backslashes stands
      before the closing quote, an odd number before every quote in the body. */
  lemma {:induction false} QuoteEndUnescaped(src: string, start: nat, j: nat, q: nat)
    requires start <= j <= |src| && BackslashesBefore(src, start, j) % 2 == 0
    requires j <= q < |src| && q <= QuoteEnd(src, j) && src[q] == '"'
    ensures BackslashesBefore(src, start, q) % 2 == if q == QuoteEnd(src, j) then 0 else 1
    decreases |src| - j
  {
    if src[j] != '"' {
      var next := j + if src[j] == '\\' then 2 else 1;
      if q >= next {
        QuoteEndUnescaped(src, start, next, q);
      }
    }
  }

  predicate IsBracket(c: char) {
    c in "(){}[]"
  }

  lemma RawOpenerChars(src: string, i: nat, k: nat)
    requires i < |src| && RawStringAt(src, i).Some? && i <= k < RawStringAt(src, i).value.1
    ensures src[k] == 'b' || src[k] == 'r' || src[k] == '#' || src[k] == '"'
  {
  }

  /** The visible part of a raw string is its delimiters, which are no brackets. */
  lemma RawDelimiters(src: string, i: nat, k: nat)
    requires i < |src| && RawStringAt(src, i).Some? && RawLiteralAt(src, i).Literal?
    requires i <= k < RawLiteralAt(src, i).end
    requires !(RawLiteralAt(src, i).bodyStart <= k < RawLiteralAt(src, i).bodyEnd)
    ensures !IsBracket(src[k])
  {
    var t := RawLiteralAt(src, i);
    var (hashesAt, bodyStart) := RawStringAt(src, i).value;
    if k < bodyStart {
      RawOpenerChars(src, i, k);
    } else {
      var closer := "\"" + src[hashesAt..bodyStart - 1];
      assert src[t.bodyEnd..t.bodyEnd + |closer|] == closer;
      assert src[k] == closer[k - t.bodyEnd];
      if k > t.bodyEnd {
        RawOpenerChars(src, i, hashesAt + (k - t.bodyEnd - 1));
      }
    }
  }

  lemma Delimiters(src: string, i: nat, alnum: char -> bool, k: nat)
    requires i < |src| && TokenAt(src, i, alnum).Literal?
    requires i <= k < TokenAt(src, i, alnum).end
    requires !(TokenAt(src, i, alnum).bodyStart <= k < TokenAt(src, i, alnum).bodyEnd)
    ensures !IsBracket(src[k])
  {
    if !IdentBefore(src, i, alnum) && RawStringAt(src, i).Some? {
      RawDelimiters(src, i, k);
    }
  }

  /** A bracket in the code view is a bracket of the program: it stands at the same place in
      the source, outside every comment and every literal. */
  lemma BracketsAreCode(src: string, alnum: char -> bool, tok: Lexer, owner: seq<nat>, v: Views, k: nat)
    requires IsRustLexer(src, alnum, tok) && ScansTo(src, tok, owner, Success(v))
    requires k < |src| && IsBracket(v.code[k])
    ensures src[k] == v.code[k] && owner[k] == k && tok(k) == Plain
  {
    ViewsAligned(src, tok, owner, v, k);
    var start := owner[k];
    assert Owns(tok, start, k);
    var t := tok(start);
    assert t == TokenAt(src, start, alnum);
    if t.Literal? && !(t.bodyStart <= k < t.bodyEnd) {
      Delimiters(src, start, alnum, k);
    }
  }
}
