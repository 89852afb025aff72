/** What counts as a comment or a literal in Rust source, character by character, and the
    proof that the scanner reads exactly that token at every place.
 */
module RustGrammar {
  import opened RustScan
  import opened Wrappers

  // ---------------------------------------------------------------------------
  // Openers
  // ---------------------------------------------------------------------------

  /** At `i` stands `r` or `br`; from `h` to `q` stand hashes only; at `q` stands a quote. */
  ghost predicate OpensRaw(src: string, i: nat, h: nat, q: nat) {
    && i < h <= q < |src|
    && (src[i..h] == "r" || src[i..h] == "br")
    && (forall k :: h <= k < q ==> src[k] == '#')
    && src[q] == '"'
  }

  /** From `i` to before `e` stands a character literal: between quotes, either a backslash,
      any character but a newline and then no quotes, or one character that is neither a
      quote nor a backslash. */
  ghost predicate IsCharLiteral(src: string, i: nat, e: nat) {
    && i + 3 <= e <= |src| && src[i] == '\'' && src[e - 1] == '\''
    && ((src[i + 1] == '\\' && i + 4 <= e && src[i + 2] != '\n' && forall k :: i + 3 <= k < e - 1 ==> src[k] != '\'')
        || (e == i + 3 && src[i + 1] != '\'' && src[i + 1] != '\\'))
  }

  lemma OneOpener(src: string, i: nat, h: nat, q: nat)
    requires i < |src| && OpensRaw(src, i, h, q)
    ensures RawStringAt(src, i) == Some((h, q + 1))
  {
    assert src[i..h][0] == src[i];
    assert h == i + 2 ==> src[i..h][1] == src[i + 1];
    assert src[h - 1] == 'r' && h == (if src[i] == 'b' then i + 2 else i + 1);
    assert CountHashes(src, h) == q;
  }

  lemma OpenerFound(src: string, i: nat)
    requires i < |src| && RawStringAt(src, i).Some?
    ensures var (h, p) := RawStringAt(src, i).value; p > 0 && OpensRaw(src, i, h, p - 1)
  {
    var (h, p) := RawStringAt(src, i).value;
    if src[i] == 'b' {
      assert src[i..h] == "br";
    } else {
      assert src[i..h] == "r";
    }
  }

  /** A raw string opens exactly where the pattern `b?r#*"` matches, and with those hashes. */
  lemma RawStringExact(src: string, i: nat, h: nat, q: nat)
    requires i < |src|
    ensures RawStringAt(src, i) == Some((h, q + 1)) <==> OpensRaw(src, i, h, q)
    ensures RawStringAt(src, i) == None <==> forall a: nat, b: nat :: !OpensRaw(src, i, a, b)
  {
    if RawStringAt(src, i).Some? {
      OpenerFound(src, i);
    }
    forall a: nat, b: nat | OpensRaw(src, i, a, b)
      ensures RawStringAt(src, i) == Some((a, b + 1))
    {
      OneOpener(src, i, a, b);
    }
  }

  lemma QuoteAt(src: string, k: nat)
    requires k < |src|
    ensures StartsAt(src, k, "'") <==> src[k] == '\''
  {
    assert src[k..k + 1] == [src[k]];
  }

  lemma FirstQuote(src: string, i: nat, e: nat)
    requires i <= e <= |src|
    ensures Find(src, "'", i) == e
       <==> (forall k :: i <= k < e ==> src[k] != '\'') && (e < |src| ==> src[e] == '\'')
  {
    forall k: nat | k < |src|
      ensures StartsAt(src, k, "'") <==> src[k] == '\''
    {
      QuoteAt(src, k);
    }
  }

  lemma OneCharLiteral(src: string, i: nat, e: nat)
    requires i < |src| && IsCharLiteral(src, i, e)
    ensures CharLiteralAt(src, i) == Some(e)
  {
    if src[i + 1] == '\\' {
      FirstQuote(src, i + 3, e - 1);
    }
  }

  lemma CharLiteralFound(src: string, i: nat)
    requires i < |src| && CharLiteralAt(src, i).Some?
    ensures IsCharLiteral(src, i, CharLiteralAt(src, i).value)
  {
    if src[i + 1] == '\\' {
      FirstQuote(src, i + 3, CharLiteralAt(src, i).value - 1);
    }
  }

  /** A character literal stands exactly where its pattern matches; a lifetime's quote is none. */
  lemma CharLiteralExact(src: string, i: nat, e: nat)
    requires i < |src|
    ensures CharLiteralAt(src, i) == Some(e) <==> IsCharLiteral(src, i, e)
    ensures CharLiteralAt(src, i) == None <==> forall x: nat :: !IsCharLiteral(src, i, x)
  {
    if CharLiteralAt(src, i).Some? {
      CharLiteralFound(src, i);
    }
    forall x: nat | IsCharLiteral(src, i, x)
      ensures CharLiteralAt(src, i) == Some(x)
    {
      OneCharLiteral(src, i, x);
    }
  }

  // ---------------------------------------------------------------------------
  // Bodies
  // ---------------------------------------------------------------------------

  /** A line comment runs up to the next newline, or to the end of the text. */
  ghost predicate IsLine(src: string, i: nat, e: nat) {
    && i <= e <= |src|
    && (forall k :: i <= k < e ==> src[k] != '\n')
    && (e < |src| ==> src[e] == '\n')
  }

  /** A quote followed by `n` hashes. */
  ghost predicate ClosesRaw(src: string, k: nat, n: nat) {
    k + 1 + n <= |src| && src[k] == '"' && forall x :: k < x <= k + n ==> src[x] == '#'
  }

  /** A raw string's body ends at the first quote followed by as many hashes as opened it. */
  ghost predicate IsRawBody(src: string, h: nat, q: nat, t: Token)
    requires h <= q
  {
    var n := q - h;
    match t
    case Literal(start, e, end) =>
      start == q + 1 && end == e + 1 + n && ClosesRaw(src, e, n) && q < e && forall k :: q < k < e ==> !ClosesRaw(src, k, n)
    case Broken(error) => error == UnterminatedRawString && forall k: nat :: q < k ==> !ClosesRaw(src, k, n)
    case _ => false
  }

  /** The quote at `k` is escaped: an odd number of backslashes stands before it. */
  ghost predicate Escaped(src: string, start: nat, k: nat)
    requires start <= k <= |src|
  {
    BackslashesBefore(src, start, k) % 2 == 1
  }

  /** A string's body ends at its first unescaped quote. */
  ghost predicate IsStringBody(src: string, start: nat, t: Token) {
    match t
    case Literal(s, e, end) =>
      && s == start <= e < |src| && end == e + 1 && src[e] == '"' && !Escaped(src, start, e)
      && forall k :: start <= k < e && src[k] == '"' ==> Escaped(src, start, k)
    case Broken(error) =>
      error == UnterminatedString && forall k :: start <= k < |src| && src[k] == '"' ==> Escaped(src, start, k)
    case _ => false
  }

  lemma NewlineAt(src: string, k: nat)
    requires k < |src|
    ensures StartsAt(src, k, "\n") <==> src[k] == '\n'
  {
    assert src[k..k + 1] == [src[k]];
  }

  lemma LineExact(src: string, i: nat, e: nat)
    requires i <= |src|
    ensures Find(src, "\n", i) == e <==> IsLine(src, i, e)
  {
    forall k: nat | k < |src|
      ensures StartsAt(src, k, "\n") <==> src[k] == '\n'
    {
      NewlineAt(src, k);
    }
  }

  lemma CloserAt(src: string, h: nat, q: nat, k: nat)
    requires h <= q < |src| && forall x :: h <= x < q ==> src[x] == '#'
    ensures StartsAt(src, k, "\"" + src[h..q]) <==> ClosesRaw(src, k, q - h)
  {
    var what := "\"" + src[h..q];
    if k + |what| <= |src| {
      var s := src[k..k + |what|];
      assert forall x :: 0 <= x < |what| ==> s[x] == src[k + x];
      assert forall x :: 0 < x < |what| ==> what[x] == '#';
      if ClosesRaw(src, k, q - h) {
        assert s == what;
      } else if s == what {
        assert s[0] == '"';
        forall x | k < x <= k + (q - h)
          ensures src[x] == '#'
        {
          assert s[x - k] == what[x - k];
        }
      }
    }
  }

  lemma FirstCloser(src: string, h: nat, q: nat)
    requires h <= q < |src| && forall x :: h <= x < q ==> src[x] == '#'
    ensures var e := Find(src, "\"" + src[h..q], q + 1);
            var n := q - h;
            && (e < |src| ==> ClosesRaw(src, e, n))
            && forall k: nat :: q < k && (k < e || e == |src|) ==> !ClosesRaw(src, k, n)
  {
    var what := "\"" + src[h..q];
    var e := Find(src, what, q + 1);
    var n := q - h;
    CloserAt(src, h, q, e);
    forall k: nat | q < k && (k < e || e == |src|)
      ensures !ClosesRaw(src, k, n)
    {
      CloserAt(src, h, q, k);
      assert k < e ==> !StartsAt(src, k, what);
    }
  }

  lemma RawBodyFound(src: string, i: nat, h: nat, q: nat)
    requires i < |src| && OpensRaw(src, i, h, q) && RawStringAt(src, i) == Some((h, q + 1))
    ensures IsRawBody(src, h, q, RawLiteralAt(src, i))
  {
    FirstCloser(src, h, q);
  }

  lemma StringBodyFound(src: string, start: nat)
    requires start <= |src|
    ensures var e := QuoteEnd(src, start);
            IsStringBody(src, start, if e >= |src| then Broken(UnterminatedString) else Literal(start, e, e + 1))
  {
    var e := QuoteEnd(src, start);
    forall k: nat | start <= k < |src| && k <= e && src[k] == '"'
      ensures Escaped(src, start, k) <==> k != e
    {
      QuoteEndUnescaped(src, start, start, k);
    }
  }

  // ---------------------------------------------------------------------------
  // Tokens
  // ---------------------------------------------------------------------------

  predicate TwoAt(src: string, i: nat, a: char, b: char) {
    i + 1 < |src| && src[i] == a && src[i + 1] == b
  }

  /** The character before `i` belongs to a name, so that an `r` at `i` does too. */
  predicate InName(src: string, i: nat, alnum: char -> bool) {
    0 < i <= |src| && (alnum(src[i - 1]) || src[i - 1] == '_')
  }

  ghost predicate OpensRawHere(src: string, i: nat, alnum: char -> bool, h: nat, q: nat) {
    !InName(src, i, alnum) && OpensRaw(src, i, h, q)
  }

  /** `t` is the token at `i`. A comment comes before anything else, then a raw string that is
      not the tail of a name, a string, a character literal; all else is code. */
  ghost predicate Lexes(src: string, i: nat, alnum: char -> bool, t: Token)
    requires i < |src|
  {
    if TwoAt(src, i, '/', '/') then t.Comment? && IsLine(src, i, t.end)
    else if TwoAt(src, i, '/', '*') then t == Comment(BlockEnd(src, i + 2, 1))
    else if exists h: nat, q: nat :: OpensRawHere(src, i, alnum, h, q) then
      exists h: nat, q: nat :: OpensRawHere(src, i, alnum, h, q) && IsRawBody(src, h, q, t)
    else if src[i] == '"' then IsStringBody(src, i + 1, t)
    else if exists e: nat :: IsCharLiteral(src, i, e) then
      exists e: nat :: IsCharLiteral(src, i, e) && t == Literal(i + 1, e - 1, e)
    else t == Plain
  }

  lemma PairAt(src: string, i: nat, a: char, b: char)
    ensures StartsAt(src, i, [a, b]) <==> TwoAt(src, i, a, b)
  {
    if i + 1 < |src| {
      assert src[i..i + 2] == [src[i], src[i + 1]];
    }
  }

  lemma CommentFound(src: string, i: nat)
    requires i < |src| && (StartsAt(src, i, "//") || StartsAt(src, i, "/*"))
    ensures var t := CommentAt(src, i);
            if TwoAt(src, i, '/', '/') then IsLine(src, i, t.end) else t == Comment(BlockEnd(src, i + 2, 1))
  {
    PairAt(src, i, '/', '/');
    LineExact(src, i, CommentAt(src, i).end);
  }

  lemma TokenFound(src: string, i: nat, alnum: char -> bool)
    requires i < |src|
    ensures Lexes(src, i, alnum, TokenAt(src, i, alnum))
  {
    PairAt(src, i, '/', '/');
    PairAt(src, i, '/', '*');
    if StartsAt(src, i, "//") || StartsAt(src, i, "/*") {
      CommentFound(src, i);
    } else {
      RawStringExact(src, i, 0, 0);
      CharLiteralExact(src, i, 0);
      if !IdentBefore(src, i, alnum) && RawStringAt(src, i).Some? {
        OpenerFound(src, i);
        var (h, p) := RawStringAt(src, i).value;
        RawBodyFound(src, i, h, p - 1);
        assert OpensRawHere(src, i, alnum, h, p - 1);
      } else if src[i] == '"' {
        StringBodyFound(src, i + 1);
      } else if CharLiteralAt(src, i).Some? {
        CharLiteralFound(src, i);
      }
    }
  }

  lemma OneRawBody(src: string, h: nat, q: nat, a: Token, b: Token)
    requires h <= q && IsRawBody(src, h, q, a) && IsRawBody(src, h, q, b)
    ensures a == b
  {
  }

  lemma OneStringBody(src: string, start: nat, a: Token, b: Token)
    requires IsStringBody(src, start, a) && IsStringBody(src, start, b)
    ensures a == b
  {
  }

  lemma OneLine(src: string, i: nat, a: nat, b: nat)
    requires IsLine(src, i, a) && IsLine(src, i, b)
    ensures a == b
  {
  }

  lemma OneToken(src: string, i: nat, alnum: char -> bool, a: Token, b: Token)
    requires i < |src| && Lexes(src, i, alnum, a) && Lexes(src, i, alnum, b)
    ensures a == b
  {
    if TwoAt(src, i, '/', '/') {
      OneLine(src, i, a.end, b.end);
    } else if TwoAt(src, i, '/', '*') {
    } else if exists h: nat, q: nat :: OpensRawHere(src, i, alnum, h, q) {
      var h: nat, q: nat :| OpensRawHere(src, i, alnum, h, q) && IsRawBody(src, h, q, a);
      var m: nat, p: nat :| OpensRawHere(src, i, alnum, m, p) && IsRawBody(src, m, p, b);
      OneOpener(src, i, h, q);
      OneOpener(src, i, m, p);
      OneRawBody(src, h, q, a, b);
    } else if src[i] == '"' {
      OneStringBody(src, i + 1, a, b);
    } else if exists e: nat :: IsCharLiteral(src, i, e) {
      var d: nat :| IsCharLiteral(src, i, d) && a == Literal(i + 1, d - 1, d);
      var e: nat :| IsCharLiteral(src, i, e) && b == Literal(i + 1, e - 1, e);
      OneCharLiteral(src, i, d);
      OneCharLiteral(src, i, e);
    }
  }

  /** The scanner reads a token at a place exactly when the grammar has it there. */
  lemma TokenExact(src: string, i: nat, alnum: char -> bool, t: Token)
    requires i < |src|
    ensures TokenAt(src, i, alnum) == t <==> Lexes(src, i, alnum, t)
  {
    TokenFound(src, i, alnum);
    if Lexes(src, i, alnum, t) {
      OneToken(src, i, alnum, TokenAt(src, i, alnum), t);
    }
  }
}
