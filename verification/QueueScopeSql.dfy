/** The SQL twin of the queue-scope rule, as the database computes it: the list is joined into
    one text, escaped, rewritten by a regular expression, split again and matched with LIKE.
    When it gives the same answers as the Rust rule is not obvious, and proved here.
 */
module QueueScopeSql {
  import opened QueueScope
  import opened Texts
  import opened Wrappers

  /** `chr(31)`, the unit separator. */
  const SEP: char := '\U{1F}'

  // ---------------------------------------------------------------------------
  // The function
  // ---------------------------------------------------------------------------

  /** `replace(s, c, '\' || c)` */
  function Backslashed(s: string, c: char): string {
    if s == [] then [] else (if s[0] == c then ['\\', c] else [s[0]]) + Backslashed(s[1..], c)
  }

  function Escaped(s: string): string {
    Backslashed(Backslashed(Backslashed(s, '\\'), '%'), '_')
  }

  // The expression `([^SEP])\.\*(SEP|$)` matches at the start of the text.
  predicate Matches(t: string) {
    |t| >= 3 && t[0] != SEP && t[1] == '.' && t[2] == '*' && (|t| == 3 || t[3] == SEP)
  }

  // `regexp_replace(t, ..., '\1.%\2', 'g')`: every match is replaced, from left to right, each
  // search starting after the previous match.
  function Rewritten(t: string): string {
    if t == [] then []
    else if Matches(t) then [t[0]] + ".%" + if |t| == 3 then [] else [SEP] + Rewritten(t[4..])
    else [t[0]] + Rewritten(t[1..])
  }

  /** `strpos(t, '.*') > 0` */
  predicate HasDotStar(t: string) {
    exists i :: 0 <= i < |t| - 1 && t[i] == '.' && t[i + 1] == '*'
  }

  /** `queue_scope_like_patterns` */
  function LikePatterns(scope: Scope): Option<seq<string>> {
    var joined := Join(scope, SEP);
    if HasDotStar(joined) then Some(Split(Rewritten(Escaped(joined)), SEP)) else None
  }

  /** `s LIKE p`: `%` stands for any text, `_` for any character, a backslash makes the next
      character stand for itself. */
  predicate Like(s: string, p: string)
    decreases |p|
  {
    if p == [] then s == []
    else if p[0] == '%' then exists k :: 0 <= k <= |s| && Like(s[k..], p[1..])
    else if s == [] then false
    else if p[0] == '\\' then |p| > 1 && s[0] == p[1] && Like(s[1..], p[2..])
    else (p[0] == '_' || s[0] == p[0]) && Like(s[1..], p[1..])
  }

  /** `queue_in_key_scope` */
  predicate InKeyScope(name: string, filter: Option<Scope>) {
    || filter.None?
    || filter.value == []
    || "*" in filter.value
    || name in filter.value
    || (var patterns := LikePatterns(filter.value);
        patterns.Some? && exists i :: 0 <= i < |patterns.value| && Like(name, patterns.value[i]))
  }

  // ---------------------------------------------------------------------------
  // Escaping
  // ---------------------------------------------------------------------------

  function Guarded(c: char): string {
    if c == '\\' || c == '%' || c == '_' then ['\\', c] else [c]
  }

  /** Each character on its own. */
  function Literal(s: string): (r: string)
    ensures |r| >= |s|
  {
    if s == [] then [] else Guarded(s[0]) + Literal(s[1..])
  }

  lemma {:induction false} BackslashedConcat(a: string, b: string, c: char)
    ensures Backslashed(a + b, c) == Backslashed(a, c) + Backslashed(b, c)
  {
    if a == [] {
      assert a + b == b;
    } else {
      assert (a + b)[1..] == a[1..] + b;
      BackslashedConcat(a[1..], b, c);
    }
  }

  lemma EscapedConcat(a: string, b: string)
    ensures Escaped(a + b) == Escaped(a) + Escaped(b)
  {
    BackslashedConcat(a, b, '\\');
    var a1, b1 := Backslashed(a, '\\'), Backslashed(b, '\\');
    BackslashedConcat(a1, b1, '%');
    BackslashedConcat(Backslashed(a1, '%'), Backslashed(b1, '%'), '_');
  }

  lemma BackslashedOne(x: char, c: char)
    ensures Backslashed([x], c) == if x == c then ['\\', c] else [x]
  {
    assert [x][1..] == [];
  }

  lemma BackslashedTwo(x: char, c: char)
    requires c != '\\'
    ensures Backslashed(['\\', x], c) == ['\\'] + Backslashed([x], c)
  {
    assert ['\\', x][1..] == [x];
  }

  lemma EscapedOne(c: char)
    ensures Escaped([c]) == Guarded(c)
  {
    BackslashedOne(c, '\\');
    BackslashedOne(c, '%');
    BackslashedOne(c, '_');
    BackslashedTwo(c, '%');
    BackslashedTwo(c, '_');
  }

  /** The three replacements in a row escape each character on its own. */
  lemma {:induction false} EscapedIsLiteral(s: string)
    ensures Escaped(s) == Literal(s)
  {
    if s != [] {
      assert s == [s[0]] + s[1..];
      EscapedConcat([s[0]], s[1..]);
      EscapedOne(s[0]);
      EscapedIsLiteral(s[1..]);
    }
  }

  lemma {:induction false} LiteralConcat(a: string, b: string)
    ensures Literal(a + b) == Literal(a) + Literal(b)
  {
    if a == [] {
      assert a + b == b;
    } else {
      assert (a + b)[1..] == a[1..] + b;
      LiteralConcat(a[1..], b);
    }
  }

  lemma {:induction false} NoSeparatorInLiteral(s: string)
    requires SEP !in s
    ensures SEP !in Literal(s)
  {
    if s != [] {
      NoSeparatorInLiteral(s[1..]);
    }
  }

  // ---------------------------------------------------------------------------
  // LIKE on escaped text
  // ---------------------------------------------------------------------------

  lemma LikeOne(s: string, c: char, p: string)
    ensures Like(s, Guarded(c) + p) <==> s != [] && s[0] == c && Like(s[1..], p)
  {
    var all := Guarded(c) + p;
    if |Guarded(c)| == 2 {
      assert all[2..] == p;
    } else {
      assert all[1..] == p;
    }
  }

  /** An escaped text and what follows it match a name that starts with the text. */
  lemma {:induction false} LikeLiteral(s: string, q: string, rest: string)
    ensures Like(s, Literal(q) + rest) <==> StartsWith(s, q) && Like(s[|q|..], rest)
    decreases |q|
  {
    if q == [] {
      assert Literal(q) + rest == rest && s[0..] == s && s[..0] == [];
    } else {
      var p := Literal(q[1..]) + rest;
      assert Literal(q) + rest == Guarded(q[0]) + p;
      LikeOne(s, q[0], p);
      if s != [] {
        LikeLiteral(s[1..], q[1..], rest);
        StartsWithStep(s, q);
        assert |q| <= |s| ==> s[1..][|q| - 1..] == s[|q|..];
      }
    }
  }

  lemma StartsWithStep(s: string, q: string)
    requires s != [] && q != []
    ensures StartsWith(s, q) <==> s[0] == q[0] && StartsWith(s[1..], q[1..])
  {
    if |q| <= |s| {
      assert s[..|q|] == [s[0]] + s[1..][..|q| - 1] && q == [q[0]] + q[1..];
    }
  }

  lemma LikeExact(s: string, q: string)
    ensures Like(s, Literal(q)) <==> s == q
  {
    LikeLiteral(s, q, []);
    assert Literal(q) + [] == Literal(q);
    if StartsWith(s, q) {
      assert s == s[..|q|] + s[|q|..];
    }
  }

  lemma LikePrefix(s: string, q: string)
    ensures Like(s, Literal(q) + "%") <==> StartsWith(s, q)
  {
    LikeLiteral(s, q, "%");
    if StartsWith(s, q) {
      var t := s[|q|..];
      assert "%"[1..] == [] && t[|t|..] == [];
      assert Like(t[|t|..], "%"[1..]);
    }
  }

  // ---------------------------------------------------------------------------
  // The rewrite, entry by entry
  // ---------------------------------------------------------------------------

  /** At least one character, then `.*` at the end. */
  predicate Tailed(e: string) {
    |e| >= 3 && e[|e| - 2] == '.' && e[|e| - 1] == '*'
  }

  function Stem(e: string): string
    requires Tailed(e)
  {
    e[..|e| - 1]
  }

  /** What follows the separator does not help an entry to match. */
  lemma NoMatchSooner(e: string, rest: string)
    requires SEP !in e && e != [] && !Matches(e)
    ensures !Matches(e + [SEP] + rest)
  {
    var t := e + [SEP] + rest;
    assert t[..|e|] == e && t[|e|] == SEP;
    assert forall i :: 0 <= i < |e| ==> t[i] == e[i];
  }

  /** An entry that matches is three characters long, and what follows it is rewritten apart. */
  lemma MatchHead(e: string, rest: string)
    requires SEP !in e && Matches(e)
    ensures Rewritten(e) == [e[0]] + ".%"
    ensures Rewritten(e + [SEP] + rest) == Rewritten(e) + [SEP] + Rewritten(rest)
  {
    var t := e + [SEP] + rest;
    assert |e| == 3 && t[3] == SEP && t[4..] == rest;
    assert t[0] == e[0] && t[1] == e[1] && t[2] == e[2];
  }

  lemma {:induction false} RewrittenHead(e: string, rest: string)
    requires SEP !in e
    ensures Rewritten(e + [SEP] + rest) == Rewritten(e) + [SEP] + Rewritten(rest)
  {
    var t := e + [SEP] + rest;
    if e == [] {
      assert t == [SEP] + rest && t[1..] == rest;
    } else if Matches(e) {
      MatchHead(e, rest);
    } else {
      NoMatchSooner(e, rest);
      RewrittenHead(e[1..], rest);
      var x := Rewritten(e[1..]);
      assert t[0] == e[0] && t[1..] == e[1..] + [SEP] + rest;
      assert Rewritten(e) == [e[0]] + x && Rewritten(t) == [e[0]] + (x + [SEP] + Rewritten(rest));
    }
  }

  lemma TailedStep(e: string)
    requires e != [] && SEP !in e && !Matches(e)
    ensures Tailed(e) <==> Tailed(e[1..])
    ensures Tailed(e) ==> Stem(e) == [e[0]] + Stem(e[1..])
  {
    if |e| == 3 {
      assert e[1..][0] == e[1] && e[1..][1] == e[2];
    }
  }

  lemma {:induction false} RewrittenAlone(e: string)
    requires SEP !in e
    ensures Rewritten(e) == if Tailed(e) then Stem(e) + "%" else e
  {
    if Matches(e) {
      MatchHead(e, []);
      assert Stem(e) == [e[0], '.'];
    } else if e != [] {
      RewrittenAlone(e[1..]);
      TailedStep(e);
      if Tailed(e) {
        assert [e[0]] + (Stem(e[1..]) + "%") == Stem(e) + "%";
      } else {
        assert e == [e[0]] + e[1..];
      }
    }
  }

  /** Escaping does not touch a `.*` at the end, nor make one. */
  lemma TailedLiteral(e: string)
    ensures Tailed(Literal(e)) <==> Tailed(e)
    ensures Tailed(e) ==> Stem(Literal(e)) == Literal(Stem(e))
  {
    if |e| >= 2 {
      var x, a, b := e[..|e| - 2], e[|e| - 2], e[|e| - 1];
      assert e == x + [a] + [b];
      LiteralConcat(x + [a], [b]);
      LiteralConcat(x, [a]);
      LiteralOne(a);
      LiteralOne(b);
      var r := Literal(x) + Guarded(a) + Guarded(b);
      assert Literal(e) == r;
      assert r[|r| - 1] == b;
      if b == '*' {
        assert r[|r| - 2] == a && r[..|r| - 1] == Literal(x) + Guarded(a);
        assert e[..|e| - 1] == x + [a];
      }
    } else if |e| == 1 {
      assert e == [e[0]];
      LiteralOne(e[0]);
    }
  }

  lemma LiteralOne(c: char)
    ensures Literal([c]) == Guarded(c)
  {
    assert [c][1..] == [];
  }

  /** The LIKE pattern an entry becomes. */
  function Pattern(e: string): string {
    if Tailed(e) then Literal(Stem(e)) + "%" else Literal(e)
  }

  lemma RewrittenLiteral(e: string)
    requires SEP !in e
    ensures Rewritten(Literal(e)) == Pattern(e) && SEP !in Pattern(e)
  {
    NoSeparatorInLiteral(e);
    RewrittenAlone(Literal(e));
    TailedLiteral(e);
    if Tailed(e) {
      NoSeparatorInLiteral(Stem(e));
    }
  }

  function Patterns(pieces: seq<string>): (r: seq<string>)
    ensures |r| == |pieces| && forall i :: 0 <= i < |r| ==> r[i] == Pattern(pieces[i])
  {
    seq(|pieces|, i requires 0 <= i < |pieces| => Pattern(pieces[i]))
  }

  /** The joined text becomes the joined patterns. */
  lemma {:induction false} RewrittenJoin(pieces: seq<string>)
    requires pieces != [] && forall i :: 0 <= i < |pieces| ==> SEP !in pieces[i]
    ensures Rewritten(Literal(Join(pieces, SEP))) == Join(Patterns(pieces), SEP)
  {
    RewrittenLiteral(pieces[0]);
    if |pieces| > 1 {
      var tail := Join(pieces[1..], SEP);
      RewrittenJoin(pieces[1..]);
      LiteralConcat(pieces[0] + [SEP], tail);
      LiteralConcat(pieces[0], [SEP]);
      LiteralOne(SEP);
      NoSeparatorInLiteral(pieces[0]);
      RewrittenHead(Literal(pieces[0]), Literal(tail));
      assert Patterns(pieces)[1..] == Patterns(pieces[1..]);
    }
  }

  /** What one piece of the joined list admits. */
  predicate PieceAdmits(piece: string, name: string) {
    if Tailed(piece) then StartsWith(name, Stem(piece)) else name == piece
  }

  lemma PatternAdmits(piece: string, name: string)
    ensures Like(name, Pattern(piece)) <==> PieceAdmits(piece, name)
  {
    if Tailed(piece) {
      LikePrefix(name, Stem(piece));
    } else {
      LikeExact(name, piece);
    }
  }

  /** The list as the database reads it back: an entry that holds the separator falls apart. */
  function Pieces(scope: Scope): (r: seq<string>)
    ensures r != []
  {
    Split(Join(scope, SEP), SEP)
  }

  lemma LikePatternsOf(scope: Scope)
    ensures LikePatterns(scope) == if HasDotStar(Join(scope, SEP)) then Some(Patterns(Pieces(scope))) else None
  {
    var joined, pieces := Join(scope, SEP), Pieces(scope);
    JoinSplit(joined, SEP);
    SplitPieces(joined, SEP);
    EscapedIsLiteral(joined);
    RewrittenJoin(pieces);
    forall i | 0 <= i < |pieces|
      ensures SEP !in Patterns(pieces)[i]
    {
      RewrittenLiteral(pieces[i]);
    }
    SplitJoin(Patterns(pieces), SEP);
  }

  /** The SQL function in plain terms. */
  predicate Admits(scope: Scope, name: string) {
    || scope == [] || "*" in scope || name in scope
    || (HasDotStar(Join(scope, SEP))
        && exists i :: 0 <= i < |Pieces(scope)| && PieceAdmits(Pieces(scope)[i], name))
  }

  /** For every list and every name, joining, escaping, rewriting, splitting and matching come
      to this. */
  lemma SqlMeaning(scope: Scope, name: string)
    ensures InKeyScope(name, Some(scope)) <==> Admits(scope, name)
  {
    LikePatternsOf(scope);
    var pieces := Pieces(scope);
    forall i | 0 <= i < |pieces|
      ensures Like(name, Patterns(pieces)[i]) <==> PieceAdmits(pieces[i], name)
    {
      PatternAdmits(pieces[i], name);
    }
  }

  // ---------------------------------------------------------------------------
  // When the two rules agree
  // ---------------------------------------------------------------------------

  /** Some `prefix.*` entry covers every name that starts with `q`. */
  predicate PrefixListed(scope: Scope, q: string) {
    exists k :: 0 <= k < |scope| && PatternPrefix(scope[k]).Some? && StartsWith(q, PatternPrefix(scope[k]).value)
  }

  /** What the database reads as a piece, the list means anyway. */
  predicate PieceListed(scope: Scope, piece: string) {
    if Tailed(piece) then PrefixListed(scope, Stem(piece)) else Allows(scope, piece)
  }

  /** What the list means by a `prefix.*` entry, the database reads in some piece. */
  predicate EntryKept(pieces: seq<string>, e: string) {
    PatternPrefix(e).Some? ==>
      exists k :: 0 <= k < |pieces| && Tailed(pieces[k]) && StartsWith(PatternPrefix(e).value, Stem(pieces[k]))
  }

  /** A check on the list alone. */
  predicate Agreeable(scope: Scope) {
    || IsUnrestricted(scope)
    || ((HasDotStar(Join(scope, SEP)) ==>
           forall i :: 0 <= i < |Pieces(scope)| ==> PieceListed(scope, Pieces(scope)[i]))
        && forall i :: 0 <= i < |scope| ==> EntryKept(Pieces(scope), scope[i]))
  }

  lemma ListedIsAllowed(scope: Scope, i: nat)
    requires i < |scope|
    ensures Allows(scope, scope[i])
  {
    assert PatternMatches(scope[i], scope[i]);
  }

  lemma PieceIsAllowed(scope: Scope, piece: string, name: string)
    requires PieceListed(scope, piece) && PieceAdmits(piece, name)
    ensures Allows(scope, name)
  {
    if Tailed(piece) {
      var k :| 0 <= k < |scope| && PatternPrefix(scope[k]).Some? && StartsWith(Stem(piece), PatternPrefix(scope[k]).value);
      PrefixTransitive(name, Stem(piece), PatternPrefix(scope[k]).value);
      assert PatternMatches(scope[k], name);
    }
  }

  lemma {:induction false} DotStarInJoin(pieces: seq<string>, k: nat)
    requires k < |pieces| && Tailed(pieces[k])
    ensures HasDotStar(Join(pieces, SEP))
  {
    var all := Join(pieces, SEP);
    if k == 0 {
      var i := |pieces[0]| - 2;
      assert all[..|pieces[0]|] == pieces[0];
      assert all[i] == '.' && all[i + 1] == '*';
    } else {
      DotStarInJoin(pieces[1..], k - 1);
      var tail := Join(pieces[1..], SEP);
      var i :| 0 <= i < |tail| - 1 && tail[i] == '.' && tail[i + 1] == '*';
      var at := |pieces[0]| + 1 + i;
      assert all == pieces[0] + [SEP] + tail;
      assert all[at] == '.' && all[at + 1] == '*';
    }
  }

  lemma EntryIsAdmitted(scope: Scope, i: nat, name: string)
    requires i < |scope| && scope[i] != "*" && EntryKept(Pieces(scope), scope[i]) && PatternMatches(scope[i], name)
    ensures Admits(scope, name)
  {
    if PatternPrefix(scope[i]).Some? {
      var q, pieces := PatternPrefix(scope[i]).value, Pieces(scope);
      var k :| 0 <= k < |pieces| && Tailed(pieces[k]) && StartsWith(q, Stem(pieces[k]));
      PrefixTransitive(name, q, Stem(pieces[k]));
      DotStarInJoin(pieces, k);
      JoinSplit(Join(scope, SEP), SEP);
      assert PieceAdmits(pieces[k], name);
    }
  }

  /** The lists on which both rules admit the same names. */
  ghost predicate Agree(scope: Scope) {
    forall name :: Admits(scope, name) <==> Allows(scope, name)
  }

  lemma AgreeIfAgreeable(scope: Scope)
    requires IsRestricted(scope) && Agreeable(scope)
    ensures Agree(scope)
  {
    forall name
      ensures Admits(scope, name) <==> Allows(scope, name)
    {
      if Allows(scope, name) {
        var i :| 0 <= i < |scope| && PatternMatches(scope[i], name);
        EntryIsAdmitted(scope, i, name);
      } else if name in scope {
        var i :| 0 <= i < |scope| && scope[i] == name;
        ListedIsAllowed(scope, i);
      } else if Admits(scope, name) {
        var i :| 0 <= i < |Pieces(scope)| && PieceAdmits(Pieces(scope)[i], name);
        PieceIsAllowed(scope, Pieces(scope)[i], name);
      }
    }
  }

  lemma PieceMustBeListed(scope: Scope, i: nat)
    requires IsRestricted(scope) && Agree(scope) && HasDotStar(Join(scope, SEP)) && i < |Pieces(scope)|
    ensures PieceListed(scope, Pieces(scope)[i])
  {
    var piece := Pieces(scope)[i];
    var name := if Tailed(piece) then Probe(scope, Stem(piece)) else piece;
    assert PieceAdmits(Pieces(scope)[i], name);
    assert Admits(scope, name);
    if Tailed(piece) {
      assert Allows(scope, name);
      var k :| 0 <= k < |scope| && PatternMatches(scope[k], name);
      ProbeMatch(scope, Stem(piece), k);
    }
  }

  /** A name under `q` longer than every entry and piece. */
  ghost function LongName(scope: Scope, q: string): (name: string)
    ensures StartsWith(name, q) && forall i :: |q| <= i < |name| ==> name[i] == 'a'
    ensures forall i :: 0 <= i < |scope| ==> name != scope[i]
    ensures forall i :: 0 <= i < |Pieces(scope)| ==> name != Pieces(scope)[i]
  {
    var all := scope + Pieces(scope);
    assert forall k :: 0 <= k < |scope| ==> all[k] == scope[k];
    assert forall k :: 0 <= k < |Pieces(scope)| ==> all[|scope| + k] == Pieces(scope)[k];
    Probe(all, q)
  }

  lemma EntryMustBeKept(scope: Scope, i: nat)
    requires IsRestricted(scope) && Agree(scope) && i < |scope|
    ensures EntryKept(Pieces(scope), scope[i])
  {
    if PatternPrefix(scope[i]).Some? {
      var q, pieces := PatternPrefix(scope[i]).value, Pieces(scope);
      var name := LongName(scope, q);
      assert Allows(scope, name) by {
        assert PatternMatches(scope[i], name);
      }
      assert Admits(scope, name);
      var k :| 0 <= k < |pieces| && PieceAdmits(pieces[k], name);
      StemWithin(name, q, Stem(pieces[k]));
    }
  }

  lemma StemWithin(name: string, q: string, stem: string)
    requires StartsWith(name, q) && StartsWith(name, stem) && stem != [] && stem[|stem| - 1] == '.'
    requires forall i :: |q| <= i < |name| ==> name[i] == 'a'
    ensures StartsWith(q, stem)
  {
    assert name[..|stem|][|stem| - 1] == name[|stem| - 1];
    assert |stem| <= |q|;
    assert q[..|stem|] == name[..|q|][..|stem|] == name[..|stem|];
  }

  /** For every list: the SQL function and the Rust rule admit the same names if and only if
      the check on the list holds. */
  lemma SqlAgreesExactly(scope: Scope)
    ensures Agreeable(scope) <==> forall name :: InKeyScope(name, Some(scope)) <==> Allows(scope, name)
  {
    AgreesExactly(scope);
    forall name
      ensures InKeyScope(name, Some(scope)) <==> Admits(scope, name)
    {
      SqlMeaning(scope, name);
    }
  }

  lemma AgreesExactly(scope: Scope)
    ensures Agree(scope) <==> Agreeable(scope)
  {
    UnrestrictedMeansEverything(scope);
    if IsRestricted(scope) {
      if Agreeable(scope) {
        AgreeIfAgreeable(scope);
      }
      if Agree(scope) {
        forall i | 0 <= i < |Pieces(scope)| && HasDotStar(Join(scope, SEP))
          ensures PieceListed(scope, Pieces(scope)[i])
        {
          PieceMustBeListed(scope, i);
        }
        forall i | 0 <= i < |scope|
          ensures EntryKept(Pieces(scope), scope[i])
        {
          EntryMustBeKept(scope, i);
        }
      }
    }
  }

  // ---------------------------------------------------------------------------
  // Lists without the separator
  // ---------------------------------------------------------------------------

  predicate NoSeparator(scope: Scope) {
    forall i :: 0 <= i < |scope| ==> SEP !in scope[i]
  }

  /** Ends like a pattern, but has a `*` before the end too: a literal to Rust, a pattern to SQL. */
  predicate Misplaced(e: string) {
    Tailed(e) && '*' in Stem(e)
  }

  lemma PatternIsTailed(e: string)
    ensures PatternPrefix(e).Some? <==> Tailed(e) && !Misplaced(e)
    ensures PatternPrefix(e).Some? ==> PatternPrefix(e).value == Stem(e)
  {
  }

  lemma EntryAgrees(e: string, name: string)
    requires e != "*"
    ensures PieceAdmits(e, name) || name == e <==> PatternMatches(e, name) || (Misplaced(e) && StartsWith(name, Stem(e)))
  {
    PatternIsTailed(e);
  }

  lemma AdmittedByEntry(scope: Scope, name: string)
    requires NoSeparator(scope) && IsRestricted(scope)
    ensures Admits(scope, name)
            <==> exists i :: 0 <= i < |scope| && (PieceAdmits(scope[i], name) || name == scope[i])
  {
    SplitJoin(scope, SEP);
    if i :| 0 <= i < |scope| && (PieceAdmits(scope[i], name) || name == scope[i]) {
      if Tailed(scope[i]) && PieceAdmits(scope[i], name) {
        DotStarInJoin(scope, i);
        assert PieceAdmits(Pieces(scope)[i], name);
      } else {
        assert name in scope;
      }
    }
  }

  /** The whole difference, name by name: SQL admits more, and what it adds are the names under
      a misplaced `*`. */
  lemma SqlDifference(scope: Scope, name: string)
    requires NoSeparator(scope) && IsRestricted(scope)
    ensures InKeyScope(name, Some(scope)) <==>
            Allows(scope, name) || exists i :: 0 <= i < |scope| && Misplaced(scope[i]) && StartsWith(name, Stem(scope[i]))
  {
    SqlMeaning(scope, name);
    Difference(scope, name);
  }

  lemma Difference(scope: Scope, name: string)
    requires NoSeparator(scope) && IsRestricted(scope)
    ensures Admits(scope, name) <==>
            Allows(scope, name) || exists i :: 0 <= i < |scope| && Misplaced(scope[i]) && StartsWith(name, Stem(scope[i]))
  {
    AdmittedByEntry(scope, name);
    forall i | 0 <= i < |scope|
      ensures PieceAdmits(scope[i], name) || name == scope[i]
              <==> PatternMatches(scope[i], name) || (Misplaced(scope[i]) && StartsWith(name, Stem(scope[i])))
    {
      EntryAgrees(scope[i], name);
    }
  }

  /** It does happen: a literal entry to Rust, a pattern to SQL. */
  lemma MisplacedStarDiffers()
    ensures InKeyScope("a.*.b.c", Some(["a.*.b.*"])) && !Allows(["a.*.b.*"], "a.*.b.c")
  {
    var e, name := "a.*.b.*", "a.*.b.c";
    assert Stem(e) == "a.*.b." && "a.*.b."[1..] == ".*.b." && Stem(e)[2] == '*';
    assert name[..6] == "a.*.b.";
    SqlDifference([e], name);
    assert Misplaced([e][0]) && StartsWith(name, Stem([e][0]));
  }

  /** So for names without a `*`, and every queue name is one, the answers are the same. */
  lemma SameForQueueNames(scope: Scope, name: string)
    requires NoSeparator(scope) && '*' !in name
    ensures InKeyScope(name, ScopeFilter(scope)) <==> Allows(scope, name)
  {
    UnrestrictedMeansEverything(scope);
    if IsRestricted(scope) {
      SqlDifference(scope, name);
      forall i | 0 <= i < |scope| && Misplaced(scope[i])
        ensures !StartsWith(name, Stem(scope[i]))
      {
        StarStays(name, Stem(scope[i]));
      }
    }
  }

  lemma StarStays(name: string, stem: string)
    requires '*' in stem && '*' !in name
    ensures !StartsWith(name, stem)
  {
    var k :| 0 <= k < |stem| && stem[k] == '*';
    assert |stem| <= |name| ==> name[..|stem|][k] == name[k];
  }

  /** What key creation lets through: a `*` stands alone or ends a `prefix.*`. */
  predicate Accepted(e: string) {
    SEP !in e && ('*' in e && e != "*" ==> PatternPrefix(e).Some?)
  }

  /** On the lists that keys can be created with, the filter bound for a key admits exactly the
      names its scope allows. */
  lemma FilterExact(scope: Scope, name: string)
    requires forall i :: 0 <= i < |scope| ==> Accepted(scope[i])
    ensures InKeyScope(name, ScopeFilter(scope)) <==> Allows(scope, name)
  {
    UnrestrictedMeansEverything(scope);
    if IsRestricted(scope) {
      SqlDifference(scope, name);
    }
  }
}
