/** Finding the bracket that closes another one, with a stack of expected closers. */
module BracketMatch {
  import opened Wrappers

  datatype MatchError = Unbalanced(at: nat) | Unclosed

  predicate IsOpen(c: char) {
    c == '(' || c == '{' || c == '['
  }

  predicate IsClose(c: char) {
    c == ')' || c == '}' || c == ']'
  }

  function Closer(c: char): (d: char)
    requires IsOpen(c)
    ensures IsClose(d)
  {
    if c == '(' then ')' else if c == '{' then '}' else ']'
  }

  /** Properly nested text: every bracket is closed, by its own kind, inside the text. */
  ghost predicate Nested(s: string)
    decreases |s|
  {
    || s == []
    || (!IsOpen(s[0]) && !IsClose(s[0]) && Nested(s[1..]))
    || (IsOpen(s[0]) && exists m :: Pairs(s, m) && Nested(s[1..m]) && Nested(s[m + 1..]))
  }

  /** The opener at 0 and a closer of its kind at `m`. */
  ghost predicate Pairs(s: string, m: int) {
    1 <= m < |s| && IsOpen(s[0]) && s[m] == Closer(s[0])
  }

  /** The closers expected after reading `s`, when `expected` were expected before it; none
      if a closer does not fit. */
  ghost function Expect(s: string, expected: seq<char>): Option<seq<char>>
    decreases |s|
  {
    if s == [] then Some(expected)
    else if IsOpen(s[0]) then Expect(s[1..], expected + [Closer(s[0])])
    else if IsClose(s[0]) then
      if expected == [] || expected[|expected| - 1] != s[0] then None
      else Expect(s[1..], expected[..|expected| - 1])
    else Expect(s[1..], expected)
  }

  lemma {:induction false} ExpectConcat(a: string, b: string, expected: seq<char>)
    ensures Expect(a + b, expected)
            == match Expect(a, expected) case None => None case Some(e) => Expect(b, e)
    decreases |a|
  {
    if a == [] {
      assert a + b == b;
    } else {
      assert (a + b)[1..] == a[1..] + b;
      if IsOpen(a[0]) {
        ExpectConcat(a[1..], b, expected + [Closer(a[0])]);
      } else if IsClose(a[0]) {
        if expected != [] && expected[|expected| - 1] == a[0] {
          ExpectConcat(a[1..], b, expected[..|expected| - 1]);
        }
      } else {
        ExpectConcat(a[1..], b, expected);
      }
    }
  }

  /** Nested text leaves the expected closers as they were. */
  lemma {:induction false} NestedExpects(s: string, expected: seq<char>)
    requires Nested(s)
    ensures Expect(s, expected) == Some(expected)
    decreases |s|
  {
    if s != [] {
      if IsOpen(s[0]) {
        var m :| Pairs(s, m) && Nested(s[1..m]) && Nested(s[m + 1..]);
        var inner := expected + [Closer(s[0])];
        NestedExpects(s[1..m], inner);
        NestedExpects(s[m + 1..], expected);
        assert s[1..] == s[1..m] + s[m..];
        ExpectConcat(s[1..m], s[m..], inner);
        assert s[m..][1..] == s[m + 1..] && inner[..|inner| - 1] == expected;
      } else {
        NestedExpects(s[1..], expected);
      }
    }
  }

  /** An opener, nested text, its closer and more nested text. */
  lemma NestedPair(s: string, p: nat, q: nat)
    requires p + 2 + q <= |s| && IsOpen(s[0]) && s[p + 1] == Closer(s[0])
    requires Nested(s[1..][..p]) && Nested(s[p + 2..][..q])
    ensures Nested(s[..p + 2 + q])
  {
    var pre := s[..p + 2 + q];
    assert pre[1..p + 1] == s[1..][..p] && pre[p + 2..] == s[p + 2..][..q];
    assert Pairs(pre, p + 1);
  }

  /** Reading back down to `expected` passes the closer `d` on top of it, after nested text. */
  lemma {:induction false} ReachCloser(s: string, expected: seq<char>, d: char) returns (m: nat)
    requires IsClose(d) && Expect(s, expected + [d]).Some? && |Expect(s, expected + [d]).value| <= |expected|
    ensures m < |s| && s[m] == d && Nested(s[..m])
    ensures Expect(s[m + 1..], expected) == Expect(s, expected + [d])
    decreases |s|
  {
    var c, top := s[0], expected + [d];
    if IsClose(c) {
      assert top[..|top| - 1] == expected;
      m := 0;
    } else if IsOpen(c) {
      var p := ReachCloser(s[1..], top, Closer(c));
      var rest := s[p + 2..];
      assert s[1..][p + 1..] == rest;
      var q := ReachCloser(rest, expected, d);
      m := p + 2 + q;
      assert s[m + 1..] == rest[q + 1..];
      NestedPair(s, p, q);
    } else {
      var p := ReachCloser(s[1..], expected, d);
      m := p + 1;
      assert s[m + 1..] == s[1..][p + 1..];
      assert s[..m][1..] == s[1..][..p];
    }
  }

  /** The stack discipline recognises exactly the nested texts. */
  lemma {:induction false} ExpectsNested(s: string)
    ensures Expect(s, []) == Some([]) <==> Nested(s)
    decreases |s|
  {
    if Nested(s) {
      NestedExpects(s, []);
    }
    if Expect(s, []) == Some([]) && s != [] {
      if IsOpen(s[0]) {
        assert [] + [Closer(s[0])] == [Closer(s[0])];
        var p := ReachCloser(s[1..], [], Closer(s[0]));
        assert s[1..][..p] == s[1..p + 1] && s[1..][p + 1..] == s[p + 2..];
        ExpectsNested(s[p + 2..]);
        assert Pairs(s, p + 1);
      } else {
        ExpectsNested(s[1..]);
      }
    }
  }

  /** The bracket at `at` closes the one at `open`: same kind, nested text between. */
  ghost predicate Closes(code: string, open: nat, at: nat) {
    open < at < |code| && IsOpen(code[open]) && code[at] == Closer(code[open]) && Nested(code[open + 1..at])
  }

  lemma Prefix(code: string, open: nat, i: nat)
    requires open < i < |code|
    ensures code[open + 1..i + 1] == code[open + 1..i] + [code[i]]
  {
  }

  lemma Head(code: string, open: nat, j: nat)
    requires open < j <= |code|
    ensures code[open..j] == [code[open]] + code[open + 1..j]
  {
  }

  lemma ExpectOne(code: string, open: nat, i: nat, expected: seq<char>)
    requires open < i < |code| && Expect(code[open + 1..i], []) == Some(expected)
    ensures Expect(code[open + 1..i + 1], []) == Expect([code[i]], expected)
  {
    Prefix(code, open, i);
    ExpectConcat(code[open + 1..i], [code[i]], []);
  }

  /** Text that goes on from a place where a closer does not fit is not nested. */
  lemma NoCloseBeyond(code: string, open: nat, i: nat, at: nat)
    requires open < i < at < |code| && Expect(code[open + 1..i + 1], []).None?
    ensures !Closes(code, open, at)
  {
    ExpectsNested(code[open + 1..at]);
    assert code[open + 1..at] == code[open + 1..i + 1] + code[i + 1..at];
    ExpectConcat(code[open + 1..i + 1], code[i + 1..at], []);
  }

  /** The search with a stack: the closing bracket, or why there is none. */
  method MatchingClose(code: string, open: nat) returns (r: Result<nat, MatchError>)
    requires open < |code| && IsOpen(code[open])
    ensures r.Success? ==> Closes(code, open, r.value)
    ensures r.Failure? ==> forall at: nat :: !Closes(code, open, at)
    ensures r.Failure? && r.error.Unbalanced? ==>
              open < r.error.at < |code| && IsClose(code[r.error.at])
              && Expect(code[open + 1..r.error.at], []).Some?
              && Expect(code[open..r.error.at + 1], []).None?
    ensures r.Failure? && r.error.Unclosed? ==> Expect(code[open..], []).Some?
  {
    var first := Closer(code[open]);
    var stack := [first];
    var i := open + 1;
    assert code[open + 1..i] == [] && stack[1..] == [];
    while i < |code|
      invariant open < i <= |code| && stack != [] && stack[0] == first
      invariant Expect(code[open + 1..i], []) == Some(stack[1..])
      invariant forall at: nat :: at < i ==> !Closes(code, open, at)
    {
      var c := code[i];
      ExpectOne(code, open, i, stack[1..]);
      ExpectsNested(code[open + 1..i]);
      if IsOpen(c) {
        assert stack[1..] + [Closer(c)] == (stack + [Closer(c)])[1..];
        stack := stack + [Closer(c)];
      } else if IsClose(c) {
        if c != stack[|stack| - 1] {
          UnbalancedHere(code, open, i, stack);
          return Failure(Unbalanced(i));
        }
        assert |stack| > 1 ==> stack[1..][..|stack[1..]| - 1] == stack[..|stack| - 1][1..];
        stack := stack[..|stack| - 1];
        if stack == [] {
          return Success(i);
        }
      }
      i := i + 1;
    }
    Head(code, open, i);
    assert code[open..] == code[open..i] && code[open + 1..] == code[open + 1..i];
    ExpectOpener(code[open], code[open + 1..]);
    ExpectUnder(code[open + 1..], first);
    r := Failure(Unclosed);
  }

  /** A closer that does not fit the stack ends the search for good. */
  lemma UnbalancedHere(code: string, open: nat, i: nat, stack: seq<char>)
    requires open < i < |code| && IsOpen(code[open]) && stack != [] && stack[0] == Closer(code[open])
    requires Expect(code[open + 1..i], []) == Some(stack[1..])
    requires IsClose(code[i]) && code[i] != stack[|stack| - 1]
    ensures forall at: nat :: i <= at ==> !Closes(code, open, at)
    ensures Expect(code[open..i + 1], []).None?
  {
    ExpectOne(code, open, i, stack[1..]);
    ExpectsNested(code[open + 1..i]);
    forall at: nat | i < at < |code|
      ensures !Closes(code, open, at)
    {
      NoCloseBeyond(code, open, i, at);
    }
    var inner := code[open + 1..i];
    Prefix(code, open, i);
    Head(code, open, i + 1);
    ExpectOpener(code[open], inner + [code[i]]);
    ExpectUnder(inner, stack[0]);
    assert [stack[0]] + stack[1..] == stack;
    ExpectConcat(inner, [code[i]], [stack[0]]);
  }

  lemma ExpectOpener(c: char, t: string)
    requires IsOpen(c)
    ensures Expect([c] + t, []) == Expect(t, [Closer(c)])
  {
    assert ([c] + t)[1..] == t && [] + [Closer(c)] == [Closer(c)];
  }

  /** What is expected underneath does not matter to text that never reaches it. */
  lemma {:induction false} ExpectUnder(s: string, d: char)
    requires Expect(s, []).Some?
    ensures Expect(s, [d]) == Some([d] + Expect(s, []).value)
  {
    ExpectLifts(s, [], d);
    assert [d] + [] == [d];
  }

  lemma {:induction false} ExpectLifts(s: string, expected: seq<char>, d: char)
    requires Expect(s, expected).Some?
    ensures Expect(s, [d] + expected) == Some([d] + Expect(s, expected).value)
    decreases |s|
  {
    if s != [] {
      if IsOpen(s[0]) {
        assert [d] + expected + [Closer(s[0])] == [d] + (expected + [Closer(s[0])]);
        ExpectLifts(s[1..], expected + [Closer(s[0])], d);
      } else if IsClose(s[0]) {
        var all := [d] + expected;
        assert all[..|all| - 1] == [d] + expected[..|expected| - 1];
        ExpectLifts(s[1..], expected[..|expected| - 1], d);
      } else {
        ExpectLifts(s[1..], expected, d);
      }
    }
  }

  /** After reading up to and including index `j`, some opener since `open` is still open. */
  ghost predicate Inside(code: string, open: nat, j: nat)
    requires open <= j < |code|
  {
    Expect(code[open..j + 1], []).Some? && Expect(code[open..j + 1], []).value != []
  }

  /** Up to its closer the depth stays above zero, and there it returns to zero. */
  lemma DepthUntilClose(code: string, open: nat, at: nat, j: nat)
    requires Closes(code, open, at) && open <= j <= at
    ensures j < at ==> Inside(code, open, j)
    ensures j == at ==> Expect(code[open..j + 1], []) == Some([])
  {
    var first, inner := Closer(code[open]), code[open + 1..at];
    NestedExpects(inner, []);
    Head(code, open, j + 1);
    ExpectOpener(code[open], code[open + 1..j + 1]);
    if j < at {
      assert inner == code[open + 1..j + 1] + code[j + 1..at];
      ExpectConcat(code[open + 1..j + 1], code[j + 1..at], []);
      ExpectUnder(code[open + 1..j + 1], first);
    } else {
      NestedExpects(inner, [first]);
      Prefix(code, open, at);
      ExpectConcat(inner, [code[at]], [first]);
      assert [first][..0] == [];
    }
  }

  /** The closer of a bracket is exactly the first place where the depth returns to zero. */
  lemma CloseExact(code: string, open: nat, at: nat)
    requires open < at < |code| && IsOpen(code[open])
    ensures Closes(code, open, at)
            <==> Expect(code[open..at + 1], []) == Some([]) && forall j :: open <= j < at ==> Inside(code, open, j)
  {
    if Closes(code, open, at) {
      DepthUntilClose(code, open, at, at);
      forall j | open <= j < at
        ensures Inside(code, open, j)
      {
        DepthUntilClose(code, open, at, j);
      }
    } else if Expect(code[open..at + 1], []) == Some([]) {
      var s := code[open + 1..at + 1];
      Head(code, open, at + 1);
      ExpectOpener(code[open], s);
      assert [] + [Closer(code[open])] == [Closer(code[open])];
      var m := ReachCloser(s, [], Closer(code[open]));
      var first := open + 1 + m;
      assert s[..m] == code[open + 1..first];
      assert Closes(code, open, first);
      DepthUntilClose(code, open, first, first);
      assert !Inside(code, open, first);
    }
  }

  /** A bracket is closed at one place at most. */
  lemma CloseUnique(code: string, open: nat, a: nat, b: nat)
    requires Closes(code, open, a) && Closes(code, open, b)
    ensures a == b
  {
    if a < b {
      CloseFirst(code, open, a, b);
    } else if b < a {
      CloseFirst(code, open, b, a);
    }
  }

  lemma CloseFirst(code: string, open: nat, a: nat, b: nat)
    requires Closes(code, open, a) && a < b
    ensures !Closes(code, open, b)
  {
    NestedExpects(code[open + 1..a], []);
    ExpectOne(code, open, a, []);
    if b < |code| {
      NoCloseBeyond(code, open, a, b);
    }
  }
}
