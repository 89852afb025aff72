/** What the scanner takes for a block comment, told independently of its loop. Cut the text
    into delimiters and single characters from left to right and read the delimiters as
    brackets: the comment ends with the bracket that closes its first.
 */
module CommentNesting {
  import opened Wrappers
  import opened RustScan
  import opened BracketMatch

  // The text from `j` on, with `(` for each comment opener, `)` for each comment closer and
  // a space for every other character.
  ghost function Units(src: string, j: nat): string
    decreases |src| - j
  {
    if j >= |src| then []
    else if StartsAt(src, j, "/*") then ['('] + Units(src, j + 2)
    else if StartsAt(src, j, "*/") then [')'] + Units(src, j + 2)
    else [' '] + Units(src, j + 1)
  }

  /** How many characters of text these units stand for. */
  ghost function Width(units: string): nat {
    if units == [] then 0 else Width(units[1..]) + if units[0] == ' ' then 1 else 2
  }

  ghost function Closers(depth: nat): seq<char> {
    seq(depth, _ => ')')
  }

  /** With `depth` comments open before them, more than none are open after these units. */
  ghost predicate StillOpen(units: string, depth: nat) {
    Expect(units, Closers(depth)).Some? && Expect(units, Closers(depth)).value != []
  }

  /** What one unit does to the depth. */
  lemma OneUnit(u: char, rest: string, depth: nat)
    requires depth >= 1
    ensures u == '(' ==> Expect([u] + rest, Closers(depth)) == Expect(rest, Closers(depth + 1))
    ensures u == ')' ==> Expect([u] + rest, Closers(depth)) == Expect(rest, Closers(depth - 1))
    ensures u == ' ' ==> Expect([u] + rest, Closers(depth)) == Expect(rest, Closers(depth))
  {
    assert ([u] + rest)[1..] == rest;
    assert Closers(depth) + [')'] == Closers(depth + 1);
    assert Closers(depth)[..depth - 1] == Closers(depth - 1);
  }

  function DepthAfter(u: char, depth: nat): nat
    requires depth >= 1
  {
    if u == '(' then depth + 1 else if u == ')' then depth - 1 else depth
  }

  /** The first `m` units make up the comment: at each earlier unit some comment is open, and
      after them none is, or the text has run out. */
  ghost predicate Ends(units: string, m: nat, depth: nat) {
    && m <= |units|
    && (forall k :: 0 <= k < m ==> StillOpen(units[..k], depth))
    && (Expect(units[..m], Closers(depth)) == Some([]) || (m == |units| && StillOpen(units, depth)))
  }

  lemma EndsLater(u: char, rest: string, m: nat, depth: nat)
    requires depth >= 1 && (u == '(' || u == ')' || u == ' ')
    requires DepthAfter(u, depth) >= 1 && Ends(rest, m, DepthAfter(u, depth))
    ensures Ends([u] + rest, m + 1, depth)
  {
    var all := [u] + rest;
    forall k | 0 <= k <= m + 1
      ensures k > 0 ==> Expect(all[..k], Closers(depth)) == Expect(rest[..k - 1], Closers(DepthAfter(u, depth)))
      ensures k == 0 ==> StillOpen(all[..k], depth)
    {
      if k > 0 {
        assert all[..k] == [u] + rest[..k - 1];
        OneUnit(u, rest[..k - 1], depth);
      } else {
        assert all[..0] == [];
      }
    }
    OneUnit(u, rest, depth);
    forall k | 0 <= k < m + 1
      ensures StillOpen(all[..k], depth)
    {
      if k > 0 {
        assert StillOpen(rest[..k - 1], DepthAfter(u, depth));
      }
    }
  }

  lemma EndsHere(rest: string)
    ensures Ends([')'] + rest, 1, 1)
  {
    var all := [')'] + rest;
    assert all[..0] == [] && all[..1] == [')'] + [];
    OneUnit(')', [], 1);
    assert Closers(0) == [];
  }

  lemma WidthOfNext(u: char, rest: string, m: nat)
    requires m <= |rest|
    ensures Width(([u] + rest)[..m + 1]) == Width(rest[..m]) + if u == ' ' then 1 else 2
  {
    assert ([u] + rest)[..m + 1][1..] == rest[..m];
  }

  /** The scan stops after some number of units, and that is where the comment ends. */
  lemma {:induction false} BlockEndUnits(src: string, j: nat, depth: nat) returns (m: nat)
    requires j <= |src| && depth >= 1
    ensures Ends(Units(src, j), m, depth) && BlockEnd(src, j, depth) == j + Width(Units(src, j)[..m])
    decreases |src| - j
  {
    if j == |src| {
      m := 0;
      assert Units(src, j)[..0] == [];
    } else {
      var u := Units(src, j)[0];
      var next := if u == ' ' then j + 1 else j + 2;
      var rest := Units(src, next);
      assert Units(src, j) == [u] + rest;
      if u == ')' && depth == 1 {
        m := 1;
        EndsHere(rest);
        WidthOfNext(u, rest, 0);
      } else {
        var k := BlockEndUnits(src, next, DepthAfter(u, depth));
        m := k + 1;
        EndsLater(u, rest, k, depth);
        WidthOfNext(u, rest, k);
      }
    }
  }

  /** The units cover the text. */
  lemma {:induction false} WidthOfAll(src: string, j: nat)
    requires j <= |src|
    ensures j + Width(Units(src, j)) == |src|
    decreases |src| - j
  {
    if j < |src| {
      var u := Units(src, j)[0];
      var next := if u == ' ' then j + 1 else j + 2;
      assert Units(src, j)[1..] == Units(src, next);
      WidthOfAll(src, next);
    }
  }

  /** From its opener on, the depth of a comment is that of the units after the opener. */
  lemma DepthFromOpener(rest: string, k: nat)
    requires k <= |rest|
    ensures Expect((['('] + rest)[0..k + 1], []) == Expect(rest[..k], Closers(1))
  {
    assert (['('] + rest)[0..k + 1] == ['('] + rest[..k];
    ExpectOpener('(', rest[..k]);
    assert Closers(1) == [')'];
  }

  /** A block comment ends right after the closer that matches its opener, with everything in
      between properly nested; if no closer matches, it runs to the end of the text. */
  lemma BlockCommentExact(src: string, i: nat)
    requires StartsAt(src, i, "/*")
    ensures var units, end := Units(src, i), BlockEnd(src, i + 2, 1);
            || (exists m: nat :: Closes(units, 0, m) && end == i + Width(units[..m + 1]))
            || (end == |src| && forall m: nat :: !Closes(units, 0, m))
  {
    var rest := Units(src, i + 2);
    var units := ['('] + rest;
    assert Units(src, i) == units;
    var m := BlockEndUnits(src, i + 2, 1);
    if Expect(rest[..m], Closers(1)) == Some([]) {
      MatchesFirst(rest, m);
      WidthOfNext('(', rest, m);
    } else {
      NeverMatched(rest);
      assert rest[..m] == rest;
      WidthOfAll(src, i + 2);
    }
  }

  lemma MatchesFirst(rest: string, m: nat)
    requires Ends(rest, m, 1) && Expect(rest[..m], Closers(1)) == Some([])
    ensures Closes(['('] + rest, 0, m)
  {
    var units := ['('] + rest;
    assert m > 0 by {
      assert rest[..0] == [];
    }
    DepthFromOpener(rest, m);
    forall k | 0 <= k < m
      ensures Inside(units, 0, k)
    {
      assert StillOpen(rest[..k], 1);
      DepthFromOpener(rest, k);
    }
    CloseExact(units, 0, m);
  }

  lemma NeverMatched(rest: string)
    requires Ends(rest, |rest|, 1) && StillOpen(rest, 1)
    ensures forall at: nat :: !Closes(['('] + rest, 0, at)
  {
    var units := ['('] + rest;
    forall at: nat | 0 < at < |units|
      ensures !Closes(units, 0, at)
    {
      DepthFromOpener(rest, at);
      assert at < |rest| ==> StillOpen(rest[..at], 1);
      assert at == |rest| ==> rest[..at] == rest;
      CloseExact(units, 0, at);
    }
  }
}
