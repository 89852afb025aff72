/** The queue scope of an API key: a list of queue names, `prefix.*` patterns and `*`.

    Scopes denote sets of queue names, mostly infinite. `CanGrant` decides inclusion between
    two such sets by looking at the lists only.
 */
module QueueScope {
  import opened Wrappers

  type Scope = seq<string>

  predicate StartsWith(s: string, prefix: string) {
    |prefix| <= |s| && s[..|prefix|] == prefix
  }

  /** A prefix that a pattern can have: a name and a dot, no `*`. */
  predicate IsPrefix(p: string) {
    |p| > 1 && p[|p| - 1] == '.' && '*' !in p
  }

  /** The prefix, dot included, of a `prefix.*` pattern; every other text has none. */
  function PatternPrefix(pattern: string): (r: Option<string>)
    ensures r.Some? ==> IsPrefix(r.value) && pattern == r.value + "*"
    ensures r.None? ==> forall p :: IsPrefix(p) ==> pattern != p + "*"
  {
    if pattern == [] || pattern[|pattern| - 1] != '*' then None
    else
      var prefix := pattern[..|pattern| - 1];
      if |prefix| > 1 && prefix[|prefix| - 1] == '.' && '*' !in prefix then Some(prefix) else None
  }

  /** Whether one entry covers a queue name. */
  predicate PatternMatches(pattern: string, name: string) {
    if pattern == "*" then true
    else
      match PatternPrefix(pattern)
      case Some(prefix) => StartsWith(name, prefix)
      case None => pattern == name
  }

  predicate IsUnrestricted(scope: Scope) {
    scope == [] || "*" in scope
  }

  predicate Allows(scope: Scope, name: string) {
    scope == [] || exists i :: 0 <= i < |scope| && PatternMatches(scope[i], name)
  }

  /** Whether own entry `own` covers the whole pattern `requested`, whose prefix is given. */
  predicate EntryCovers(own: string, requested: string, requestedPrefix: string) {
    || own == "*"
    || own == requested
    || (PatternPrefix(own).Some? && StartsWith(requestedPrefix, PatternPrefix(own).value))
  }

  predicate Covers(scope: Scope, requested: string) {
    match PatternPrefix(requested)
    case Some(prefix) => exists i :: 0 <= i < |scope| && EntryCovers(scope[i], requested, prefix)
    case None => Allows(scope, requested)
  }

  /** Whether a key with scope `own` may create or change a key to scope `requested`. */
  predicate CanGrant(own: Scope, requested: Scope) {
    IsUnrestricted(own)
    || (requested != [] && "*" !in requested && forall i :: 0 <= i < |requested| ==> Covers(own, requested[i]))
  }

  /** Whether a key may act on a worker that serves all these queues. */
  predicate AllowsAll(scope: Scope, queues: seq<string>) {
    IsUnrestricted(scope)
    || (queues != [] && forall i :: 0 <= i < |queues| ==> Allows(scope, queues[i]))
  }

  /** The list bound to SQL filters: no list for an unrestricted key, its own list otherwise. */
  function ScopeFilter(scope: Scope): Option<Scope> {
    if IsUnrestricted(scope) then None else Some(scope)
  }

  // ---------------------------------------------------------------------------
  // Meaning
  // ---------------------------------------------------------------------------

  /** Every name `inner` allows, `outer` allows. */
  ghost predicate Included(inner: Scope, outer: Scope) {
    forall name :: Allows(inner, name) ==> Allows(outer, name)
  }

  /** A scope with a concrete list. */
  predicate IsRestricted(scope: Scope) {
    !IsUnrestricted(scope)
  }

  function LongestEntry(scope: Scope): (n: nat)
    ensures forall i :: 0 <= i < |scope| ==> |scope[i]| <= n
  {
    if scope == [] then 0
    else
      var rest := LongestEntry(scope[1..]);
      if |scope[0]| > rest then |scope[0]| else rest
  }

  function Filler(n: nat): (s: string)
    ensures |s| == n && forall i :: 0 <= i < n ==> s[i] == 'a'
  {
    if n == 0 then "" else Filler(n - 1) + "a"
  }

  /** A name under `prefix` too long to be listed by itself, with no further dot. */
  function Probe(scope: Scope, prefix: string): (name: string)
    ensures StartsWith(name, prefix)
    ensures forall i :: 0 <= i < |scope| ==> |scope[i]| < |name|
    ensures forall i :: |prefix| <= i < |name| ==> name[i] == 'a'
  {
    prefix + Filler(LongestEntry(scope) + 1)
  }

  /** Whatever entry covers the probe is a pattern whose prefix is a prefix of `prefix`. */
  lemma ProbeMatch(scope: Scope, prefix: string, i: nat)
    requires i < |scope| && scope[i] != "*" && PatternMatches(scope[i], Probe(scope, prefix))
    ensures PatternPrefix(scope[i]).Some? && StartsWith(prefix, PatternPrefix(scope[i]).value)
  {
    var name := Probe(scope, prefix);
    var own := PatternPrefix(scope[i]).value;
    assert name[..|own|][|own| - 1] == name[|own| - 1];
    assert |own| <= |prefix|;
    assert prefix[..|own|] == name[..|prefix|][..|own|] == name[..|own|];
  }

  /** "Empty or listing `*`" is exactly "allows every name". */
  lemma UnrestrictedMeansEverything(scope: Scope)
    ensures IsUnrestricted(scope) <==> forall name :: Allows(scope, name)
  {
    if "*" in scope {
      var i :| 0 <= i < |scope| && scope[i] == "*";
      forall name
        ensures Allows(scope, name)
      {
        assert PatternMatches(scope[i], name);
      }
    }
    if scope != [] && "*" !in scope && Allows(scope, Probe(scope, "")) {
      var i :| 0 <= i < |scope| && PatternMatches(scope[i], Probe(scope, ""));
      ProbeMatch(scope, "", i);
    }
  }

  /** SQL is given no list exactly when the scope allows every name, and otherwise the scope. */
  lemma FilterMeansScope(scope: Scope)
    ensures ScopeFilter(scope).None? <==> forall name :: Allows(scope, name)
    ensures ScopeFilter(scope).Some? ==> ScopeFilter(scope).value == scope
  {
    UnrestrictedMeansEverything(scope);
  }

  lemma PrefixTransitive(name: string, longer: string, shorter: string)
    requires StartsWith(name, longer) && StartsWith(longer, shorter)
    ensures StartsWith(name, shorter)
  {
    assert name[..|shorter|] == name[..|longer|][..|shorter|];
  }

  /** What one requested entry stands for, as a set of names. */
  ghost predicate EntryIncluded(requested: string, own: Scope) {
    forall name :: PatternMatches(requested, name) ==> Allows(own, name)
  }

  lemma CoversPattern(own: Scope, requested: string, prefix: string)
    requires IsRestricted(own) && PatternPrefix(requested) == Some(prefix)
    ensures Covers(own, requested) <==> EntryIncluded(requested, own)
  {
    if Covers(own, requested) {
      var i :| 0 <= i < |own| && EntryCovers(own[i], requested, prefix);
      forall name | PatternMatches(requested, name)
        ensures Allows(own, name)
      {
        if own[i] != requested {
          PrefixTransitive(name, prefix, PatternPrefix(own[i]).value);
        }
        assert PatternMatches(own[i], name);
      }
    }
    if EntryIncluded(requested, own) {
      var name := Probe(own, prefix);
      assert PatternMatches(requested, name);
      var i :| 0 <= i < |own| && PatternMatches(own[i], name);
      ProbeMatch(own, prefix, i);
      assert EntryCovers(own[i], requested, prefix);
    }
  }

  /** The test on one requested entry decides inclusion of the names it stands for. */
  lemma CoversExact(own: Scope, requested: string)
    requires IsRestricted(own) && requested != "*"
    ensures Covers(own, requested) <==> EntryIncluded(requested, own)
  {
    match PatternPrefix(requested)
    case Some(prefix) => CoversPattern(own, requested, prefix);
    case None => assert PatternMatches(requested, requested);
  }

  /** An unrestricted key may grant any scope; a restricted one may if and only if the scope
      is a list at all and every name it allows, the key's own scope allows. */
  lemma GrantExact(own: Scope, requested: Scope)
    ensures IsUnrestricted(own) ==> CanGrant(own, requested)
    ensures IsRestricted(own) ==> (CanGrant(own, requested) <==> requested != [] && Included(requested, own))
  {
    if IsUnrestricted(own) {
    } else if "*" in requested {
      UnrestrictedMeansEverything(requested);
      UnrestrictedMeansEverything(own);
    } else {
      forall i | 0 <= i < |requested|
        ensures Covers(own, requested[i]) <==> EntryIncluded(requested[i], own)
      {
        CoversExact(own, requested[i]);
      }
      if requested != [] && Included(requested, own) {
        forall i, name | 0 <= i < |requested| && PatternMatches(requested[i], name)
          ensures Allows(own, name)
        {
          assert Allows(requested, name);
        }
      }
    }
  }

  /** A chain of keys, each created by the one before. */
  ghost predicate IsGrantChain(keys: seq<Scope>) {
    forall i :: 0 < i < |keys| ==> CanGrant(keys[i - 1], keys[i])
  }

  /** No chain of grants from a restricted key escapes its scope, or becomes unrestricted. */
  lemma {:induction false} GrantsNeverEscalate(keys: seq<Scope>, i: nat)
    requires IsGrantChain(keys) && i < |keys| && IsRestricted(keys[0])
    ensures IsRestricted(keys[i]) && Included(keys[i], keys[0])
  {
    if i > 0 {
      GrantsNeverEscalate(keys, i - 1);
      GrantExact(keys[i - 1], keys[i]);
    }
  }

  /** Acting on a worker is allowed exactly when every queue it may take from is: the queues
      it names, or any queue at all if it names none. */
  lemma WorkerAccessExact(scope: Scope, queues: seq<string>)
    ensures AllowsAll(scope, queues)
            <==> if queues != [] then forall i :: 0 <= i < |queues| ==> Allows(scope, queues[i])
                 else forall name :: Allows(scope, name)
  {
    UnrestrictedMeansEverything(scope);
  }
}
