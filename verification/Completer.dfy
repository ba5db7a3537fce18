/**
  The completion combinators of compleat (compleat/Completer.hs).

  A completer maps the words typed so far, the last of which may be partial, to a
  list of results: either the words left over, or suggestions for the last word.
 */
module Completer {
  datatype Completion = Tokens(rest: seq<string>) | Suggestions(words: seq<string>)

  type Completer = seq<string> -> seq<Completion>

  // ---------------------------------------------------------------------
  // Primitives
  // ---------------------------------------------------------------------

  function Escape(s: string): string {
    if s == "" then "" else (if s[0] == ':' then "\\:" else [s[0]]) + Escape(s[1..])
  }

  /** The word as it is handed to the shell: escaped and followed by a blank. */
  function Shown(s: string): string {
    Escape(s) + " "
  }

  function MatchesFrom(xs: seq<string>, t: string): (r: seq<string>)
    ensures forall w :: w in r <==> exists x :: x in xs && t <= x && w == Shown(x)
  {
    if xs == [] then [] else
    var rest := MatchesFrom(xs[1..], t);
    assert forall x :: x in xs <==> x == xs[0] || x in xs[1..];
    if t <= xs[0] then [Shown(xs[0])] + rest else rest
  }

  function Match(p: string -> bool, suggest: string -> seq<string>): Completer {
    ts =>
      if ts == [] then []
      else if |ts| == 1 then [Suggestions(suggest(ts[0]))]
      else if p(ts[0]) then [Tokens(ts[1..])]
      else []
  }

  function Str(s: string): Completer {
    Match(t => t == s, t => MatchesFrom([s], t))
  }

  /** The command sees the word it is asked to complete; its output for each is given. */
  function ShellCommand(output: string -> seq<string>): Completer {
    Match(t => true, t => MatchesFrom(output(t), t))
  }

  function Continue(): Completer {
    ts => [Tokens(ts)]
  }

  function Skip(): Completer {
    ts => if ts == [] then [] else [Tokens(ts[1..])]
  }

  // ---------------------------------------------------------------------
  // Combinators
  // ---------------------------------------------------------------------

  /** Never leaves more words than it was given and, if strict, always consumes one. */
  ghost predicate Shrinks(c: Completer, strict: bool) {
    forall ts, r :: r in c(ts) && r.Tokens? ==> |r.rest| + (if strict then 1 else 0) <= |ts|
  }

  /** Consumes at least one word whenever it continues. */
  ghost predicate Consuming(c: Completer) {
    Shrinks(c, true)
  }

  function Choice(c: Completer, d: Completer): Completer {
    ts => c(ts) + d(ts)
  }

  /** What one result contributes to a sequence: d's results on a leftover, or the suggestion itself. */
  predicate Passes(q: Completion, d: Completer, x: Completion) {
    if q.Tokens? then x in d(q.rest) else x == q
  }

  /** Hands every leftover to d and keeps every suggestion: the short-circuiting concat. */
  function Bind(rs: seq<Completion>, d: Completer): seq<Completion> {
    if rs == [] then []
    else (if rs[0].Tokens? then d(rs[0].rest) else [rs[0]]) + Bind(rs[1..], d)
  }

  lemma {:induction false} BindMember(rs: seq<Completion>, d: Completer, x: Completion)
    ensures x in Bind(rs, d) <==> exists q :: q in rs && Passes(q, d, x)
  {
    if rs != [] {
      BindMember(rs[1..], d, x);
      var first := if rs[0].Tokens? then d(rs[0].rest) else [rs[0]];
      assert x in first <==> Passes(rs[0], d, x);
      assert forall q :: q in rs <==> q == rs[0] || q in rs[1..];
    }
  }

  function Then(c: Completer, d: Completer): Completer {
    ts => Bind(c(ts), d)
  }

  function Optional(c: Completer): Completer {
    Choice(c, Continue())
  }

  // Repetition recurses on the words left over, so it needs a consuming body.
  function ManyFrom(p: Completer, ts: seq<string>): (r: seq<Completion>)
    requires Consuming(p)
    ensures forall x :: x in r && x.Tokens? ==> |x.rest| <= |ts|
    decreases |ts|, 1, 0
  {
    ManyAfter(p, p(ts), |ts|) + [Tokens(ts)]
  }

  function ManyAfter(p: Completer, rs: seq<Completion>, bound: nat): (r: seq<Completion>)
    requires Consuming(p)
    requires forall q :: q in rs && q.Tokens? ==> |q.rest| < bound
    ensures forall x :: x in r && x.Tokens? ==> |x.rest| < bound
    decreases bound, 0, |rs|
  {
    if rs == [] then []
    else (if rs[0].Tokens? then ManyFrom(p, rs[0].rest) else [rs[0]]) + ManyAfter(p, rs[1..], bound)
  }

  function Many(p: Completer): Completer
    requires Consuming(p)
  {
    ts => ManyFrom(p, ts)
  }

  function Many1(p: Completer): Completer
    requires Consuming(p)
  {
    Then(p, Many(p))
  }

  /** What `run` prints: the suggestions, in order. */
  function Run(c: Completer, ts: seq<string>): seq<string> {
    AllSuggestions(c(ts))
  }

  function AllSuggestions(rs: seq<Completion>): (ws: seq<string>)
    ensures forall w :: w in ws <==> exists q :: q in rs && q.Suggestions? && w in q.words
  {
    if rs == [] then [] else
    assert forall q :: q in rs <==> q == rs[0] || q in rs[1..];
    (if rs[0].Suggestions? then rs[0].words else []) + AllSuggestions(rs[1..])
  }

  // ---------------------------------------------------------------------
  // How many words a completer leaves
  // ---------------------------------------------------------------------

  lemma StrShrinks(s: string)
    ensures Shrinks(Str(s), true)
  {
  }

  lemma CommandShrinks(output: string -> seq<string>)
    ensures Shrinks(ShellCommand(output), true)
  {
  }

  lemma ChoiceShrinks(c: Completer, d: Completer, a: bool, b: bool)
    requires Shrinks(c, a) && Shrinks(d, b)
    ensures Shrinks(Choice(c, d), a && b)
  {
    forall ts, x | x in Choice(c, d)(ts) && x.Tokens? ensures |x.rest| + (if a && b then 1 else 0) <= |ts| {
      assert x in c(ts) || x in d(ts);
    }
  }

  /** A sequence consumes a word as soon as one of its parts does. */
  lemma ThenShrinks(c: Completer, d: Completer, a: bool, b: bool)
    requires Shrinks(c, a) && Shrinks(d, b)
    ensures Shrinks(Then(c, d), a || b)
  {
    forall ts, x | x in Then(c, d)(ts) && x.Tokens? ensures |x.rest| + (if a || b then 1 else 0) <= |ts| {
      BindMember(c(ts), d, x);
      var q :| q in c(ts) && Passes(q, d, x);
      assert |x.rest| <= |q.rest| <= |ts|;
    }
  }

  lemma ManyShrinks(p: Completer)
    requires Consuming(p)
    ensures Shrinks(Many(p), false)
  {
  }

  // ---------------------------------------------------------------------
  // Algebra
  // ---------------------------------------------------------------------

  lemma {:induction false} BindAppend(a: seq<Completion>, b: seq<Completion>, d: Completer)
    ensures Bind(a + b, d) == Bind(a, d) + Bind(b, d)
  {
    if a == [] {
      assert a + b == b;
    } else {
      assert (a + b)[1..] == a[1..] + b;
      BindAppend(a[1..], b, d);
    }
  }

  lemma {:induction false} BindAssociative(rs: seq<Completion>, d: Completer, e: Completer)
    ensures Bind(Bind(rs, d), e) == Bind(rs, Then(d, e))
  {
    if rs != [] {
      var first := if rs[0].Tokens? then d(rs[0].rest) else [rs[0]];
      BindAppend(first, Bind(rs[1..], d), e);
      BindAssociative(rs[1..], d, e);
      if rs[0].Suggestions? {
        assert Bind([rs[0]], e) == [rs[0]];
      }
    }
  }

  lemma {:induction false} BindContinue(rs: seq<Completion>)
    ensures Bind(rs, Continue()) == rs
  {
    if rs != [] {
      BindContinue(rs[1..]);
    }
  }

  /** Sequencing is associative, result list by result list. */
  lemma ThenAssociative(c: Completer, d: Completer, e: Completer, ts: seq<string>)
    ensures Then(Then(c, d), e)(ts) == Then(c, Then(d, e))(ts)
  {
    BindAssociative(c(ts), d, e);
  }

  /** `continue` is a unit of sequencing on both sides. */
  lemma ContinueIsUnit(c: Completer, ts: seq<string>)
    ensures Then(Continue(), c)(ts) == c(ts) == Then(c, Continue())(ts)
  {
    BindContinue(c(ts));
    assert Bind([Tokens(ts)], c) == c(ts) + Bind([], c);
  }

  /** Choice distributes out of the left argument of a sequence. */
  lemma ChoiceDistributesLeft(c: Completer, d: Completer, e: Completer, ts: seq<string>)
    ensures Then(Choice(c, d), e)(ts) == Choice(Then(c, e), Then(d, e))(ts)
  {
    BindAppend(c(ts), d(ts), e);
  }

  lemma {:induction false} ManyAfterIsBind(p: Completer, rs: seq<Completion>, bound: nat)
    requires Consuming(p)
    requires forall q :: q in rs && q.Tokens? ==> |q.rest| < bound
    ensures ManyAfter(p, rs, bound) == Bind(rs, Many(p))
  {
    if rs != [] {
      ManyAfterIsBind(p, rs[1..], bound);
    }
  }

  lemma ManyStep(p: Completer, ts: seq<string>)
    requires Consuming(p)
    ensures Many(p)(ts) == Bind(p(ts), Many(p)) + [Tokens(ts)]
  {
    ManyAfterIsBind(p, p(ts), |ts|);
  }

  /** The defining equation of repetition, which the structural recursion satisfies. */
  lemma ManyUnfolds(p: Completer, ts: seq<string>)
    requires Consuming(p)
    ensures Many(p)(ts) == Choice(Many1(p), Continue())(ts)
  {
    ManyStep(p, ts);
  }

  /** p run exactly n times in sequence. */
  function Iterate(p: Completer, n: nat): Completer {
    if n == 0 then Continue() else Then(p, Iterate(p, n - 1))
  }

  lemma IterateStep(p: Completer, n: nat, ts: seq<string>)
    ensures Iterate(p, n + 1)(ts) == Bind(p(ts), Iterate(p, n))
  {
    assert Iterate(p, n + 1) == Then(p, Iterate(p, n));
  }

  lemma ManyTakes(p: Completer, ts: seq<string>, q: Completion, r: Completion)
    requires Consuming(p) && q in p(ts) && Passes(q, Many(p), r)
    ensures r in Many(p)(ts)
  {
    BindMember(p(ts), Many(p), r);
    ManyStep(p, ts);
  }

  lemma IterateTakes(p: Completer, n: nat, ts: seq<string>, r: Completion) returns (q: Completion)
    requires r in Iterate(p, n + 1)(ts)
    ensures q in p(ts) && Passes(q, Iterate(p, n), r)
  {
    IterateStep(p, n, ts);
    BindMember(p(ts), Iterate(p, n), r);
    q :| q in p(ts) && Passes(q, Iterate(p, n), r);
  }

  lemma {:induction false} IterationIsMany(p: Completer, n: nat, ts: seq<string>, r: Completion)
    requires Consuming(p) && r in Iterate(p, n)(ts)
    ensures r in Many(p)(ts)
    decreases n
  {
    hide ManyFrom, Many1, Bind, Shrinks;
    if n == 0 {
      ManyStep(p, ts);
    } else {
      var q := IterateTakes(p, n - 1, ts, r);
      if q.Tokens? {
        IterationIsMany(p, n - 1, q.rest, r);
      }
      ManyTakes(p, ts, q, r);
    }
  }

  lemma {:induction false} ManyIsIteration(p: Completer, ts: seq<string>, r: Completion)
    requires Consuming(p) && r in Many(p)(ts)
    ensures exists n: nat :: r in Iterate(p, n)(ts)
    decreases |ts|
  {
    ManyStep(p, ts);
    if r == Tokens(ts) {
      assert r in Iterate(p, 0)(ts);
    } else {
      BindMember(p(ts), Many(p), r);
      var q :| q in p(ts) && Passes(q, Many(p), r);
      var n: nat := 0;
      if q.Tokens? {
        ManyIsIteration(p, q.rest, r);
        n :| r in Iterate(p, n)(q.rest);
      }
      assert Passes(q, Iterate(p, n), r);
      BindMember(p(ts), Iterate(p, n), r);
      IterateStep(p, n, ts);
    }
  }

  /** Repetition of a consuming completer yields exactly the results of all its finite iterations. */
  lemma ManyIsAllIterations(p: Completer, ts: seq<string>, r: Completion)
    requires Consuming(p)
    ensures r in Many(p)(ts) <==> exists n: nat :: r in Iterate(p, n)(ts)
  {
    if r in Many(p)(ts) {
      ManyIsIteration(p, ts, r);
    }
    if n: nat :| r in Iterate(p, n)(ts) {
      IterationIsMany(p, n, ts, r);
    }
  }

  /** Unfolding the recursive equation of `many p` on ts needs fewer than n levels. */
  ghost predicate Halts(p: Completer, ts: seq<string>, n: nat)
    decreases n
  {
    n > 0 && forall q :: q in p(ts) && q.Tokens? ==> Halts(p, q.rest, n - 1)
  }

  ghost predicate Terminates(p: Completer, ts: seq<string>) {
    exists n: nat :: Halts(p, ts, n)
  }

  lemma ConsumingTerminates(p: Completer, ts: seq<string>)
    requires Consuming(p)
    ensures Terminates(p, ts)
  {
    ConsumingHalts(p, ts);
  }

  lemma {:induction false} ConsumingHalts(p: Completer, ts: seq<string>)
    requires Consuming(p)
    ensures Halts(p, ts, |ts| + 1)
    decreases |ts|
  {
    forall q | q in p(ts) && q.Tokens? ensures Halts(p, q.rest, |ts|) {
      ConsumingHalts(p, q.rest);
      HaltsMonotone(p, q.rest, |q.rest| + 1, |ts|);
    }
  }

  lemma {:induction false} HaltsMonotone(p: Completer, ts: seq<string>, m: nat, n: nat)
    requires Halts(p, ts, m) && m <= n
    ensures Halts(p, ts, n)
    decreases m
  {
    forall q | q in p(ts) && q.Tokens? ensures Halts(p, q.rest, n - 1) {
      HaltsMonotone(p, q.rest, m - 1, n - 1);
    }
  }

  lemma {:induction false} StationaryDiverges(p: Completer, ts: seq<string>, n: nat)
    requires Tokens(ts) in p(ts)
    ensures !Halts(p, ts, n)
  {
    if n > 0 {
      StationaryDiverges(p, ts, n - 1);
      assert Tokens(ts).rest == ts;
    }
  }

  lemma StationaryNeverTerminates(p: Completer, ts: seq<string>)
    requires Tokens(ts) in p(ts)
    ensures !Terminates(p, ts)
  {
    forall n: nat ensures !Halts(p, ts, n) {
      StationaryDiverges(p, ts, n);
    }
  }

  // ---------------------------------------------------------------------
  // Suggestions keep their order
  // ---------------------------------------------------------------------

  lemma {:induction false} MatchesFromAppend(a: seq<string>, b: seq<string>, t: string)
    ensures MatchesFrom(a + b, t) == MatchesFrom(a, t) + MatchesFrom(b, t)
  {
    if a == [] {
      assert a + b == b;
    } else {
      assert (a + b)[1..] == a[1..] + b;
      MatchesFromAppend(a[1..], b, t);
    }
  }

  lemma {:induction false} AllSuggestionsAppend(a: seq<Completion>, b: seq<Completion>)
    ensures AllSuggestions(a + b) == AllSuggestions(a) + AllSuggestions(b)
  {
    if a == [] {
      assert a + b == b;
    } else {
      assert (a + b)[1..] == a[1..] + b;
      AllSuggestionsAppend(a[1..], b);
    }
  }

  /** What a choice offers: the first part's suggestions, then the second's. */
  lemma ChoiceOffers(c: Completer, d: Completer, ts: seq<string>)
    ensures Run(Choice(c, d), ts) == Run(c, ts) + Run(d, ts)
  {
    AllSuggestionsAppend(c(ts), d(ts));
  }

  // ---------------------------------------------------------------------
  // Escaping loses nothing
  // ---------------------------------------------------------------------

  /** Drops the backslash in front of every colon. */
  function Unescape(w: string): string {
    if w == "" then ""
    else if |w| > 1 && w[0] == '\\' && w[1] == ':' then ":" + Unescape(w[2..])
    else [w[0]] + Unescape(w[1..])
  }

  lemma {:induction false} UnescapeInverts(s: string)
    ensures Unescape(Escape(s)) == s
  {
    if s != "" {
      UnescapeInverts(s[1..]);
      assert s == [s[0]] + s[1..];
      var e := Escape(s);
      if s[0] == ':' {
        assert e[0] == '\\' && e[1] == ':' && e[2..] == Escape(s[1..]);
      } else {
        assert e[0] == s[0] && e[1..] == Escape(s[1..]);
        assert |e| > 1 ==> e[1] == Escape(s[1..])[0] != ':';
      }
    }
  }

  function Colons(s: string): nat {
    if s == "" then 0 else (if s[0] == ':' then 1 else 0) + Colons(s[1..])
  }

  /** Escaping adds one character per colon, the backslash in front of it. */
  lemma {:induction false} EscapeShape(s: string)
    ensures |Escape(s)| == |s| + Colons(s)
    ensures forall i :: 0 <= i < |Escape(s)| && Escape(s)[i] == ':' ==> i > 0 && Escape(s)[i - 1] == '\\'
  {
    if s != "" {
      EscapeShape(s[1..]);
      var rest, n := Escape(s[1..]), if s[0] == ':' then 2 else 1;
      assert forall i :: n <= i < |Escape(s)| ==> Escape(s)[i] == rest[i - n];
    }
  }

  /** A shown word ends in exactly the blank that was added, and every colon follows a backslash. */
  lemma ShownShape(s: string)
    ensures |Shown(s)| == |s| + Colons(s) + 1 && Shown(s)[|Shown(s)| - 1] == ' '
    ensures Unescape(Shown(s)[..|Shown(s)| - 1]) == s
    ensures forall i :: 0 <= i < |Shown(s)| && Shown(s)[i] == ':' ==> i > 0 && Shown(s)[i - 1] == '\\'
  {
    EscapeShape(s);
    UnescapeInverts(s);
    assert Shown(s)[..|Shown(s)| - 1] == Escape(s);
  }

  lemma ShownInjective(x: string, y: string)
    requires Shown(x) == Shown(y)
    ensures x == y
  {
    assert Escape(x) == Shown(x)[..|Shown(x)| - 1] && Escape(y) == Shown(y)[..|Shown(y)| - 1];
    UnescapeInverts(x);
    UnescapeInverts(y);
  }
}
