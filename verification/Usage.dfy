/**
  Usage patterns and the completers they denote (compleat/Usage.hs).

  A pattern denotes a set of sentences over token patterns.  The main theorem is
  that completion offers exactly the words that some sentence allows next.
 */
module Usage {
  import opened Options
  import opened Completer

  /** What a shell command prints, line by line, when asked to complete a word. */
  type Shell = (string, string) -> seq<string>

  /** The usage tree, with variables replaced by their definitions; an undefined one is a skip. */
  datatype Usage =
    | Word(s: string)
    | AnyWord
    | Command(command: string)
    | OneOf(xs: seq<Usage>)
    | Sequence(xs: seq<Usage>)
    | Repeat(x: Usage)
    | Repeat1(x: Usage)
    | Opt(x: Usage)

  /** Every sentence of the pattern has at least one token. */
  predicate Productive(u: Usage) {
    match u
    case Word(_) | AnyWord | Command(_) => true
    case OneOf(xs) => forall i :: 0 <= i < |xs| ==> Productive(xs[i])
    case Sequence(xs) => exists i :: 0 <= i < |xs| && Productive(xs[i])
    case Repeat(_) | Opt(_) => false
    case Repeat1(x) => Productive(x)
  }

  /** The folds get non-empty lists, as the grammar guarantees, and repeated bodies consume a token. */
  predicate WellFormed(u: Usage) {
    match u
    case Word(_) | AnyWord | Command(_) => true
    case OneOf(xs) => xs != [] && forall i :: 0 <= i < |xs| ==> WellFormed(xs[i])
    case Sequence(xs) => xs != [] && forall i :: 0 <= i < |xs| ==> WellFormed(xs[i])
    case Repeat(x) => WellFormed(x) && Productive(x)
    case Repeat1(x) => WellFormed(x) && Productive(x)
    case Opt(x) => WellFormed(x)
  }

  ghost predicate AllWellFormed(xs: seq<Usage>) {
    xs != [] && forall i :: 0 <= i < |xs| ==> WellFormed(xs[i])
  }

  // ---------------------------------------------------------------------
  // The evaluator
  // ---------------------------------------------------------------------

  function Eval(shell: Shell, u: Usage): (c: Completer)
    requires WellFormed(u)
    ensures Shrinks(c, Productive(u))
    decreases u, 1
  {
    match u
    case Word(_) | AnyWord | Command(_) => EvalPrimitive(shell, u)
    case OneOf(xs) => assert Productive(u) == AllProductive(xs); EvalOneOf(shell, xs)
    case Sequence(xs) => assert Productive(u) == SomeProductive(xs); EvalSequence(shell, xs)
    case Repeat(x) => Repeated(Eval(shell, x))
    case Repeat1(x) => Repeated1(Eval(shell, x))
    case Opt(x) => OrNothing(Eval(shell, x))
  }

  function EvalPrimitive(shell: Shell, u: Usage): (c: Completer)
    requires u.Word? || u.AnyWord? || u.Command?
    ensures Shrinks(c, true)
  {
    match u
    case Word(s) => StrShrinks(s); Str(s)
    case AnyWord => Skip()
    case Command(command) => var output := w => shell(command, w); CommandShrinks(output); ShellCommand(output)
  }

  function Repeated(p: Completer): (c: Completer)
    requires Consuming(p)
    ensures Shrinks(c, false)
  {
    ManyShrinks(p);
    Many(p)
  }

  function Repeated1(p: Completer): (c: Completer)
    requires Consuming(p)
    ensures Shrinks(c, true)
  {
    ManyShrinks(p);
    ThenShrinks(p, Many(p), true, false);
    Many1(p)
  }

  function OrNothing(p: Completer): (c: Completer)
    requires Shrinks(p, false)
    ensures Shrinks(c, false)
  {
    ChoiceShrinks(p, Continue(), false, false);
    Optional(p)
  }

  predicate AllProductive(xs: seq<Usage>) {
    forall i :: 0 <= i < |xs| ==> Productive(xs[i])
  }

  predicate SomeProductive(xs: seq<Usage>) {
    exists i :: 0 <= i < |xs| && Productive(xs[i])
  }

  /** foldl1 of the choice operator. */
  function EvalOneOf(shell: Shell, xs: seq<Usage>): (c: Completer)
    requires AllWellFormed(xs)
    ensures Shrinks(c, AllProductive(xs))
    decreases xs, 0
  {
    var last := |xs| - 1;
    if last == 0 then Eval(shell, xs[0]) else
    var front, back := EvalOneOf(shell, xs[..last]), Eval(shell, xs[last]);
    ChoiceShrinks(front, back, AllProductive(xs[..last]), Productive(xs[last]));
    Choice(front, back)
  }

  /** foldl1 of the sequence operator. */
  function EvalSequence(shell: Shell, xs: seq<Usage>): (c: Completer)
    requires AllWellFormed(xs)
    ensures Shrinks(c, SomeProductive(xs))
    decreases xs, 0
  {
    var last := |xs| - 1;
    if last == 0 then Eval(shell, xs[0]) else
    var front, back := EvalSequence(shell, xs[..last]), Eval(shell, xs[last]);
    ThenShrinks(front, back, SomeProductive(xs[..last]), Productive(xs[last]));
    assert SomeProductive(xs) <==> SomeProductive(xs[..last]) || Productive(xs[last]) by {
      assert forall i :: 0 <= i < last ==> xs[..last][i] == xs[i];
    }
    Then(front, back)
  }

  // ---------------------------------------------------------------------
  // The language of a pattern, independently of any completer
  // ---------------------------------------------------------------------

  datatype Pattern = Literal(s: string) | Anything | FromCommand(command: string)

  type Sentence = seq<Pattern>
  type Language = iset<Sentence>

  ghost function Cat(a: Language, b: Language): Language {
    iset x, y | x in a && y in b :: x + y
  }

  ghost function Power(a: Language, n: nat): Language {
    if n == 0 then iset{[]} else Cat(a, Power(a, n - 1))
  }

  ghost function Star(a: Language): Language {
    iset n: nat, x | x in Power(a, n) :: x
  }

  ghost function Lang(u: Usage): Language
    decreases u, 1
  {
    match u
    case Word(s) => iset{[Literal(s)]}
    case AnyWord => iset{[Anything]}
    case Command(command) => iset{[FromCommand(command)]}
    case OneOf(xs) => iset i, w | 0 <= i < |xs| && w in Lang(xs[i]) :: w
    case Sequence(xs) => SequenceLang(xs)
    case Repeat(x) => Star(Lang(x))
    case Repeat1(x) => Cat(Lang(x), Star(Lang(x)))
    case Opt(x) => Lang(x) + iset{[]}
  }

  ghost function SequenceLang(xs: seq<Usage>): Language
    decreases xs, 0
  {
    if xs == [] then iset{[]}
    else Cat(SequenceLang(xs[..|xs| - 1]), Lang(xs[|xs| - 1]))
  }

  // ---------------------------------------------------------------------
  // Walking one sentence over the words
  // ---------------------------------------------------------------------

  predicate Accepts(p: Pattern, t: string) {
    p.Literal? ==> t == p.s
  }

  /** The candidates a pattern proposes for the last word, of which t is typed. */
  function Proposals(shell: Shell, p: Pattern, t: string): seq<string> {
    match p
    case Literal(s) => [s]
    case Anything => []
    case FromCommand(command) => shell(command, t)
  }

  /** The one result that a fixed sentence gives on ts, if any. */
  function Walk(shell: Shell, w: Sentence, ts: seq<string>): Option<Completion> {
    if w == [] then Some(Tokens(ts))
    else if ts == [] then None
    else if !w[0].Anything? && |ts| == 1 then Some(Suggestions(MatchesFrom(Proposals(shell, w[0], ts[0]), ts[0])))
    else if Accepts(w[0], ts[0]) then Walk(shell, w[1..], ts[1..])
    else None
  }

  lemma {:induction false} WalkCat(shell: Shell, v: Sentence, w: Sentence, ts: seq<string>)
    ensures Walk(shell, v + w, ts) ==
            match Walk(shell, v, ts) { case Some(Tokens(rest)) => Walk(shell, w, rest) case other => other }
  {
    if v == [] {
      assert v + w == w;
    } else if ts != [] && (v[0].Anything? || |ts| > 1) {
      assert (v + w)[1..] == v[1..] + w;
      WalkCat(shell, v[1..], w, ts[1..]);
    }
  }

  ghost predicate Gives(shell: Shell, a: Language, ts: seq<string>, r: Completion) {
    exists w :: w in a && Walk(shell, w, ts) == Some(r)
  }

  /** The results of c are exactly those of the sentences of a. */
  ghost predicate Denotes(shell: Shell, c: Completer, a: Language) {
    forall ts, r :: r in c(ts) <==> Gives(shell, a, ts, r)
  }

  lemma ChoiceDenotes(shell: Shell, c: Completer, d: Completer, e: Completer, a: Language, b: Language, l: Language)
    requires e == Choice(c, d) && l == a + b
    requires Denotes(shell, c, a) && Denotes(shell, d, b)
    ensures Denotes(shell, e, l)
  {
    forall ts, r ensures r in e(ts) <==> Gives(shell, l, ts, r) {
      assert r in e(ts) <==> r in c(ts) || r in d(ts);
    }
  }

  lemma ThenGives(shell: Shell, a: Language, b: Language, ts: seq<string>, r: Completion, q: Completion)
    requires Gives(shell, a, ts, q) && b != iset{}
    requires if q.Tokens? then Gives(shell, b, q.rest, r) else r == q
    ensures Gives(shell, Cat(a, b), ts, r)
  {
    var v :| v in a && Walk(shell, v, ts) == Some(q);
    var w :| w in b && (q.Tokens? ==> Walk(shell, w, q.rest) == Some(r));
    WalkCat(shell, v, w, ts);
    assert v + w in Cat(a, b);
  }

  lemma GivesThen(shell: Shell, a: Language, b: Language, ts: seq<string>, r: Completion) returns (q: Completion)
    requires Gives(shell, Cat(a, b), ts, r)
    ensures Gives(shell, a, ts, q)
    ensures if q.Tokens? then Gives(shell, b, q.rest, r) else r == q
  {
    var x :| x in Cat(a, b) && Walk(shell, x, ts) == Some(r);
    var v, w :| v in a && w in b && x == v + w;
    WalkCat(shell, v, w, ts);
    q := Walk(shell, v, ts).value;
  }

  lemma ThenDenotes(shell: Shell, c: Completer, d: Completer, a: Language, b: Language)
    requires Denotes(shell, c, a) && Denotes(shell, d, b) && b != iset{}
    ensures Denotes(shell, Then(c, d), Cat(a, b))
  {
    forall ts, r ensures r in Then(c, d)(ts) <==> Gives(shell, Cat(a, b), ts, r) {
      BindMember(c(ts), d, r);
      if r in Then(c, d)(ts) {
        var q :| q in c(ts) && Passes(q, d, r);
        ThenGives(shell, a, b, ts, r, q);
      }
      if Gives(shell, Cat(a, b), ts, r) {
        var q := GivesThen(shell, a, b, ts, r);
        assert Passes(q, d, r);
      }
    }
  }

  lemma ContinueDenotes(shell: Shell)
    ensures Denotes(shell, Continue(), iset{[]})
  {
    forall ts, r ensures r in Continue()(ts) <==> Gives(shell, iset{[]}, ts, r) {
      assert Continue()(ts) == [Tokens(ts)];
      assert Walk(shell, [], ts) == Some(Tokens(ts));
    }
  }

  lemma {:induction false} PowerNonEmpty(a: Language, n: nat)
    requires a != iset{}
    ensures Power(a, n) != iset{}
  {
    if n == 0 {
      assert [] in Power(a, 0);
    } else {
      PowerNonEmpty(a, n - 1);
      var v :| v in a;
      var w :| w in Power(a, n - 1);
      assert v + w in Power(a, n);
    }
  }

  lemma {:induction false} IterateDenotes(shell: Shell, p: Completer, a: Language, n: nat)
    requires Denotes(shell, p, a) && a != iset{}
    ensures Denotes(shell, Iterate(p, n), Power(a, n))
  {
    if n == 0 {
      ContinueDenotes(shell);
    } else {
      IterateDenotes(shell, p, a, n - 1);
      PowerNonEmpty(a, n - 1);
      ThenDenotes(shell, p, Iterate(p, n - 1), a, Power(a, n - 1));
      assert Iterate(p, n) == Then(p, Iterate(p, n - 1));
    }
  }

  lemma ManyDenotes(shell: Shell, p: Completer, a: Language)
    requires Denotes(shell, p, a) && a != iset{} && Consuming(p)
    ensures Denotes(shell, Many(p), Star(a))
  {
    forall ts, r ensures r in Many(p)(ts) <==> Gives(shell, Star(a), ts, r) {
      ManyIsAllIterations(p, ts, r);
      if n: nat :| r in Iterate(p, n)(ts) {
        IterateDenotes(shell, p, a, n);
        var w :| w in Power(a, n) && Walk(shell, w, ts) == Some(r);
        assert w in Star(a);
      }
      if Gives(shell, Star(a), ts, r) {
        var w :| w in Star(a) && Walk(shell, w, ts) == Some(r);
        var n: nat :| w in Power(a, n);
        IterateDenotes(shell, p, a, n);
        assert Gives(shell, Power(a, n), ts, r);
        IterationIsMany(p, n, ts, r);
      }
    }
  }

  lemma StarHasEmpty(a: Language)
    ensures [] in Star(a)
  {
    assert [] in Power(a, 0);
  }

  lemma {:induction false} LangNonEmpty(u: Usage)
    requires WellFormed(u)
    ensures Lang(u) != iset{}
    decreases u, 1
  {
    match u
    case Word(s) => assert [Literal(s)] in Lang(u);
    case AnyWord => assert [Anything] in Lang(u);
    case Command(command) => assert [FromCommand(command)] in Lang(u);
    case OneOf(xs) =>
      LangNonEmpty(xs[0]);
      var w :| w in Lang(xs[0]);
      assert w in Lang(u);
    case Sequence(xs) => SequenceNonEmpty(xs);
    case Repeat(x) => StarHasEmpty(Lang(x));
    case Repeat1(x) =>
      LangNonEmpty(x);
      var w :| w in Lang(x);
      StarHasEmpty(Lang(x));
      assert w + [] in Lang(u);
    case Opt(x) => assert [] in Lang(u);
  }

  lemma {:induction false} SequenceNonEmpty(xs: seq<Usage>)
    requires forall i :: 0 <= i < |xs| ==> WellFormed(xs[i])
    ensures SequenceLang(xs) != iset{}
    decreases xs, 0
  {
    if xs == [] {
      assert [] in SequenceLang(xs);
    } else {
      var last := |xs| - 1;
      SequenceNonEmpty(xs[..last]);
      LangNonEmpty(xs[last]);
      var v :| v in SequenceLang(xs[..last]);
      var w :| w in Lang(xs[last]);
      assert v + w in SequenceLang(xs);
    }
  }

  lemma MatchDenotes(shell: Shell, c: Completer, p: Pattern)
    requires c == match p {
               case Literal(s) => Str(s)
               case Anything => Skip()
               case FromCommand(command) => ShellCommand(w => shell(command, w))
             }
    ensures Denotes(shell, c, iset{[p]})
  {
    forall ts, r ensures r in c(ts) <==> Gives(shell, iset{[p]}, ts, r) {
      assert [p] in iset{[p]};
      if ts != [] {
        assert Walk(shell, [p][1..], ts[1..]) == Some(Tokens(ts[1..]));
      }
      assert Gives(shell, iset{[p]}, ts, r) <==> Walk(shell, [p], ts) == Some(r);
    }
  }

  /** Every well-formed pattern's completer computes exactly the results of its sentences. */
  lemma {:induction false} EvalDenotes(shell: Shell, u: Usage)
    requires WellFormed(u)
    ensures Denotes(shell, Eval(shell, u), Lang(u))
    decreases u, 1
  {
    match u
    case Word(s) => MatchDenotes(shell, Str(s), Literal(s));
    case AnyWord => MatchDenotes(shell, Skip(), Anything);
    case Command(command) => MatchDenotes(shell, Eval(shell, u), FromCommand(command));
    case OneOf(xs) => OneOfDenotes(shell, xs);
    case Sequence(xs) => SequenceDenotes(shell, xs);
    case Repeat(x) =>
      EvalDenotes(shell, x);
      LangNonEmpty(x);
      ManyDenotes(shell, Eval(shell, x), Lang(x));
    case Repeat1(x) =>
      EvalDenotes(shell, x);
      LangNonEmpty(x);
      ManyDenotes(shell, Eval(shell, x), Lang(x));
      StarHasEmpty(Lang(x));
      ThenDenotes(shell, Eval(shell, x), Many(Eval(shell, x)), Lang(x), Star(Lang(x)));
    case Opt(x) =>
      EvalDenotes(shell, x);
      ContinueDenotes(shell);
      ChoiceDenotes(shell, Eval(shell, x), Continue(), Eval(shell, u), Lang(x), iset{[]}, Lang(u));
  }

  lemma OneOfLang(xs: seq<Usage>, last: nat)
    requires |xs| == last + 1
    ensures Lang(OneOf(xs)) == Lang(OneOf(xs[..last])) + Lang(xs[last])
  {
    var front := xs[..last];
    assert forall i :: 0 <= i < last ==> front[i] == xs[i];
    forall w | w in Lang(OneOf(xs)) ensures w in Lang(OneOf(front)) + Lang(xs[last]) {
      var i :| 0 <= i < |xs| && w in Lang(xs[i]);
      assert i < last ==> w in Lang(front[i]);
    }
    forall w | w in Lang(OneOf(front)) ensures w in Lang(OneOf(xs)) {
      var i :| 0 <= i < last && w in Lang(front[i]);
      assert w in Lang(xs[i]);
    }
  }

  lemma OneOfSingle(x: Usage)
    ensures Lang(OneOf([x])) == Lang(x)
  {
    assert [x][0] == x;
  }

  lemma {:induction false} OneOfDenotes(shell: Shell, xs: seq<Usage>)
    requires AllWellFormed(xs)
    ensures Denotes(shell, EvalOneOf(shell, xs), Lang(OneOf(xs)))
    decreases xs, 0
  {
    var last := |xs| - 1;
    EvalDenotes(shell, xs[last]);
    if last == 0 {
      OneOfSingle(xs[0]);
      assert xs == [xs[0]] && EvalOneOf(shell, xs) == Eval(shell, xs[0]);
    } else {
      OneOfDenotes(shell, xs[..last]);
      OneOfLang(xs, last);
      ChoiceDenotes(shell, EvalOneOf(shell, xs[..last]), Eval(shell, xs[last]), EvalOneOf(shell, xs),
                    Lang(OneOf(xs[..last])), Lang(xs[last]), Lang(OneOf(xs)));
    }
  }

  lemma CatUnit(a: Language)
    ensures Cat(iset{[]}, a) == a
  {
    var none: Sentence := [];
    assert none in iset{none};
    assert forall w: Sentence :: none + w == w;
  }

  lemma {:induction false} SequenceDenotes(shell: Shell, xs: seq<Usage>)
    requires AllWellFormed(xs)
    ensures Denotes(shell, EvalSequence(shell, xs), SequenceLang(xs))
    decreases xs, 0
  {
    var last := |xs| - 1;
    EvalDenotes(shell, xs[last]);
    if last == 0 {
      assert xs[..0] == [];
      CatUnit(Lang(xs[0]));
    } else {
      SequenceDenotes(shell, xs[..last]);
      LangNonEmpty(xs[last]);
      ThenDenotes(shell, EvalSequence(shell, xs[..last]), Eval(shell, xs[last]), SequenceLang(xs[..last]), Lang(xs[last]));
    }
  }

  // ---------------------------------------------------------------------
  // Alternatives are tried in order
  // ---------------------------------------------------------------------

  function ResultsInOrder(shell: Shell, xs: seq<Usage>, ts: seq<string>): seq<Completion>
    requires forall i :: 0 <= i < |xs| ==> WellFormed(xs[i])
  {
    if xs == [] then [] else Eval(shell, xs[0])(ts) + ResultsInOrder(shell, xs[1..], ts)
  }

  lemma {:induction false} ResultsSnoc(shell: Shell, xs: seq<Usage>, x: Usage, ts: seq<string>)
    requires WellFormed(x) && forall i :: 0 <= i < |xs| ==> WellFormed(xs[i])
    ensures ResultsInOrder(shell, xs + [x], ts) == ResultsInOrder(shell, xs, ts) + Eval(shell, x)(ts)
  {
    hide Eval;
    if xs == [] {
      assert xs + [x] == [x] && [x][1..] == [];
    } else {
      assert (xs + [x])[1..] == xs[1..] + [x];
      ResultsSnoc(shell, xs[1..], x, ts);
    }
  }

  /** A choice gives the results of its alternatives, one after the other. */
  lemma {:induction false} OneOfResults(shell: Shell, xs: seq<Usage>, ts: seq<string>)
    requires AllWellFormed(xs)
    ensures EvalOneOf(shell, xs)(ts) == ResultsInOrder(shell, xs, ts)
    decreases |xs|
  {
    hide Eval;
    var last := |xs| - 1;
    if last == 0 {
      assert xs[1..] == [];
    } else {
      OneOfResults(shell, xs[..last], ts);
      ResultsSnoc(shell, xs[..last], xs[last], ts);
      assert xs[..last] + [xs[last]] == xs;
    }
  }

  /** An optional pattern gives its own results, then goes on without it. */
  lemma OptionalResults(shell: Shell, x: Usage, ts: seq<string>)
    requires WellFormed(x)
    ensures Eval(shell, Opt(x))(ts) == Eval(shell, x)(ts) + [Tokens(ts)]
  {
    assert Eval(shell, Opt(x)) == OrNothing(Eval(shell, x));
    OrNothingResults(Eval(shell, x), ts);
  }

  lemma OrNothingResults(p: Completer, ts: seq<string>)
    requires Shrinks(p, false)
    ensures OrNothing(p)(ts) == p(ts) + [Tokens(ts)]
  {
  }

  // ---------------------------------------------------------------------
  // Completion is sound and complete
  // ---------------------------------------------------------------------

  /** The finished words are matched by the first tokens of the sentence. */
  ghost predicate Fits(w: Sentence, ts: seq<string>) {
    |ts| <= |w| && forall i :: 0 <= i < |ts| ==> Accepts(w[i], ts[i])
  }

  lemma {:induction false} WalkSuggests(shell: Shell, w: Sentence, ts: seq<string>, t: string, r: Completion)
    requires r.Suggestions?
    ensures Walk(shell, w, ts + [t]) == Some(r) <==>
            |ts| < |w| && Fits(w, ts) && !w[|ts|].Anything?
            && r.words == MatchesFrom(Proposals(shell, w[|ts|], t), t)
  {
    if w == [] {
    } else if ts == [] {
      assert ts + [t] == [t];
      if w[0].Anything? {
        assert Walk(shell, w[1..], []) != Some(r);
      }
    } else {
      assert (ts + [t])[1..] == ts[1..] + [t] && |ts + [t]| > 1;
      WalkSuggests(shell, w[1..], ts[1..], t, r);
      assert Fits(w, ts) <==> Accepts(w[0], ts[0]) && Fits(w[1..], ts[1..]);
    }
  }

  /** Some sentence of the language matches ts and proposes s, which extends t, next. */
  ghost predicate AllowedNext(shell: Shell, a: Language, ts: seq<string>, t: string, s: string) {
    t <= s && exists w :: w in a && |ts| < |w| && Fits(w, ts) && s in Proposals(shell, w[|ts|], t)
  }

  lemma OfferedIsAllowed(shell: Shell, c: Completer, a: Language, ts: seq<string>, t: string, s: string)
    requires Denotes(shell, c, a) && Shown(s) in Run(c, ts + [t])
    ensures AllowedNext(shell, a, ts, t, s)
  {
    var r :| r in c(ts + [t]) && r.Suggestions? && Shown(s) in r.words;
    var w :| w in a && Walk(shell, w, ts + [t]) == Some(r);
    WalkSuggests(shell, w, ts, t, r);
    var x :| x in Proposals(shell, w[|ts|], t) && t <= x && Shown(s) == Shown(x);
    ShownInjective(s, x);
  }

  lemma AllowedIsOffered(shell: Shell, c: Completer, a: Language, ts: seq<string>, t: string, s: string)
    requires Denotes(shell, c, a) && AllowedNext(shell, a, ts, t, s)
    ensures Shown(s) in Run(c, ts + [t])
  {
    var w :| w in a && |ts| < |w| && Fits(w, ts) && s in Proposals(shell, w[|ts|], t);
    var r := Suggestions(MatchesFrom(Proposals(shell, w[|ts|], t), t));
    WalkSuggests(shell, w, ts, t, r);
    assert Gives(shell, a, ts + [t], r);
    assert r in c(ts + [t]) && Shown(s) in r.words;
  }

  /**
    On the words ts followed by the partial word t, completion offers s if and only if
    t is a prefix of s and some sentence of the pattern matches ts and has s next.
   */
  lemma OfferedIffAllowed(shell: Shell, u: Usage, ts: seq<string>, t: string, s: string)
    requires WellFormed(u)
    ensures Shown(s) in Run(Eval(shell, u), ts + [t]) <==> AllowedNext(shell, Lang(u), ts, t, s)
  {
    EvalDenotes(shell, u);
    if Shown(s) in Run(Eval(shell, u), ts + [t]) {
      OfferedIsAllowed(shell, Eval(shell, u), Lang(u), ts, t, s);
    }
    if AllowedNext(shell, Lang(u), ts, t, s) {
      AllowedIsOffered(shell, Eval(shell, u), Lang(u), ts, t, s);
    }
  }

  // ---------------------------------------------------------------------
  // When repetition terminates
  // ---------------------------------------------------------------------

  lemma {:induction false} ProductiveIff(u: Usage)
    requires WellFormed(u)
    ensures Productive(u) <==> [] !in Lang(u)
    decreases u, 1
  {
    match u
    case Word(s) =>
    case AnyWord =>
    case Command(_) =>
    case OneOf(xs) =>
      forall i | 0 <= i < |xs| ensures Productive(xs[i]) <==> [] !in Lang(xs[i]) {
        ProductiveIff(xs[i]);
      }
    case Sequence(xs) => SequenceProductiveIff(xs);
    case Repeat(x) => StarHasEmpty(Lang(x));
    case Repeat1(x) =>
      ProductiveIff(x);
      assert forall v: Sentence, w: Sentence :: v + w == [] ==> v == [];
    case Opt(x) =>
  }

  lemma {:induction false} SequenceProductiveIff(xs: seq<Usage>)
    requires forall i :: 0 <= i < |xs| ==> WellFormed(xs[i])
    ensures (exists i :: 0 <= i < |xs| && Productive(xs[i])) <==> [] !in SequenceLang(xs)
    decreases xs, 0
  {
    if xs != [] {
      var last := |xs| - 1;
      SequenceProductiveIff(xs[..last]);
      ProductiveIff(xs[last]);
      var none: Sentence := [];
      assert forall v: Sentence, w: Sentence :: v + w == [] ==> v == [] && w == [];
      assert none + none == none;
      assert none in SequenceLang(xs) <==> none in SequenceLang(xs[..last]) && none in Lang(xs[last]);
      assert forall i :: 0 <= i < last ==> xs[..last][i] == xs[i];
    }
  }

  /**
    Unfolding `many` over a pattern stops on every input if and only if the pattern
    is productive; otherwise it runs forever on every input.
   */
  lemma RepetitionTerminatesIff(shell: Shell, u: Usage, ts: seq<string>)
    requires WellFormed(u)
    ensures Terminates(Eval(shell, u), ts) <==> Productive(u)
  {
    if Productive(u) {
      ConsumingTerminates(Eval(shell, u), ts);
    } else {
      ProductiveIff(u);
      EvalDenotes(shell, u);
      assert Walk(shell, [], ts) == Some(Tokens(ts));
      assert Gives(shell, Lang(u), ts, Tokens(ts));
      StationaryNeverTerminates(Eval(shell, u), ts);
    }
  }

  // ---------------------------------------------------------------------
  // Commands
  // ---------------------------------------------------------------------

  /** A command definition skips the command's own name, then follows its pattern. */
  datatype Definition = Definition(command: string, pattern: Usage)

  function DefinitionOf(d: Definition, command: string): seq<Usage> {
    if d.command == command then [Sequence([AnyWord, d.pattern])] else []
  }

  function DefinitionsOf(defs: seq<Definition>, command: string): seq<Usage> {
    if defs == [] then [] else DefinitionOf(defs[0], command) + DefinitionsOf(defs[1..], command)
  }

  lemma {:induction false} DefinitionsMember(defs: seq<Definition>, command: string, u: Usage)
    ensures u in DefinitionsOf(defs, command) <==>
            exists d :: d in defs && d.command == command && u == Sequence([AnyWord, d.pattern])
  {
    if defs != [] {
      DefinitionsMember(defs[1..], command, u);
      assert forall d :: d in defs <==> d == defs[0] || d in defs[1..];
    }
  }

  lemma {:induction false} DefinitionsAppend(a: seq<Definition>, b: seq<Definition>, command: string)
    ensures DefinitionsOf(a + b, command) == DefinitionsOf(a, command) + DefinitionsOf(b, command)
  {
    hide DefinitionOf;
    if a == [] {
      assert a + b == b;
    } else {
      assert (a + b)[1..] == a[1..] + b;
      DefinitionsAppend(a[1..], b, command);
    }
  }

  function LookupCommand(defs: seq<Definition>, command: string): Usage {
    OneOf(DefinitionsOf(defs, command))
  }

  lemma DefinitionLang(u: Usage)
    ensures Lang(Sequence([AnyWord, u])) == Cat(iset{[Anything]}, Lang(u))
  {
    var xs := [AnyWord, u];
    var none: Sentence := [];
    assert xs[..1] == [AnyWord] && xs[..1][..0] == [];
    assert none + [Anything] == [Anything];
    assert SequenceLang([AnyWord]) == Cat(iset{none}, iset{[Anything]}) == iset{[Anything]};
  }

  lemma FitsAfterName(b: Sentence, name: string, ts: seq<string>)
    ensures Fits([Anything] + b, [name] + ts) <==> Fits(b, ts)
  {
    var w, words := [Anything] + b, [name] + ts;
    assert forall k :: 0 <= k < |b| ==> w[k + 1] == b[k];
    assert forall k :: 0 <= k < |ts| ==> words[k + 1] == ts[k];
    if Fits(w, words) {
      forall k | 0 <= k < |ts| ensures Accepts(b[k], ts[k]) {
        assert Accepts(w[k + 1], words[k + 1]);
      }
    }
  }

  lemma AllowedAfterName(shell: Shell, a: Language, name: string, ts: seq<string>, t: string, s: string)
    ensures AllowedNext(shell, Cat(iset{[Anything]}, a), [name] + ts, t, s) <==> AllowedNext(shell, a, ts, t, s)
  {
    var words, named := [name] + ts, Cat(iset{[Anything]}, a);
    if AllowedNext(shell, named, words, t, s) {
      var w :| w in named && |words| < |w| && Fits(w, words) && s in Proposals(shell, w[|words|], t);
      var b :| b in a && w == [Anything] + b;
      FitsAfterName(b, name, ts);
    }
    if AllowedNext(shell, a, ts, t, s) {
      var b :| b in a && |ts| < |b| && Fits(b, ts) && s in Proposals(shell, b[|ts|], t);
      FitsAfterName(b, name, ts);
      assert [Anything] + b in named;
    }
  }

  lemma AllowedByDefinition(shell: Shell, u: Usage, name: string, ts: seq<string>, t: string, s: string)
    ensures AllowedNext(shell, Lang(Sequence([AnyWord, u])), [name] + ts, t, s) <==> AllowedNext(shell, Lang(u), ts, t, s)
  {
    DefinitionLang(u);
    AllowedAfterName(shell, Lang(u), name, ts, t, s);
  }

  lemma AllowedByOneOf(shell: Shell, xs: seq<Usage>, ts: seq<string>, t: string, s: string)
    ensures AllowedNext(shell, Lang(OneOf(xs)), ts, t, s) <==> exists x :: x in xs && AllowedNext(shell, Lang(x), ts, t, s)
  {
    if AllowedNext(shell, Lang(OneOf(xs)), ts, t, s) {
      var w :| w in Lang(OneOf(xs)) && |ts| < |w| && Fits(w, ts) && s in Proposals(shell, w[|ts|], t);
      var i :| 0 <= i < |xs| && w in Lang(xs[i]);
      assert xs[i] in xs && AllowedNext(shell, Lang(xs[i]), ts, t, s);
    }
    if x :| x in xs && AllowedNext(shell, Lang(x), ts, t, s) {
      var w :| w in Lang(x) && |ts| < |w| && Fits(w, ts) && s in Proposals(shell, w[|ts|], t);
      var i :| 0 <= i < |xs| && xs[i] == x;
      assert w in Lang(OneOf(xs));
    }
  }

  lemma AllowedBySome(shell: Shell, defs: seq<Definition>, command: string, name: string, ts: seq<string>,
                      t: string, s: string)
    ensures (exists x :: x in DefinitionsOf(defs, command) && AllowedNext(shell, Lang(x), [name] + ts, t, s)) <==>
            exists d :: d in defs && d.command == command && AllowedNext(shell, Lang(d.pattern), ts, t, s)
  {
    hide AllowedNext, Lang;
    var xs := DefinitionsOf(defs, command);
    if x :| x in xs && AllowedNext(shell, Lang(x), [name] + ts, t, s) {
      DefinitionsMember(defs, command, x);
      var d :| d in defs && d.command == command && x == Sequence([AnyWord, d.pattern]);
      AllowedByDefinition(shell, d.pattern, name, ts, t, s);
    }
    if d :| d in defs && d.command == command && AllowedNext(shell, Lang(d.pattern), ts, t, s) {
      AllowedByDefinition(shell, d.pattern, name, ts, t, s);
      DefinitionsMember(defs, command, Sequence([AnyWord, d.pattern]));
    }
  }

  /** After the command's name, completion offers s iff one of the command's definitions allows it. */
  lemma CommandOffersIff(shell: Shell, defs: seq<Definition>, command: string, name: string, ts: seq<string>,
                         t: string, s: string)
    requires WellFormed(LookupCommand(defs, command))
    ensures Shown(s) in Run(Eval(shell, LookupCommand(defs, command)), [name] + ts + [t]) <==>
            exists d :: d in defs && d.command == command && AllowedNext(shell, Lang(d.pattern), ts, t, s)
  {
    OfferedIffAllowed(shell, LookupCommand(defs, command), [name] + ts, t, s);
    AllowedByOneOf(shell, DefinitionsOf(defs, command), [name] + ts, t, s);
    AllowedBySome(shell, defs, command, name, ts, t, s);
  }
}
