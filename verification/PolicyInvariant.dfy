/**
  Every operation on the policy keeps the invariant, so it holds in every state of
  every run (xcpmd/src/rules.c, xcpmd/src/db-helper.c, xcpmd/src/parser.c).
 */
module PolicyInvariant {
  import opened Options
  import opened PolicyTypes
  import opened PolicyParser
  import opened PolicyPrinter
  import opened PolicyVars
  import opened PolicyRules

  // ---------------------------------------------------------------------
  // Types survive whatever keeps the types of the used variables
  // ---------------------------------------------------------------------

  /** Every variable named by the arguments that resolves in s resolves in t, to the same type. */
  ghost predicate SameTypes(s: VarStore, t: VarStore, args: seq<Arg>) {
    forall n :: Uses(args, n) > 0 && Resolve(s, n).Some? ==>
      Resolve(t, n).Some? && TypeLetter(Resolve(t, n).value) == TypeLetter(Resolve(s, n).value)
  }

  lemma {:induction false} LettersStable(s: VarStore, t: VarStore, args: seq<Arg>)
    requires SameTypes(s, t, args) && Letters(s, args).Some?
    ensures Letters(t, args) == Letters(s, args)
  {
    hide Resolve;
    if args != [] {
      assert args == [args[0]] + args[1..];
      forall n ensures Uses(args, n) == Uses([args[0]], n) + Uses(args[1..], n) {
        UsesAppend([args[0]], args[1..], n);
      }
      if args[0].VarArg? {
        UsedInArgs(args, 0);
      }
      LettersStable(s, t, args[1..]);
    }
  }

  lemma {:induction false} UsesOfCall(cs: seq<Call>, i: nat, n: string)
    requires i < |cs|
    ensures Uses(FlatArgs(cs), n) >= Uses(cs[i].args, n)
  {
    UsesAppend(cs[0].args, FlatArgs(cs[1..]), n);
    if i > 0 {
      UsesOfCall(cs[1..], i - 1, n);
    }
  }

  lemma RuleSoundStable(reg: Registry, s: VarStore, t: VarStore, r: Rule)
    requires RuleSound(reg, s, r) && SameTypes(s, t, RuleArgs(r))
    ensures RuleSound(reg, t, r)
  {
    hide Resolve, Letters, Spaced, Uses, FlatArgs;
    var checks := Checks(reg, r);
    forall c | c in checks ensures Matches(t, c) {
      var i :| 0 <= i < |checks| && checks[i] == c;
      forall n ensures Uses(RuleArgs(r), n) >= Uses(c.args, n) {
        UsesOfCall(CallsOf(r), i, n);
      }
      LettersStable(s, t, c.args);
    }
  }

  lemma TypesStable(reg: Registry, s: State, t: State)
    requires TypesSound(reg, s) && t.rules == s.rules && SameTypes(s.vars, t.vars, AllArgs(s.rules))
    ensures TypesSound(reg, t)
  {
    hide Resolve, Uses, RuleSound, AllArgs;
    forall k | 0 <= k < |t.rules| ensures RuleSound(reg, t.vars, t.rules[k]) {
      forall n ensures Uses(AllArgs(s.rules), n) >= Uses(RuleArgs(s.rules[k]), n) {
        UsedInRules(s.rules, k, n);
      }
      RuleSoundStable(reg, s.vars, t.vars, s.rules[k]);
    }
  }

  // ---------------------------------------------------------------------
  // Look-ups
  // ---------------------------------------------------------------------

  /** t has everything s has, with the same values and counts, and perhaps more entries, unreferenced. */
  ghost predicate Grown(s: VarStore, t: VarStore) {
    && s.cache <= t.cache && t.db == s.db
    && (forall i :: |s.cache| <= i < |t.cache| ==> t.cache[i].refs == 0)
    && forall n :: Resolve(t, n) == Resolve(s, n)
  }

  lemma LookedGrown(s: VarStore, n: string)
    requires Coherent(s)
    ensures Coherent(Looked(s, n)) && Grown(s, Looked(s, n))
  {
    hide ReadDb;
    LookedCoherent(s, n);
  }

  lemma {:induction false} PositionGrown(a: seq<DbVar>, b: seq<DbVar>, n: string)
    requires a <= b
    ensures Position(a, n) >= 0 ==> Position(b, n) == Position(a, n)
  {
    if a != [] && a[0].name != n {
      PositionGrown(a[1..], b[1..], n);
    }
  }

  lemma GrownRefs(s: VarStore, t: VarStore, rules: seq<Rule>)
    requires RefsExact(s, rules) && Grown(s, t) && DistinctNames(t.cache)
    ensures RefsExact(t, rules)
  {
    hide Resolve, Uses, AllArgs;
    forall n | Uses(AllArgs(rules), n) > 0 ensures Position(t.cache, n) >= 0 {
      PositionGrown(s.cache, t.cache, n);
    }
    forall i | |s.cache| <= i < |t.cache| ensures Uses(AllArgs(rules), t.cache[i].name) == 0 {
      PositionUnique(t.cache, i);
      PositionGrown(s.cache, t.cache, t.cache[i].name);
    }
  }

  lemma GrownTransitive(s: VarStore, t: VarStore, u: VarStore)
    requires Grown(s, t) && Grown(t, u)
    ensures Grown(s, u)
  {
    hide Resolve;
    forall i | |s.cache| <= i < |u.cache| ensures u.cache[i].refs == 0 {
      if i < |t.cache| {
        assert u.cache[i] == t.cache[i];
      }
    }
  }

  ghost predicate VarsCached(s: VarStore, args: seq<Arg>) {
    forall i :: 0 <= i < |args| && args[i].VarArg? ==> Position(s.cache, args[i].name) >= 0
  }

  lemma CachedGrown(s: VarStore, t: VarStore, args: seq<Arg>)
    requires VarsCached(s, args) && Grown(s, t)
    ensures VarsCached(t, args)
  {
    hide Resolve;
    forall i | 0 <= i < |args| && args[i].VarArg? ensures Position(t.cache, args[i].name) >= 0 {
      PositionGrown(s.cache, t.cache, args[i].name);
    }
  }

  lemma {:induction false} LookArgsGrown(s: VarStore, args: seq<Arg>)
    requires Coherent(s)
    ensures var t := LookArgs(s, args); Coherent(t) && Grown(s, t)
    ensures Letters(s, args).Some? ==> VarsCached(LookArgs(s, args), args)
    decreases |args|
  {
    hide ReadDb;
    if args != [] {
      var a := args[0];
      if !a.VarArg? {
        LookArgsGrown(s, args[1..]);
      } else {
        LookedGrown(s, a.name);
        LookedCoherent(s, a.name);
        var t := Looked(s, a.name);
        if Resolve(s, a.name).Some? {
          LookArgsGrown(t, args[1..]);
          var u := LookArgs(t, args[1..]);
          GrownTransitive(s, t, u);
          PositionGrown(t.cache, u.cache, a.name);
          LettersSame(s, t, args[1..]);
        }
      }
      assert forall i :: 1 <= i < |args| ==> args[i] == args[1..][i - 1];
    }
  }

  lemma {:induction false} LettersSame(s: VarStore, t: VarStore, args: seq<Arg>)
    requires forall n :: Resolve(t, n) == Resolve(s, n)
    ensures Letters(t, args) == Letters(s, args)
  {
    hide Resolve;
    if args != [] {
      LettersSame(s, t, args[1..]);
    }
  }

  lemma {:induction false} LookChecksGrown(s: VarStore, cs: seq<Check>)
    requires Coherent(s)
    ensures var t := LookChecks(s, cs); Coherent(t) && Grown(s, t)
    ensures (forall i :: 0 <= i < |cs| ==> Matches(s, cs[i])) ==>
              forall i :: 0 <= i < |cs| ==> VarsCached(LookChecks(s, cs), cs[i].args)
    decreases |cs|
  {
    hide ReadDb, Resolve, Coherent, LookArgs, Letters, Spaced;
    if cs != [] {
      LookArgsGrown(s, cs[0].args);
      var t := LookArgs(s, cs[0].args);
      if Matches(s, cs[0]) {
        LookChecksGrown(t, cs[1..]);
        var u := LookChecks(t, cs[1..]);
        GrownTransitive(s, t, u);
        CachedGrown(t, u, cs[0].args);
        forall i | 0 <= i < |cs| ensures Matches(t, cs[i]) == Matches(s, cs[i]) {
          LettersSame(s, t, cs[i].args);
        }
        assert forall i :: 1 <= i < |cs| ==> cs[i] == cs[1..][i - 1];
      }
    }
  }

  // ---------------------------------------------------------------------
  // Counting
  // ---------------------------------------------------------------------

  /** Same entries with the same names and values; counts moved by d per use. */
  ghost predicate Counted(s: VarStore, t: VarStore, args: seq<Arg>, d: int) {
    && t.db == s.db && |t.cache| == |s.cache|
    && forall i :: 0 <= i < |s.cache| ==>
         t.cache[i] == s.cache[i].(refs := s.cache[i].refs + d * Uses(args, s.cache[i].name))
  }

  lemma {:induction false} BumpCounts(s: VarStore, args: seq<Arg>, d: int)
    requires DistinctNames(s.cache) && VarsCached(s, args)
    ensures Counted(s, Bump(s, args, d), args, d)
    decreases |args|
  {
    hide ReadDb;
    if args != [] {
      var rest := args[1..];
      assert forall i :: 0 <= i < |rest| ==> rest[i] == args[i + 1];
      if args[0].VarArg? {
        var t := BumpVar(s, args[0].name, d);
        forall n ensures Position(t.cache, n) == Position(s.cache, n) {
          PositionSame(s.cache, t.cache, n);
        }
        BumpCounts(t, rest, d);
        BumpStep(s, t, Bump(t, rest, d), args, d);
      } else {
        BumpCounts(s, rest, d);
      }
    }
  }

  lemma BumpStep(s: VarStore, t: VarStore, u: VarStore, args: seq<Arg>, d: int)
    requires DistinctNames(s.cache) && args != [] && args[0].VarArg?
    requires Position(s.cache, args[0].name) >= 0 && t == BumpVar(s, args[0].name, d)
    requires Counted(t, u, args[1..], d)
    ensures Counted(s, u, args, d)
  {
    var p := Position(s.cache, args[0].name);
    forall i | 0 <= i < |s.cache|
      ensures u.cache[i] == s.cache[i].(refs := s.cache[i].refs + d * Uses(args, s.cache[i].name))
    {
      var n, k := s.cache[i].name, Uses(args[1..], s.cache[i].name);
      assert n == args[0].name <==> i == p;
      assert Uses(args, n) == (if i == p then 1 else 0) + k;
      assert d * (1 + k) == d + d * k;
    }
  }

  lemma CountedCoherent(s: VarStore, t: VarStore, args: seq<Arg>, d: int)
    requires Coherent(s) && Counted(s, t, args, d)
    ensures Coherent(t) && forall n :: Position(t.cache, n) == Position(s.cache, n) && Resolve(t, n) == Resolve(s, n)
  {
    hide ReadDb, ArgText, Uses;
    forall n ensures Position(t.cache, n) == Position(s.cache, n) && Resolve(t, n) == Resolve(s, n) {
      PositionSame(s.cache, t.cache, n);
    }
  }

  lemma {:induction false} ArgsOfCached(s: VarStore, cs: seq<Call>)
    requires forall i :: 0 <= i < |cs| ==> VarsCached(s, cs[i].args)
    ensures VarsCached(s, FlatArgs(cs))
  {
    if cs != [] {
      ArgsOfCached(s, cs[1..]);
    }
  }

  lemma {:induction false} UsedIsNamed(args: seq<Arg>, n: string)
    requires Uses(args, n) > 0
    ensures exists i :: 0 <= i < |args| && args[i] == VarArg(n)
  {
    if args[0] == VarArg(n) {
    } else {
      UsedIsNamed(args[1..], n);
      var i :| 0 <= i < |args[1..]| && args[1..][i] == VarArg(n);
      assert args[i + 1] == VarArg(n);
    }
  }

  // ---------------------------------------------------------------------
  // The listener index
  // ---------------------------------------------------------------------

  lemma {:induction false} IdsForAppend(reg: Registry, a: seq<Condition>, b: seq<Condition>, e: string)
    ensures IdsFor(reg, a + b, e) == IdsFor(reg, a, e) + IdsFor(reg, b, e)
  {
    if a == [] {
      assert a + b == b;
    } else {
      assert (a + b)[1..] == a[1..] + b;
      IdsForAppend(reg, a[1..], b, e);
    }
  }

  lemma {:induction false} RegisterAdds(reg: Registry, l: map<string, seq<nat>>, cs: seq<Condition>, e: string)
    ensures At(Register(reg, l, cs), e) == At(l, e) + IdsFor(reg, cs, e)
    decreases |cs|
  {
    if cs != [] {
      var f := EventOf(reg, cs[0]);
      RegisterAdds(reg, l[f := At(l, f) + [cs[0].id]], cs[1..], e);
    }
  }

  lemma {:induction false} IdsForNamed(reg: Registry, cs: seq<Condition>, e: string, id: nat)
    requires id in IdsFor(reg, cs, e)
    ensures exists i :: 0 <= i < |cs| && cs[i].id == id
  {
    if cs[0].id != id {
      IdsForNamed(reg, cs[1..], e, id);
      var i :| 0 <= i < |cs[1..]| && cs[1..][i].id == id;
      assert cs[i + 1].id == id;
    }
  }

  lemma {:induction false} RemoveIdSplit(x: seq<nat>, id: nat, y: seq<nat>)
    requires id !in x
    ensures RemoveId(x + [id] + y, id) == x + y
  {
    if x == [] {
      assert x + [id] + y == [id] + y;
    } else {
      assert (x + [id] + y)[1..] == x[1..] + [id] + y;
      RemoveIdSplit(x[1..], id, y);
    }
  }

  lemma IdNotBefore(reg: Registry, a: seq<Condition>, cs: seq<Condition>, e: string)
    requires cs != [] && DistinctIds(a + cs)
    ensures cs[0].id !in IdsFor(reg, a, e)
  {
    forall id | id in IdsFor(reg, a, e) ensures id != cs[0].id {
      IdsForNamed(reg, a, e, id);
      var i :| 0 <= i < |a| && a[i].id == id;
      assert (a + cs)[i] == a[i] && (a + cs)[|a|] == cs[0];
    }
  }

  lemma DistinctWithout(a: seq<Condition>, cs: seq<Condition>)
    requires cs != [] && DistinctIds(a + cs)
    ensures DistinctIds(a + cs[1..])
  {
    var short, long := a + cs[1..], a + cs;
    forall i, j | 0 <= i < j < |short| ensures short[i].id != short[j].id {
      var i', j' := if i < |a| then i else i + 1, if j < |a| then j else j + 1;
      assert long[i'] == short[i] && long[j'] == short[j];
    }
  }

  ghost predicate Holds(reg: Registry, l: map<string, seq<nat>>, a: seq<Condition>, cs: seq<Condition>, b: seq<Condition>) {
    forall f :: At(l, f) == IdsFor(reg, a, f) + IdsFor(reg, cs, f) + IdsFor(reg, b, f)
  }

  lemma UnregisterOne(reg: Registry, l: map<string, seq<nat>>, a: seq<Condition>, cs: seq<Condition>, b: seq<Condition>)
    requires cs != [] && DistinctIds(a + cs) && Holds(reg, l, a, cs, b)
    ensures var f := EventOf(reg, cs[0]);
            Holds(reg, l[f := RemoveId(At(l, f), cs[0].id)], a, cs[1..], b)
  {
    hide IdsFor, EventOf, RemoveId;
    var c, rest, f := cs[0], cs[1..], EventOf(reg, cs[0]);
    var l' := l[f := RemoveId(At(l, f), c.id)];
    forall g ensures At(l', g) == IdsFor(reg, a, g) + IdsFor(reg, rest, g) + IdsFor(reg, b, g) {
      var x, y, z := IdsFor(reg, a, g), IdsFor(reg, rest, g), IdsFor(reg, b, g);
      IdsForCons(reg, cs, g);
      if g == f {
        IdNotBefore(reg, a, cs, f);
        RemoveIdSplit(x, c.id, y + z);
        Regroup(x, [c.id], y, z);
        Regroup(x, [], y, z);
      } else {
        assert [] + y == y;
      }
    }
  }

  lemma IdsForCons(reg: Registry, cs: seq<Condition>, e: string)
    requires cs != []
    ensures IdsFor(reg, cs, e) == (if EventOf(reg, cs[0]) == e then [cs[0].id] else []) + IdsFor(reg, cs[1..], e)
  {
  }

  lemma Regroup<T>(x: seq<T>, h: seq<T>, y: seq<T>, z: seq<T>)
    ensures x + (h + y) + z == x + h + (y + z)
  {
    if h == [] {
      assert h + y == y && x + h == x;
    }
  }

  /** Unregistering takes out exactly the ids of the given conditions and keeps the order of the rest. */
  lemma {:induction false} UnregisterRemoves(reg: Registry, l: map<string, seq<nat>>, a: seq<Condition>,
                                             cs: seq<Condition>, b: seq<Condition>, e: string)
    requires DistinctIds(a + cs) && Holds(reg, l, a, cs, b)
    ensures At(Unregister(reg, l, cs), e) == IdsFor(reg, a, e) + IdsFor(reg, b, e)
    decreases |cs|
  {
    if cs == [] {
      assert IdsFor(reg, a, e) + [] == IdsFor(reg, a, e);
    } else {
      var f := EventOf(reg, cs[0]);
      UnregisterOne(reg, l, a, cs, b);
      DistinctWithout(a, cs);
      UnregisterRemoves(reg, l[f := RemoveId(At(l, f), cs[0].id)], a, cs[1..], b, e);
    }
  }

  lemma {:induction false} AllConditionsAppend(a: seq<Rule>, b: seq<Rule>)
    ensures AllConditions(a + b) == AllConditions(a) + AllConditions(b)
  {
    if a == [] {
      assert a + b == b;
    } else {
      assert (a + b)[1..] == a[1..] + b;
      AllConditionsAppend(a[1..], b);
    }
  }

  lemma SplitConditions(rules: seq<Rule>, k: nat)
    requires k < |rules|
    ensures AllConditions(rules) ==
            AllConditions(rules[..k]) + rules[k].conditions + AllConditions(rules[k + 1..])
    ensures AllConditions(rules[..k] + rules[k + 1..]) == AllConditions(rules[..k]) + AllConditions(rules[k + 1..])
  {
    hide AllConditions;
    SplitAt(rules, k);
    JoinConditions(rules[..k], rules[k], rules[k + 1..]);
  }

  lemma SplitAt<T>(s: seq<T>, k: nat)
    requires k < |s|
    ensures s == s[..k] + ([s[k]] + s[k + 1..])
  {
  }

  lemma JoinConditions(a: seq<Rule>, r: Rule, b: seq<Rule>)
    ensures AllConditions(a + ([r] + b)) == AllConditions(a) + r.conditions + AllConditions(b)
    ensures AllConditions(a + b) == AllConditions(a) + AllConditions(b)
  {
    hide AllConditions;
    AllConditionsAppend(a, [r] + b);
    AllConditionsAppend(a, b);
    AllConditionsCons(r, b);
    Reassociate(AllConditions(a), r.conditions, AllConditions(b));
  }

  lemma Reassociate<T>(x: seq<T>, y: seq<T>, z: seq<T>)
    ensures x + (y + z) == x + y + z
  {
  }

  lemma AllConditionsCons(r: Rule, rules: seq<Rule>)
    ensures AllConditions([r] + rules) == r.conditions + AllConditions(rules)
  {
    assert ([r] + rules)[1..] == rules;
  }

  lemma SplitUses(rules: seq<Rule>, k: nat, n: string)
    requires k < |rules|
    ensures Uses(AllArgs(rules), n) ==
            Uses(AllArgs(rules[..k] + rules[k + 1..]), n) + Uses(RuleArgs(rules[k]), n)
  {
    hide FlatArgs, CallsOf;
    var a, r, b := rules[..k], rules[k], rules[k + 1..];
    AllArgsAppend(a, [r] + b, n);
    AllArgsAppend(a, b, n);
    UsesAppend(RuleArgs(r), AllArgs(b), n);
    assert rules == a + ([r] + b);
    assert ([r] + b)[1..] == b;
  }

  // ---------------------------------------------------------------------
  // The operations
  // ---------------------------------------------------------------------

  lemma LookUpInv(reg: Registry, s: State, name: string)
    requires Inv(reg, s)
    ensures Inv(reg, s.(vars := Looked(s.vars, name)))
  {
    hide ReadDb, Uses, AllArgs, RuleSound, IdsFor, AllConditions;
    var t := s.(vars := Looked(s.vars, name));
    LookedGrown(s.vars, name);
    GrownRefs(s.vars, t.vars, s.rules);
    TypesStable(reg, s, t);
  }

  // A new, unused entry, or another value in an old one, leaves the counts exact.
  lemma RefsAppend(s: VarStore, t: VarStore, rules: seq<Rule>)
    requires RefsExact(s, rules) && DistinctNames(t.cache) && |t.cache| == |s.cache| + 1
    requires t.cache[..|s.cache|] == s.cache && t.cache[|s.cache|].refs == 0
    ensures RefsExact(t, rules)
  {
    hide Uses, AllArgs;
    assert s.cache <= t.cache;
    forall n ensures Position(s.cache, n) >= 0 ==> Position(t.cache, n) == Position(s.cache, n) {
      PositionGrown(s.cache, t.cache, n);
    }
    PositionUnique(t.cache, |s.cache|);
  }

  lemma RefsOverwrite(s: VarStore, t: VarStore, rules: seq<Rule>)
    requires RefsExact(s, rules) && |t.cache| == |s.cache|
    requires forall i :: 0 <= i < |s.cache| ==> t.cache[i].name == s.cache[i].name && t.cache[i].refs == s.cache[i].refs
    ensures RefsExact(t, rules)
  {
    hide Uses, AllArgs;
    forall n ensures Position(t.cache, n) == Position(s.cache, n) {
      PositionSame(s.cache, t.cache, n);
    }
  }

  lemma AddedRefs(s: VarStore, name: string, v: Arg, rules: seq<Rule>)
    requires Coherent(s) && IsIdentifier(name) && IsLiteral(v) && RefsExact(s, rules)
    ensures RefsExact(AddVar(s, name, v), rules)
  {
    hide ReadDb, Uses, AllArgs, ArgText, RefsExact, Coherent, Resolve, Looked, AddOutcome;
    LookedGrown(s, name);
    var t, u := Looked(s, name), AddVar(s, name, v);
    CoherentDistinct(t);
    GrownRefs(s, t, rules);
    if AddOutcome(s, name, v) == Added {
      AddCoherent(s, name, v);
      CoherentDistinct(u);
      RefsAppend(t, u, rules);
    } else {
      RefsOverwrite(t, u, rules);
    }
  }

  lemma DefineVarInv(reg: Registry, s: State, name: string, v: Arg)
    requires Inv(reg, s) && IsIdentifier(name) && IsLiteral(v)
    ensures Inv(reg, s.(vars := AddVar(s.vars, name, v)))
  {
    hide ReadDb, Uses, AllArgs, RuleSound, IdsFor, AllConditions, AddVar, Looked;
    var t := s.(vars := AddVar(s.vars, name, v));
    AddCoherent(s.vars, name, v);
    AddedRefs(s.vars, name, v, s.rules);
    forall n ensures Resolve(s.vars, n).Some? ==>
                       Resolve(t.vars, n).Some?
                       && TypeLetter(Resolve(t.vars, n).value) == TypeLetter(Resolve(s.vars, n).value)
    {
      AddVarEffect(s.vars, name, v, n);
    }
    TypesStable(reg, s, t);
  }

  lemma RemovedRefs(s: VarStore, name: string, rules: seq<Rule>)
    requires Coherent(s) && RefsExact(s, rules)
    ensures RefsExact(DeleteVar(s, name), rules)
  {
    hide Uses, AllArgs, ReadDb, ArgText;
    if CanDelete(s, name) {
      var t, p := DeleteVar(s, name), Position(s.cache, name);
      assert forall i :: 0 <= i < |t.cache| ==> t.cache[i] == s.cache[if i < p then i else i + 1];
      forall n | Uses(AllArgs(rules), n) > 0 ensures Position(t.cache, n) >= 0 {
        var q := Position(s.cache, n);
        assert q != p;
        assert t.cache[if q < p then q else q - 1].name == n;
      }
    }
  }

  lemma RemoveVarInv(reg: Registry, s: State, name: string)
    requires Inv(reg, s)
    ensures Inv(reg, s.(vars := PolicyVars.DeleteVar(s.vars, name)))
  {
    hide ReadDb, Uses, AllArgs, RuleSound, IdsFor, AllConditions;
    var t := s.(vars := PolicyVars.DeleteVar(s.vars, name));
    DeleteCoherent(s.vars, name);
    RemovedRefs(s.vars, name, s.rules);
    forall n | Uses(AllArgs(s.rules), n) > 0 ensures Resolve(t.vars, n) == Resolve(s.vars, n) {
      DeleteVarEffect(s.vars, name, n);
    }
    TypesStable(reg, s, t);
  }

  lemma DeletedIndex(reg: Registry, s: State, k: nat)
    requires IndexExact(reg, s) && IdsFresh(s) && k < |s.rules|
    ensures IndexExact(reg, DeleteAt(reg, s, k)) && IdsFresh(DeleteAt(reg, s, k))
  {
    hide Bump, RuleArgs, IdsFor, AllConditions, Unregister;
    var t := DeleteAt(reg, s, k);
    var a, cs, b := AllConditions(s.rules[..k]), s.rules[k].conditions, AllConditions(s.rules[k + 1..]);
    SplitConditions(s.rules, k);
    assert forall i :: 0 <= i < |a + cs| ==> (a + cs)[i] == AllConditions(s.rules)[i];
    forall f ensures At(s.listeners, f) == IdsFor(reg, a, f) + IdsFor(reg, cs, f) + IdsFor(reg, b, f) {
      IdsForAppend(reg, a + cs, b, f);
      IdsForAppend(reg, a, cs, f);
    }
    forall e ensures At(t.listeners, e) == IdsFor(reg, AllConditions(t.rules), e) {
      UnregisterRemoves(reg, s.listeners, a, cs, b, e);
      IdsForAppend(reg, a, b, e);
    }
    forall i | 0 <= i < |a + b| ensures (a + b)[i] == AllConditions(s.rules)[if i < |a| then i else i + |cs|] {
    }
  }

  lemma DeletedRefs(reg: Registry, s: State, k: nat)
    requires Coherent(s.vars) && RefsExact(s.vars, s.rules) && k < |s.rules|
    ensures var t := DeleteAt(reg, s, k);
            && Coherent(t.vars) && RefsExact(t.vars, t.rules)
            && forall n :: Resolve(t.vars, n) == Resolve(s.vars, n)
  {
    hide ReadDb, AllArgs, RuleArgs, Unregister, Bump, Coherent, Uses;
    var t, args := DeleteAt(reg, s, k), RuleArgs(s.rules[k]);
    assert DistinctNames(s.vars.cache) by { CoherentDistinct(s.vars); }
    assert VarsCached(s.vars, args) by {
      forall i | 0 <= i < |args| && args[i].VarArg? ensures Position(s.vars.cache, args[i].name) >= 0 {
        UsedInArgs(args, i);
        UsedInRules(s.rules, k, args[i].name);
      }
    }
    BumpCounts(s.vars, args, -1);
    CountedCoherent(s.vars, t.vars, args, -1);
    forall n ensures Uses(AllArgs(s.rules), n) == Uses(AllArgs(t.rules), n) + Uses(args, n) {
      SplitUses(s.rules, k, n);
    }
  }

  lemma CoherentDistinct(s: VarStore)
    requires Coherent(s)
    ensures DistinctNames(s.cache)
  {
  }

  lemma DeleteAtInv(reg: Registry, s: State, k: nat)
    requires Inv(reg, s) && k < |s.rules|
    ensures Inv(reg, DeleteAt(reg, s, k))
  {
    hide ReadDb, Uses, AllArgs, RuleSound, IdsFor, AllConditions, Bump, Unregister, Resolve, RuleArgs, Coherent;
    var t := DeleteAt(reg, s, k);
    DeletedIndex(reg, s, k);
    DeletedRefs(reg, s, k);
    forall i | 0 <= i < |t.rules|
      ensures t.rules[i] == s.rules[if i < k then i else i + 1] && RuleSound(reg, t.vars, t.rules[i])
    {
      RuleSoundStable(reg, s.vars, t.vars, t.rules[i]);
    }
  }

  lemma {:induction false} DeleteAllInv(reg: Registry, s: State)
    requires Inv(reg, s)
    ensures Inv(reg, DeleteAll(reg, s)) && DeleteAll(reg, s).rules == []
    decreases |s.rules|
  {
    hide Inv, DeleteAt;
    if s.rules != [] {
      DeleteAtInv(reg, s, 0);
      DeleteAtLength(reg, s);
      DeleteAllInv(reg, DeleteAt(reg, s, 0));
    }
  }

  lemma DeleteAtLength(reg: Registry, s: State)
    requires s.rules != []
    ensures |DeleteAt(reg, s, 0).rules| < |s.rules|
  {
  }

  // ---------------------------------------------------------------------
  // apply_rule
  // ---------------------------------------------------------------------

  lemma AppliedIds(s: State, cs: seq<Condition>, calls: seq<Call>)
    requires IdsFresh(s) && cs == NewConditions(calls, s.nextId)
    ensures DistinctIds(AllConditions(s.rules) + cs)
    ensures forall i :: 0 <= i < |AllConditions(s.rules) + cs| ==>
              (AllConditions(s.rules) + cs)[i].id < s.nextId + |cs|
  {
    hide AllConditions;
  }

  lemma AppliedIndex(reg: Registry, s: State, name: string, fns: RuleFns)
    requires IndexExact(reg, s) && IdsFresh(s)
    ensures IndexExact(reg, Apply(reg, s, name, fns)) && IdsFresh(Apply(reg, s, name, fns))
  {
    hide AllConditions, IdsFor, Register, Unregister, Bump, RuleArgs, Validate, VarsAfterValidate,
         KnownConditions, KnownActions;
    var r, t := Built(reg, s, name, fns), Apply(reg, s, name, fns);
    var a, cs := AllConditions(s.rules), r.conditions;
    var l := Register(reg, s.listeners, cs);
    AppliedIds(s, cs, KnownConditions(reg, fns.conditions));
    forall e ensures At(l, e) == IdsFor(reg, a, e) + IdsFor(reg, cs, e) {
      RegisterAdds(reg, s.listeners, cs, e);
    }
    if Validate(reg, s, r) == RuleValid {
      AllConditionsAppend(s.rules, [r]);
      AllConditionsCons(r, []);
      assert [r] + [] == [r] && r.conditions + AllConditions([]) == r.conditions by { NoConditionsLeft(); }
      forall e ensures At(l, e) == IdsFor(reg, AllConditions(t.rules), e) {
        IdsForAppend(reg, a, cs, e);
      }
    } else {
      assert forall e :: IdsFor(reg, a, e) + IdsFor(reg, cs, e) + IdsFor(reg, [], e) ==
                         IdsFor(reg, a, e) + IdsFor(reg, cs, e) by { NoIdsLeft(reg); }
      forall e ensures At(t.listeners, e) == IdsFor(reg, a, e) {
        UnregisterRemoves(reg, l, a, cs, [], e);
        NoIdsLeft(reg);
        assert IdsFor(reg, a, e) + IdsFor(reg, [], e) == IdsFor(reg, a, e);
      }
    }
  }

  lemma NoConditionsLeft()
    ensures AllConditions([]) == []
  {
  }

  lemma NoIdsLeft(reg: Registry)
    ensures forall e :: IdsFor(reg, [], e) == []
  {
  }

  lemma ValidatedVars(reg: Registry, s: State, r: Rule)
    requires Coherent(s.vars) && RefsExact(s.vars, s.rules)
    ensures var v := VarsAfterValidate(reg, s, r);
            && Coherent(v) && Grown(s.vars, v) && RefsExact(v, s.rules)
            && (Validate(reg, s, r) == RuleValid ==> VarsCached(v, RuleArgs(r)))
  {
    hide LookChecks, Resolve, Uses, AllArgs, FlatArgs;
    var v, checks := VarsAfterValidate(reg, s, r), Checks(reg, r);
    LookChecksGrown(s.vars, checks);
    GrownRefs(s.vars, v, s.rules);
    if Validate(reg, s, r) == RuleValid {
      forall i | 0 <= i < |CallsOf(r)| ensures VarsCached(v, CallsOf(r)[i].args) {
        assert checks[i].args == CallsOf(r)[i].args;
      }
      ArgsOfCached(v, CallsOf(r));
    }
  }

  lemma AppliedRefs(v: VarStore, rules: seq<Rule>, r: Rule)
    requires Coherent(v) && RefsExact(v, rules) && VarsCached(v, RuleArgs(r))
    ensures var t := Bump(v, RuleArgs(r), 1);
            && Coherent(t) && RefsExact(t, rules + [r])
            && forall n :: Resolve(t, n) == Resolve(v, n)
  {
    hide ReadDb, AllArgs, RuleArgs, Bump, Coherent, Uses, ArgText;
    var t, args := Bump(v, RuleArgs(r), 1), RuleArgs(r);
    CoherentDistinct(v);
    BumpCounts(v, args, 1);
    CountedCoherent(v, t, args, 1);
    forall n ensures Uses(AllArgs(rules + [r]), n) == Uses(AllArgs(rules), n) + Uses(args, n) {
      SplitUses(rules + [r], |rules|, n);
      assert (rules + [r])[..|rules|] + (rules + [r])[|rules| + 1..] == rules;
    }
    forall n | Uses(args, n) > 0 ensures Position(t.cache, n) >= 0 {
      UsedIsNamed(args, n);
    }
  }

  lemma AppliedTypes(reg: Registry, s: State, r: Rule, t: State)
    requires TypesSound(reg, s) && Validate(reg, s, r) == RuleValid
    requires forall i :: 0 <= i < |r.conditions| ==> r.conditions[i].call.name in reg.conditions
    requires forall i :: 0 <= i < |r.actions| ==> r.actions[i].name in reg.actions
    requires forall i :: 0 <= i < |r.undos| ==> r.undos[i].name in reg.actions
    requires t.rules == s.rules + [r] && forall n :: Resolve(t.vars, n) == Resolve(s.vars, n)
    ensures TypesSound(reg, t)
  {
    hide Resolve, Matches, Uses, RuleArgs;
    assert RuleSound(reg, s.vars, r);
    forall k | 0 <= k < |t.rules| ensures RuleSound(reg, t.vars, t.rules[k]) {
      RuleSoundStable(reg, s.vars, t.vars, t.rules[k]);
    }
  }

  lemma AppliedProper(reg: Registry, s: State, r: Rule)
    requires RulesProper(s.rules) && Validate(reg, s, r) == RuleValid
    ensures RulesProper(s.rules + [r])
  {
    hide Matches, Checks;
    assert !NameTaken(s.rules, r.name);
  }

  lemma ApplyInv(reg: Registry, s: State, name: string, fns: RuleFns)
    requires Inv(reg, s)
    ensures Inv(reg, Apply(reg, s, name, fns))
  {
    hide Coherent, RefsExact, IndexExact, IdsFresh, TypesSound, RulesProper, Register, Unregister, Bump, Validate,
         VarsAfterValidate, RuleArgs, Resolve;
    var r, t := Built(reg, s, name, fns), Apply(reg, s, name, fns);
    var v := VarsAfterValidate(reg, s, r);
    AppliedIndex(reg, s, name, fns);
    ValidatedVars(reg, s, r);
    if Validate(reg, s, r) == RuleValid {
      AppliedRefs(v, s.rules, r);
      AppliedTypes(reg, s, r, t);
      AppliedProper(reg, s, r);
    } else {
      SoundAfterLook(reg, s, t);
    }
  }

  /** Applying a rule changes no variable's value. */
  lemma AppliedValues(reg: Registry, s: State, name: string, fns: RuleFns, n: string)
    requires Inv(reg, s)
    ensures Resolve(Apply(reg, s, name, fns).vars, n) == Resolve(s.vars, n)
  {
    hide Coherent, RefsExact, IndexExact, IdsFresh, TypesSound, RulesProper, Register, Unregister, Bump, Validate,
         VarsAfterValidate, RuleArgs, Resolve, KnownConditions, KnownActions;
    var r := Built(reg, s, name, fns);
    ValidatedVars(reg, s, r);
    if Validate(reg, s, r) == RuleValid {
      AppliedRefs(VarsAfterValidate(reg, s, r), s.rules, r);
    }
  }

  lemma SoundAfterLook(reg: Registry, s: State, t: State)
    requires TypesSound(reg, s) && t.rules == s.rules && Grown(s.vars, t.vars)
    ensures TypesSound(reg, t)
  {
    hide Resolve, Uses, RuleSound;
    TypesStable(reg, s, t);
  }

  // ---------------------------------------------------------------------
  // Whole runs
  // ---------------------------------------------------------------------

  lemma ClearInv(reg: Registry, s: State)
    requires Inv(reg, s) && s.rules == []
    ensures Inv(reg, s.(vars := VarStore([], map[])))
  {
  }

  lemma PerformInv(reg: Registry, s: State, op: Op)
    requires Inv(reg, s) && WellFormedOp(op)
    ensures Inv(reg, Perform(reg, s, op))
  {
    hide Inv, Apply, DeleteAt, DeleteAll, AddVar, DeleteVar, Looked, IsLiteral, IsIdentifier;
    match op
    case ApplyRule(name, fns) => ApplyInv(reg, s, name, fns);
    case DeleteRule(name) =>
      var k := RulePosition(s.rules, name);
      if k >= 0 {
        DeleteAtInv(reg, s, k);
      }
    case ClearRules => DeleteAllInv(reg, s);
    case DefineVar(name, value) => DefineVarInv(reg, s, name, value);
    case RemoveVar(name) => RemoveVarInv(reg, s, name);
    case LookUp(name) => LookUpInv(reg, s, name);
    case ClearPolicy =>
      DeleteAllInv(reg, s);
      ClearInv(reg, DeleteAll(reg, s));
  }

  lemma InitInv(reg: Registry, s: State)
    requires Init(s)
    ensures Inv(reg, s)
  {
  }

  /** The invariant holds in every state that any sequence of operations reaches. */
  lemma {:induction false} RunInv(reg: Registry, s: State, ops: seq<Op>)
    requires Init(s) && forall i :: 0 <= i < |ops| ==> WellFormedOp(ops[i])
    ensures Inv(reg, RunOps(reg, s, ops))
    decreases |ops|
  {
    hide Inv, Perform, Init, WellFormedOp;
    if ops == [] {
      InitInv(reg, s);
    } else {
      var last := |ops| - 1;
      RunInv(reg, s, ops[..last]);
      PerformInv(reg, RunOps(reg, s, ops[..last]), ops[last]);
    }
  }

  /**
    Deleting a variable succeeds if and only if it is cached and no loaded rule names it;
    then it is gone from the DB and no longer resolves.
   */
  lemma RemoveVarIff(reg: Registry, s: State, name: string)
    requires Inv(reg, s)
    ensures var t := Perform(reg, s, RemoveVar(name));
            var removed := Position(s.vars.cache, name) >= 0 && Uses(AllArgs(s.rules), name) == 0;
            && (CanDelete(s.vars, name) <==> removed)
            && (removed ==> name !in t.vars.db && Resolve(t.vars, name) == None)
            && (!removed ==> t == s)
            && forall n :: n != name ==> Resolve(t.vars, n) == Resolve(s.vars, n)
  {
    hide ReadDb, ArgText, AllArgs, TypesSound, IndexExact, Resolve, IsLiteral;
    forall n ensures n != name ==> Resolve(Perform(reg, s, RemoveVar(name)).vars, n) == Resolve(s.vars, n) {
      DeleteVarEffect(s.vars, name, n);
    }
    DeleteVarEffect(s.vars, name, name);
  }

  /** Clearing the policy leaves no rule, no listener, no cached variable and no DB entry. */
  lemma ClearPolicyEmpties(reg: Registry, s: State)
    requires Inv(reg, s)
    ensures var t := Perform(reg, s, ClearPolicy);
            && t.rules == [] && t.vars.cache == [] && t.vars.db == map[]
            && forall e :: At(t.listeners, e) == []
  {
    hide Coherent, RefsExact, TypesSound, RulesProper, IdsFresh;
    DeleteAllInv(reg, s);
  }

  /** Clearing the rules leaves no rule and no listener, and every variable as it was. */
  lemma {:induction false} ClearRulesEmpties(reg: Registry, s: State)
    requires Inv(reg, s)
    ensures var t := Perform(reg, s, ClearRules);
            && t.rules == [] && (forall e :: At(t.listeners, e) == [])
            && forall n :: Resolve(t.vars, n) == Resolve(s.vars, n)
    decreases |s.rules|
  {
    hide DeleteAt, Resolve, Coherent, RefsExact, TypesSound, RulesProper, IdsFresh;
    if s.rules != [] {
      DeletedRefs(reg, s, 0);
      DeleteAtInv(reg, s, 0);
      DeleteAtLength(reg, s);
      ClearRulesEmpties(reg, DeleteAt(reg, s, 0));
    }
  }

  /** Deleting a rule takes out the one of that name, if any, keeps the others in order and changes no variable. */
  lemma DeleteRuleEffect(reg: Registry, s: State, name: string, k: nat)
    requires Inv(reg, s) && k < |s.rules| && s.rules[k].name == name
    ensures var t := Perform(reg, s, PolicyRules.DeleteRule(name));
            t.rules == s.rules[..k] + s.rules[k + 1..] && forall n :: Resolve(t.vars, n) == Resolve(s.vars, n)
  {
    hide Resolve, Coherent, RefsExact, TypesSound, IndexExact, IdsFresh, Bump, Unregister, RuleArgs;
    assert RulePosition(s.rules, name) == k;
    DeletedRefs(reg, s, k);
  }

  lemma DeleteUnknownRule(reg: Registry, s: State, name: string)
    requires !NameTaken(s.rules, name)
    ensures Perform(reg, s, PolicyRules.DeleteRule(name)) == s
  {
  }

  /** A variable that some loaded rule names is never deleted. */
  lemma UsedVarIsKept(reg: Registry, s: State, name: string)
    requires Inv(reg, s) && Uses(AllArgs(s.rules), name) > 0
    ensures !CanDelete(s.vars, name) && PolicyVars.DeleteVar(s.vars, name) == s.vars
  {
  }

  /** xcpmd_clear_vars as the code has it: the cache and the DB go, whatever the counts say. */
  function ClearVars(s: State): State {
    s.(vars := VarStore([], map[]))
  }

  ghost predicate NoVarUsed(rules: seq<Rule>) {
    forall n :: Uses(AllArgs(rules), n) == 0
  }

  /**
    Clearing the variables keeps the invariant exactly when no loaded rule names a
    variable; its comment promises that referenced variables would be left alone.
   */
  lemma ClearVarsKeepsInvIff(reg: Registry, s: State)
    requires Inv(reg, s)
    ensures Inv(reg, ClearVars(s)) <==> NoVarUsed(s.rules)
  {
    hide RuleSound, IdsFor, AllConditions;
    var t := ClearVars(s);
    if NoVarUsed(s.rules) {
      TypesStable(reg, s, t);
      assert RefsExact(t.vars, t.rules) && Coherent(t.vars);
      assert Inv(reg, t);
    } else {
      var n :| Uses(AllArgs(s.rules), n) != 0;
      assert Position(t.vars.cache, n) < 0;
      assert !RefsExact(t.vars, t.rules);
    }
  }
}
