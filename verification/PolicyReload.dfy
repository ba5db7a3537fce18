/**
  Persistence: rules that are stored, deleted and reloaded from their stored form come
  back as they were (the path xcpmd_load_policy_from_db takes through
  xcpmd/src/db-helper.c, xcpmd/src/parser.c and xcpmd/src/rules.c).
 */
module PolicyReload {
  import opened Options
  import opened PolicyTypes
  import opened PolicyParser
  import opened PolicyPrinter
  import opened PolicyRoundTrip
  import opened PolicyReparse
  import opened PolicyVars
  import opened PolicyRules
  import opened PolicyInvariant

  /** What write_db_rule stores of a rule. */
  function Stored(r: Rule): RuleCalls {
    RuleCalls(seq(|r.conditions|, i requires 0 <= i < |r.conditions| => r.conditions[i].call), r.actions, r.undos)
  }

  /** The variables the parser can resolve. */
  function KnownVars(s: VarStore): map<string, char> {
    map n | n in s.db :: match Resolve(s, n) { case Some(v) => TypeLetter(v) case None => 'n' }
  }

  /** parse_db_rules for one stored rule: tree to text, text to calls, calls to rule. */
  function Reload(reg: Registry, s: State, name: string, j: Json): Option<State> {
    match RuleTextOf(j)
    case None => None
    case Some(t) =>
      if !(IsCString(t.conditions) && IsCString(t.actions) && IsCString(t.undos)) then None else
      match ParseRule(t, KnownVars(s.vars))
      case None => None
      case Some(fns) => Some(Apply(reg, s, name, fns))
  }

  lemma {:induction false} KnownConditionsInvert(reg: Registry, cs: seq<Call>)
    requires forall i :: 0 <= i < |cs| ==> cs[i].name in reg.conditions
    ensures KnownConditions(reg, Listed(ForConditions, cs)) == cs
  {
    if cs != [] {
      var fs := Listed(ForConditions, cs);
      assert fs[1..] == Listed(ForConditions, cs[1..]);
      KnownConditionsInvert(reg, cs[1..]);
    }
  }

  lemma {:induction false} KnownActionsInvert(reg: Registry, t: Target, cs: seq<Call>)
    requires forall i :: 0 <= i < |cs| ==> cs[i].name in reg.actions && !cs[i].inverted
    ensures KnownActions(reg, Listed(t, cs)) == cs
  {
    if cs != [] {
      var fs := Listed(t, cs);
      assert fs[1..] == Listed(t, cs[1..]);
      KnownActionsInvert(reg, t, cs[1..]);
    }
  }

  /** Every type that a sound rule uses is still known, so nothing is omitted. */
  lemma NothingOmitted(reg: Registry, v: VarStore, r: Rule)
    requires RuleSound(reg, v, r) && Storable(Stored(r))
    ensures var q := RoundedRule(Stored(r));
            var f := FnsOf(q);
            && KnownConditions(reg, f.conditions) == q.conditions
            && KnownActions(reg, f.actions) == q.actions && KnownActions(reg, f.undos) == q.undos
  {
    hide Matches, Checks, Listed, KnownConditions, KnownActions, WritableCalls;
    var q := RoundedRule(Stored(r));
    assert forall i :: 0 <= i < |q.conditions| ==> q.conditions[i].name == r.conditions[i].call.name;
    KnownConditionsInvert(reg, q.conditions);
    KnownActionsInvert(reg, ForActions, q.actions);
    KnownActionsInvert(reg, ForUndos, q.undos);
  }

  /** The rebuilt rule equals the stored one except for the addresses of its conditions and the rounding of floats. */
  lemma BuiltAgain(reg: Registry, s: State, v: VarStore, r: Rule)
    requires RuleSound(reg, v, r) && Storable(Stored(r))
    ensures var b := Built(reg, s, r.name, FnsOf(RoundedRule(Stored(r))));
            b.name == r.name && Stored(b) == RoundedRule(Stored(r))
  {
    hide Matches, KnownConditions, KnownActions, FnsOf, RuleSound, Storable, RoundedRule;
    var q := RoundedRule(Stored(r));
    var b := Built(reg, s, r.name, FnsOf(q));
    NothingOmitted(reg, v, r);
    assert Stored(b).conditions == q.conditions;
  }

  lemma {:induction false} LettersRounded(s: VarStore, args: seq<Arg>)
    ensures Letters(s, RoundedArgs(args)) == Letters(s, args)
  {
    hide Resolve, Micros;
    if args != [] {
      assert RoundedArgs(args)[1..] == RoundedArgs(args[1..]);
      LettersRounded(s, args[1..]);
    }
  }

  lemma ChecksAgain(reg: Registry, s: VarStore, b: Rule, r: Rule, i: nat)
    requires Stored(b) == RoundedRule(Stored(r)) && i < |CallsOf(b)|
    ensures |CallsOf(r)| == |CallsOf(b)| && Matches(s, Checks(reg, b)[i]) == Matches(s, Checks(reg, r)[i])
  {
    hide Letters, Spaced, Rounded;
    assert |b.conditions| == |Stored(b).conditions| == |r.conditions|;
    assert forall j :: 0 <= j < |b.conditions| ==> b.conditions[j].call == Stored(b).conditions[j];
    assert b.actions == RoundedCalls(r.actions) && b.undos == RoundedCalls(r.undos);
    var c, d := CallsOf(b)[i], CallsOf(r)[i];
    assert c == d.(args := RoundedArgs(d.args));
    LettersRounded(s, d.args);
  }

  lemma {:induction false} LettersResolve(s: VarStore, args: seq<Arg>, j: nat)
    requires Letters(s, args).Some? && j < |args| && args[j].VarArg?
    ensures Resolve(s, args[j].name).Some?
  {
    hide Resolve;
    if j > 0 {
      LettersResolve(s, args[1..], j - 1);
    }
  }

  lemma RuleVarsKnown(reg: Registry, s: VarStore, r: Rule)
    requires Coherent(s) && RuleSound(reg, s, r)
    ensures VarsKnown(KnownVars(s), Stored(r))
  {
    hide Coherent, Letters, Spaced, ReadDb, Resolve;
    var c := Stored(r);
    var calls := c.conditions + c.actions + c.undos;
    assert calls == CallsOf(r);
    forall i, j | 0 <= i < |calls| && 0 <= j < |calls[i].args| && calls[i].args[j].VarArg?
      ensures calls[i].args[j].name in KnownVars(s)
    {
      var check := Checks(reg, r)[i];
      assert check in Checks(reg, r) && Matches(s, check);
      LettersResolve(s, check.args, j);
      CacheAgreesWithDb(s, calls[i].args[j].name);
    }
  }

  lemma ValidAgain(reg: Registry, s: State, b: Rule, r: Rule)
    requires RuleSound(reg, s.vars, r) && r.name != "" && !NameTaken(s.rules, r.name)
    requires r.conditions != [] && (r.actions != [] || r.undos != [])
    requires b.name == r.name && Stored(b) == RoundedRule(Stored(r))
    ensures Validate(reg, s, b) == RuleValid
  {
    hide Matches, Checks;
    assert |Stored(b).conditions| == |b.conditions| && |Stored(r).conditions| == |r.conditions|;
    assert |b.actions| == |r.actions| && |b.undos| == |r.undos|;
    forall i | 0 <= i < |Checks(reg, b)| ensures Matches(s.vars, Checks(reg, b)[i]) {
      ChecksAgain(reg, s.vars, b, r, i);
      assert Checks(reg, r)[i] in Checks(reg, r);
    }
  }

  /** A rule that could be loaded again under its name: sound, named, with conditions and something to do. */
  ghost predicate Loadable(reg: Registry, v: VarStore, r: Rule) {
    && RuleSound(reg, v, r) && Storable(Stored(r))
    && r.name != "" && r.conditions != [] && (r.actions != [] || r.undos != [])
  }

  /** The same rule, but for the addresses of its conditions, with six decimals of its floats. */
  ghost predicate SameRule(b: Rule, r: Rule) {
    b.name == r.name && Stored(b) == RoundedRule(Stored(r))
  }

  /** Reloading one stored rule succeeds, appends the same rule and changes no variable. */
  lemma ReloadOne(reg: Registry, s: State, r: Rule)
    requires Inv(reg, s) && Loadable(reg, s.vars, r) && !NameTaken(s.rules, r.name)
    ensures var u := Reload(reg, s, r.name, RuleJson(Stored(r)));
            && u.Some? && Inv(reg, u.value)
            && |u.value.rules| == |s.rules| + 1 && u.value.rules[..|s.rules|] == s.rules
            && SameRule(u.value.rules[|s.rules|], r)
            && forall n :: Resolve(u.value.vars, n) == Resolve(s.vars, n)
  {
    hide Storable, RuleTextOf, RuleJson, ParseRule, KnownVars, Stored, FnsOf, Coherent, RuleSound, NameTaken,
         VarsKnown, RoundedRule, IndexExact, IdsFresh, RefsExact, Validate, VarsAfterValidate, Bump, Register,
         Unregister, RuleArgs, KnownConditions, KnownActions, Resolve, TypesSound, RulesProper;
    var fns := FnsOf(RoundedRule(Stored(r)));
    var b := Built(reg, s, r.name, fns);
    RuleVarsKnown(reg, s.vars, r);
    RuleRoundTrip(Stored(r), KnownVars(s.vars));
    BuiltAgain(reg, s, s.vars, r);
    ValidAgain(reg, s, b, r);
    ApplyInv(reg, s, r.name, fns);
    ValidatedVars(reg, s, b);
    AppliedRefs(VarsAfterValidate(reg, s, b), s.rules, b);
  }

  // ---------------------------------------------------------------------
  // The variables
  // ---------------------------------------------------------------------

  /** The names are those of the DB, in some order. */
  ghost predicate NamesOfDb(names: seq<string>, db: map<string, string>) {
    forall n :: n in names <==> n in db
  }

  /** No cached float has more than six decimals. */
  ghost predicate CacheExact(s: VarStore) {
    forall i :: 0 <= i < |s.cache| ==> Rounded(s.cache[i].value) == s.cache[i].value
  }

  /** parse_db_vars: every entry of the DB is parsed and handed to add_var. */
  function LoadVars(s: VarStore, db: map<string, string>, names: seq<string>): VarStore {
    if names == [] then s else
    var last := |names| - 1;
    var t := LoadVars(s, db, names[..last]);
    match ReadDb(db, names[last])
    case Some(v) => AddVar(t, names[last], v)
    case None => t
  }

  lemma RoundedLetter(a: Arg)
    ensures TypeLetter(Rounded(a)) == TypeLetter(a)
  {
    hide Micros;
  }

  /** Defining a variable as its own DB entry spells it leaves the DB and all other variables alone. */
  lemma LoadOne(s: VarStore, name: string, n: string)
    requires Coherent(s) && name in s.db
    ensures ReadDb(s.db, name).Some?
    ensures var t := AddVar(s, name, ReadDb(s.db, name).value);
            && IsIdentifier(name) && IsLiteral(ReadDb(s.db, name).value) && Coherent(t) && t.db == s.db
            && Resolve(t, n) == if n == name then ReadDb(s.db, name) else Resolve(s, n)
  {
    hide ReadDb, ArgText, IsLiteral, Rounded, Resolve, Looked;
    CacheAgreesWithDb(s, name);
    var w := Resolve(s, name).value;
    RoundedLiteral(w);
    RoundedLetter(w);
    LookedCoherent(s, name);
    AddCoherent(s, name, Rounded(w));
    AddVarEffect(s, name, Rounded(w), n);
  }

  lemma {:induction false} LoadVarsReads(s: VarStore, names: seq<string>)
    requires Coherent(s) && forall n :: n in names ==> n in s.db
    ensures var t := LoadVars(s, s.db, names);
            && Coherent(t) && t.db == s.db
            && forall n :: Resolve(t, n) == if n in names then ReadDb(s.db, n) else Resolve(s, n)
    decreases |names|
  {
    hide ReadDb, Coherent, Resolve, AddVar, IsLiteral, IsIdentifier;
    if names != [] {
      var last := |names| - 1;
      var t := LoadVars(s, s.db, names[..last]);
      LoadVarsReads(s, names[..last]);
      LoadOne(t, names[last], names[last]);
      assert forall n :: n in names <==> n in names[..last] || n == names[last];
      forall n ensures Resolve(LoadVars(s, s.db, names), n) == if n in names then ReadDb(s.db, n) else Resolve(s, n) {
        LoadOne(t, names[last], n);
      }
    }
  }

  lemma {:induction false} LoadVarsInv(reg: Registry, s: State, names: seq<string>)
    requires Inv(reg, s) && forall n :: n in names ==> n in s.vars.db
    ensures Inv(reg, s.(vars := LoadVars(s.vars, s.vars.db, names)))
    decreases |names|
  {
    hide ReadDb, Coherent, Resolve, AddVar, IsLiteral, IsIdentifier, RefsExact, IndexExact, IdsFresh, TypesSound, RulesProper;
    if names != [] {
      var last := |names| - 1;
      var t := LoadVars(s.vars, s.vars.db, names[..last]);
      LoadVarsInv(reg, s, names[..last]);
      LoadVarsReads(s.vars, names[..last]);
      LoadOne(t, names[last], names[last]);
      DefineVarInv(reg, s.(vars := t), names[last], ReadDb(t.db, names[last]).value);
    }
  }

  lemma LoadKeepsTypes(s: VarStore, names: seq<string>)
    requires Coherent(s) && forall n :: n in names ==> n in s.db
    ensures KeepsTypes(s, LoadVars(s, s.db, names))
  {
    hide ReadDb, Coherent, Resolve, LoadVars, IsLiteral;
    LoadVarsReads(s, names);
    var t := LoadVars(s, s.db, names);
    forall n | Resolve(s, n).Some?
      ensures Resolve(t, n).Some? && TypeLetter(Resolve(t, n).value) == TypeLetter(Resolve(s, n).value)
    {
      CacheAgreesWithDb(s, n);
      RoundedLetter(Resolve(s, n).value);
    }
  }

  /** Every variable agrees with its DB entry if and only if no cached float has more than six decimals. */
  lemma EntriesAgreeIff(s: VarStore)
    requires Coherent(s)
    ensures (forall n :: ReadDb(s.db, n) == Resolve(s, n)) <==> CacheExact(s)
  {
    hide ReadDb, IsLiteral, ArgText;
    forall i | 0 <= i < |s.cache|
      ensures Resolve(s, s.cache[i].name) == Some(s.cache[i].value)
      ensures ReadDb(s.db, s.cache[i].name) == Some(Rounded(s.cache[i].value))
    {
      PositionUnique(s.cache, i);
      CacheAgreesWithDb(s, s.cache[i].name);
    }
    forall n ensures CacheExact(s) ==> ReadDb(s.db, n) == Resolve(s, n) {
      CacheAgreesWithDb(s, n);
    }
  }

  /** Reading the variables from the DB changes none of them if and only if no cached float has more than six decimals. */
  lemma LoadVarsKeepsIff(s: VarStore, names: seq<string>)
    requires Coherent(s) && NamesOfDb(names, s.db)
    ensures (forall n :: Resolve(LoadVars(s, s.db, names), n) == Resolve(s, n)) <==> CacheExact(s)
  {
    hide ReadDb, Coherent, Resolve, LoadVars, CacheExact, IsLiteral, Rounded;
    LoadVarsReads(s, names);
    EntriesAgreeIff(s);
    forall n ensures Resolve(LoadVars(s, s.db, names), n) == ReadDb(s.db, n) {
      CacheAgreesWithDb(s, n);
      if n !in names {
        NotInDb(s.db, n);
      }
    }
  }

  lemma NotInDb(db: map<string, string>, n: string)
    requires n !in db
    ensures ReadDb(db, n) == None
  {
  }

  lemma {:induction false} BumpDb(s: VarStore, args: seq<Arg>, d: int)
    ensures Bump(s, args, d).db == s.db
    decreases |args|
  {
    if args != [] {
      BumpDb(if args[0].VarArg? then BumpVar(s, args[0].name, d) else s, args[1..], d);
    }
  }

  lemma {:induction false} DeleteAllDb(reg: Registry, s: State)
    ensures DeleteAll(reg, s).vars.db == s.vars.db
    decreases |s.rules|
  {
    hide Bump, Unregister, RuleArgs;
    if s.rules != [] {
      BumpDb(s.vars, RuleArgs(s.rules[0]), -1);
      DeleteAllDb(reg, DeleteAt(reg, s, 0));
    }
  }

  // ---------------------------------------------------------------------
  // Adding a rule on request
  // ---------------------------------------------------------------------

  /** parse_db_vars as operations: one definition per entry. */
  function LoadOps(db: map<string, string>, names: seq<string>): seq<Op> {
    if names == [] then [] else
    var last := |names| - 1;
    LoadOps(db, names[..last]) +
    match ReadDb(db, names[last])
    case Some(v) => [PolicyRules.DefineVar(names[last], v)]
    case None => []
  }

  /** A request to add a rule reads all variables from the DB first. */
  function RequestOps(db: map<string, string>, names: seq<string>, name: string, fns: RuleFns): seq<Op> {
    LoadOps(db, names) + [ApplyRule(name, fns)]
  }

  lemma {:induction false} LoadOpsRun(reg: Registry, s: State, db: map<string, string>, names: seq<string>)
    ensures RunOps(reg, s, LoadOps(db, names)) == s.(vars := LoadVars(s.vars, db, names))
    decreases |names|
  {
    hide ReadDb, AddVar, RunOps;
    if names == [] {
      RunNothing(reg, s);
    } else {
      var last := |names| - 1;
      LoadOpsRun(reg, s, db, names[..last]);
      var front := LoadOps(db, names[..last]);
      assert front + [] == front;
      if ReadDb(db, names[last]).Some? {
        RunOpsSnoc(reg, s, front, PolicyRules.DefineVar(names[last], ReadDb(db, names[last]).value));
      }
    }
  }

  lemma RunNothing(reg: Registry, s: State)
    ensures RunOps(reg, s, []) == s
  {
  }

  lemma RunOpsSnoc(reg: Registry, s: State, ops: seq<Op>, op: Op)
    ensures RunOps(reg, s, ops + [op]) == Perform(reg, RunOps(reg, s, ops), op)
  {
    hide Perform;
    assert (ops + [op])[..|ops|] == ops;
  }

  /**
    Such a request is a sequence of operations like any other.  It leaves every variable
    with the value that its DB entry spells, so it can round a cached float under a rule
    that is already loaded.
   */
  lemma RequestReadsVars(reg: Registry, s: State, names: seq<string>, name: string, fns: RuleFns)
    requires Inv(reg, s) && NamesOfDb(names, s.vars.db)
    ensures var u := RunOps(reg, s, RequestOps(s.vars.db, names, name, fns));
            && Inv(reg, u) && (forall n :: Resolve(u.vars, n) == ReadDb(s.vars.db, n))
            && ((forall n :: Resolve(u.vars, n) == Resolve(s.vars, n)) <==> CacheExact(s.vars))
  {
    hide ReadDb, RunOps, Coherent, Resolve, LoadVars, CacheExact, Apply, RefsExact, IndexExact, IdsFresh, TypesSound,
         RulesProper, LoadOps, IsLiteral;
    var t := s.(vars := LoadVars(s.vars, s.vars.db, names));
    RunOpsSnoc(reg, s, LoadOps(s.vars.db, names), ApplyRule(name, fns));
    LoadOpsRun(reg, s, s.vars.db, names);
    LoadVarsInv(reg, s, names);
    LoadVarsReads(s.vars, names);
    ApplyInv(reg, t, name, fns);
    EntriesAgreeIff(s.vars);
    forall n ensures Resolve(Apply(reg, t, name, fns).vars, n) == ReadDb(s.vars.db, n) {
      AppliedValues(reg, t, name, fns, n);
      CacheAgreesWithDb(s.vars, n);
      if n !in names {
        NotInDb(s.vars.db, n);
      }
    }
  }

  // ---------------------------------------------------------------------
  // The whole policy
  // ---------------------------------------------------------------------

  /** write_db_rules: what is stored of each rule. */
  function StoredPolicy(rules: seq<Rule>): seq<(string, RuleCalls)> {
    seq(|rules|, i requires 0 <= i < |rules| => (rules[i].name, Stored(rules[i])))
  }

  /** parse_db_rules; a rule that cannot be read is skipped. */
  function ReloadAll(reg: Registry, s: State, stored: seq<(string, RuleCalls)>): State
    decreases |stored|
  {
    if stored == [] then s else
    match Reload(reg, s, stored[0].0, RuleJson(stored[0].1))
    case None => ReloadAll(reg, s, stored[1..])
    case Some(t) => ReloadAll(reg, t, stored[1..])
  }

  ghost predicate AllLoadable(reg: Registry, v: VarStore, rs: seq<Rule>) {
    forall i :: 0 <= i < |rs| ==> Loadable(reg, v, rs[i])
  }

  ghost predicate SameRules(bs: seq<Rule>, rs: seq<Rule>) {
    |bs| == |rs| && forall i :: 0 <= i < |rs| ==> SameRule(bs[i], rs[i])
  }

  /** What resolves in v resolves in w, to the same type. */
  ghost predicate KeepsTypes(v: VarStore, w: VarStore) {
    forall n :: Resolve(v, n).Some? ==>
      Resolve(w, n).Some? && TypeLetter(Resolve(w, n).value) == TypeLetter(Resolve(v, n).value)
  }

  lemma LoadableAfter(reg: Registry, v: VarStore, w: VarStore, rs: seq<Rule>)
    requires AllLoadable(reg, v, rs) && KeepsTypes(v, w)
    ensures AllLoadable(reg, w, rs)
  {
    hide Resolve, RuleSound, Storable, Stored, RuleArgs, Uses;
    forall i | 0 <= i < |rs| ensures Loadable(reg, w, rs[i]) {
      RuleSoundStable(reg, v, w, rs[i]);
    }
  }

  /** Rules still to come have names of their own, and not those of the rules back already. */
  ghost predicate NamesFree(have: seq<Rule>, rs: seq<Rule>) {
    && (forall i :: 0 <= i < |rs| ==> !NameTaken(have, rs[i].name))
    && forall i, j :: 0 <= i < j < |rs| ==> rs[i].name != rs[j].name
  }

  lemma NamesStayFree(have: seq<Rule>, now: seq<Rule>, rs: seq<Rule>)
    requires rs != [] && NamesFree(have, rs)
    requires |now| == |have| + 1 && now[..|have|] == have && now[|have|].name == rs[0].name
    ensures NamesFree(now, rs[1..])
  {
    forall i, k | 0 <= i < |rs[1..]| && 0 <= k < |now| ensures now[k].name != rs[1..][i].name {
      assert rs[1..][i] == rs[i + 1] && !NameTaken(have, rs[i + 1].name);
      if k < |have| {
        assert now[k] == now[..|have|][k] == have[k];
      }
    }
    assert forall i :: 0 <= i < |rs[1..]| ==> rs[1..][i] == rs[i + 1];
  }

  lemma {:induction false} ReloadMany(reg: Registry, s: State, rs: seq<Rule>, done: seq<Rule>)
    requires Inv(reg, s) && AllLoadable(reg, s.vars, rs) && NamesFree(s.rules, rs) && SameRules(s.rules, done)
    ensures var u := ReloadAll(reg, s, StoredPolicy(rs));
            Inv(reg, u) && SameRules(u.rules, done + rs) && forall n :: Resolve(u.vars, n) == Resolve(s.vars, n)
    decreases |rs|
  {
    hide Inv, Resolve, Storable, Stored, Reload, RuleJson, RuleSound, NameTaken;
    if rs == [] {
      assert done + rs == done;
    } else {
      var r, rest := rs[0], rs[1..];
      ReloadOne(reg, s, r);
      var t := Reload(reg, s, r.name, RuleJson(Stored(r))).value;
      assert StoredPolicy(rs)[1..] == StoredPolicy(rest);
      LoadableAfter(reg, s.vars, t.vars, rest);
      NamesStayFree(s.rules, t.rules, rs);
      SameRulesAppend(s.rules, t.rules, done, r);
      ReloadMany(reg, t, rest, done + [r]);
      assert done + [r] + rest == done + rs;
    }
  }

  lemma SameRulesAppend(have: seq<Rule>, now: seq<Rule>, done: seq<Rule>, r: Rule)
    requires SameRules(have, done) && |now| == |have| + 1 && now[..|have|] == have && SameRule(now[|have|], r)
    ensures SameRules(now, done + [r])
  {
    hide Stored, RoundedRule;
    forall i | 0 <= i < |now| ensures SameRule(now[i], (done + [r])[i]) {
      if i < |have| {
        assert now[i] == now[..|have|][i];
      }
    }
  }

  /** Deleting all rules changes no variable's value. */
  lemma {:induction false} ClearedValues(reg: Registry, s: State, n: string)
    requires Inv(reg, s)
    ensures Resolve(DeleteAll(reg, s).vars, n) == Resolve(s.vars, n)
    decreases |s.rules|
  {
    hide DeleteAt, Resolve, Coherent, RefsExact, IndexExact, IdsFresh, TypesSound, RulesProper;
    if s.rules != [] {
      DeletedRefs(reg, s, 0);
      DeleteAtInv(reg, s, 0);
      DeleteAtLength(reg, s);
      ClearedValues(reg, DeleteAt(reg, s, 0), n);
    }
  }

  /**
    parse_config_from_db after delete_rules, as xcpmd_load_policy_from_db has it: the
    variables first, in the order the DB lists them, then the rules.
   */
  function Reloaded(reg: Registry, s: State, names: seq<string>): State {
    var t := DeleteAll(reg, s);
    ReloadAll(reg, t.(vars := LoadVars(t.vars, t.vars.db, names)), StoredPolicy(s.rules))
  }

  /**
    Reloading the policy from the DB: the stored rules come back with the same names,
    conditions, inverters, actions, undos and arguments in the same order, with six
    decimals of each float; every variable has the value that its DB entry spells, so no
    variable changes if and only if no cached float has more than six decimals; and the
    policy invariant holds.
   */
  lemma ReloadRestoresPolicy(reg: Registry, s: State, names: seq<string>)
    requires Inv(reg, s) && AllStorable(s.rules) && NamesOfDb(names, s.vars.db)
    ensures var u := Reloaded(reg, s, names);
            && Inv(reg, u) && SameRules(u.rules, s.rules)
            && (forall n :: Resolve(u.vars, n) == ReadDb(s.vars.db, n))
            && ((forall n :: Resolve(u.vars, n) == Resolve(s.vars, n)) <==> CacheExact(s.vars))
  {
    hide ReloadAll, DeleteAll, Resolve, Storable, Stored, RuleSound, Coherent, RefsExact, IndexExact, IdsFresh, LoadVars,
         ReadDb, CacheExact, IsLiteral;
    var t := DeleteAll(reg, s);
    var v := t.(vars := LoadVars(t.vars, t.vars.db, names));
    DeleteAllInv(reg, s);
    DeleteAllDb(reg, s);
    forall n ensures Resolve(t.vars, n) == Resolve(s.vars, n) {
      ClearedValues(reg, s, n);
    }
    LoadVarsInv(reg, t, names);
    LoadVarsReads(t.vars, names);
    LoadKeepsTypes(t.vars, names);
    forall n ensures Resolve(v.vars, n) == ReadDb(s.vars.db, n) {
      CacheAgreesWithDb(t.vars, n);
      if n !in names {
        NotInDb(s.vars.db, n);
      }
    }
    assert AllLoadable(reg, s.vars, s.rules);
    LoadableAfter(reg, s.vars, t.vars, s.rules);
    LoadableAfter(reg, t.vars, v.vars, s.rules);
    ReloadMany(reg, v, s.rules, []);
    assert [] + s.rules == s.rules;
    EntriesAgreeIff(s.vars);
  }

  // ---------------------------------------------------------------------
  // Every loaded rule can be stored
  // ---------------------------------------------------------------------

  ghost predicate AllStorable(rules: seq<Rule>) {
    forall i :: 0 <= i < |rules| ==> Storable(Stored(rules[i]))
  }

  /** The calls came out of the parser. */
  ghost predicate FromParser(fns: RuleFns) {
    exists t: RuleText, known: map<string, char> ::
      IsCString(t.conditions) && IsCString(t.actions) && IsCString(t.undos) && ParseRule(t, known) == Some(fns)
  }

  /** Rules reach xcpmd only as text. */
  ghost predicate ParsedOp(op: Op) {
    WellFormedOp(op) && (op.ApplyRule? ==> FromParser(op.fns))
  }

  lemma {:induction false} KnownConditionsWritable(reg: Registry, fs: seq<Fn>)
    requires WritableCalls(ConditionCalls(fs))
    ensures WritableCalls(KnownConditions(reg, fs))
  {
    hide WritableCall;
    if fs != [] {
      var cs := ConditionCalls(fs);
      assert forall i :: 0 <= i < |fs[1..]| ==> ConditionCalls(fs[1..])[i] == cs[i + 1];
      KnownConditionsWritable(reg, fs[1..]);
      assert WritableCall(cs[0]);
    }
  }

  lemma {:induction false} KnownActionsWritable(reg: Registry, fs: seq<Fn>)
    requires WritableCalls(ActionCalls(fs))
    ensures WritableCalls(KnownActions(reg, fs))
    ensures forall i :: 0 <= i < |KnownActions(reg, fs)| ==> !KnownActions(reg, fs)[i].inverted
  {
    hide WritableCall;
    if fs != [] {
      var cs := ActionCalls(fs);
      assert forall i :: 0 <= i < |fs[1..]| ==> ActionCalls(fs[1..])[i] == cs[i + 1];
      KnownActionsWritable(reg, fs[1..]);
      assert WritableCall(cs[0]);
    }
  }

  lemma BuiltStorable(reg: Registry, s: State, name: string, fns: RuleFns)
    requires FromParser(fns)
    ensures Storable(Stored(Built(reg, s, name, fns)))
  {
    hide ParseRule, WritableCalls, KnownConditions, KnownActions;
    var t: RuleText, known: map<string, char> :|
      IsCString(t.conditions) && IsCString(t.actions) && IsCString(t.undos) && ParseRule(t, known) == Some(fns);
    ParsedIsStorable(t, known, fns);
    KnownConditionsWritable(reg, fns.conditions);
    KnownActionsWritable(reg, fns.actions);
    KnownActionsWritable(reg, fns.undos);
    var b := Built(reg, s, name, fns);
    assert Stored(b).conditions == KnownConditions(reg, fns.conditions);
  }

  lemma {:induction false} DeleteAllEmpties(reg: Registry, s: State)
    ensures DeleteAll(reg, s).rules == []
    decreases |s.rules|
  {
    hide Unregister, Bump, RuleArgs;
    if s.rules != [] {
      DeleteAllEmpties(reg, DeleteAt(reg, s, 0));
    }
  }

  lemma PerformStorable(reg: Registry, s: State, op: Op)
    requires AllStorable(s.rules) && ParsedOp(op)
    ensures AllStorable(Perform(reg, s, op).rules)
  {
    hide Storable, Stored, Validate, Register, Unregister, Bump, VarsAfterValidate, Built, RuleArgs, DeleteAll, FromParser,
         AddVar, DeleteVar, Looked, WellFormedOp;
    if op.ApplyRule? {
      BuiltStorable(reg, s, op.name, op.fns);
    } else if op.ClearRules? || op.ClearPolicy? {
      DeleteAllEmpties(reg, s);
    }
  }

  lemma {:induction false} RunStorable(reg: Registry, s: State, ops: seq<Op>)
    requires s.rules == [] && forall i :: 0 <= i < |ops| ==> ParsedOp(ops[i])
    ensures AllStorable(RunOps(reg, s, ops).rules)
    decreases |ops|
  {
    hide Perform, AllStorable, ParsedOp;
    if ops == [] {
      assert AllStorable([]) by { NoneStored(); }
    } else {
      var last := |ops| - 1;
      RunStorable(reg, s, ops[..last]);
      PerformStorable(reg, RunOps(reg, s, ops[..last]), ops[last]);
    }
  }

  lemma NoneStored()
    ensures AllStorable([])
  {
  }

  /** In every state that any sequence of operations reaches, reloading restores the policy. */
  lemma ReloadOverRuns(reg: Registry, s: State, ops: seq<Op>, names: seq<string>)
    requires Init(s) && forall i :: 0 <= i < |ops| ==> ParsedOp(ops[i])
    requires NamesOfDb(names, RunOps(reg, s, ops).vars.db)
    ensures var t := RunOps(reg, s, ops);
            var u := Reloaded(reg, t, names);
            && Inv(reg, u) && SameRules(u.rules, t.rules)
            && (forall n :: Resolve(u.vars, n) == ReadDb(t.vars.db, n))
            && ((forall n :: Resolve(u.vars, n) == Resolve(t.vars, n)) <==> CacheExact(t.vars))
  {
    hide RunOps, Inv, AllStorable, Reloaded, Resolve, ReadDb, CacheExact, SameRules, FromParser, WellFormedOp, NamesOfDb;
    RunInv(reg, s, ops);
    RunStorable(reg, s, ops);
    ReloadRestoresPolicy(reg, RunOps(reg, s, ops), names);
  }
}
