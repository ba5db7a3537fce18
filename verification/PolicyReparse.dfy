/**
  What the policy parser can build (xcpmd/src/parser.c), and what of it survives being
  stored and parsed again.
 */
module PolicyReparse {
  import opened Options
  import opened PolicyTypes
  import opened PolicyParser
  import opened PolicyPrinter
  import opened PolicyRoundTrip
  import opened PolicyVars

  // ---------------------------------------------------------------------
  // What the machine holds at any time
  // ---------------------------------------------------------------------

  ghost predicate NameText(s: string) {
    forall i :: 0 <= i < |s| ==> IsAlphanumeric_(s[i])
  }

  ghost predicate QuotedText(s: string) {
    forall i :: 0 <= i < |s| ==> s[i] != '"' && s[i] != '\0'
  }

  // Which variable names the text may use is a set; while variables are being defined it is every name.

  /** An argument that parsing can produce. */
  ghost predicate Parsed(known: iset<string>, a: Arg) {
    Writable(a) && (a.VarArg? ==> a.name in known)
  }

  ghost predicate ArgsParsed(known: iset<string>, args: seq<Arg>) {
    forall i :: 0 <= i < |args| ==> Parsed(known, args[i])
  }

  ghost predicate FnsParsed(known: iset<string>, fs: seq<Fn>) {
    forall i :: 0 <= i < |fs| ==> IsIdentifier(fs[i].name) && ArgsParsed(known, fs[i].args)
  }

  ghost predicate ListsParsed(known: iset<string>, l: Lists) {
    && FnsParsed(known, l.conditions) && FnsParsed(known, l.actions) && FnsParsed(known, l.undos)
    && (forall i :: 0 <= i < |l.undos| ==> !l.undos[i].plain)
  }

  /** What is in the argument accumulator, by state. */
  ghost predicate Accumulating(state: FsmState, acc: Accum) {
    match state
    case AccumVar => acc.argType == TypeVar && NameText(acc.arg)
    case AccumInt => acc.argType == TypeInt
    case BeginAccumFloat | AccumFloat => acc.argType == TypeFloat
    case AccumStr | EndAccumStr => acc.argType == TypeStr && QuotedText(acc.arg)
    case AccumBool => acc.argType == TypeBool
    case _ => acc.arg == ""
  }

  /** Every definition has an identifier for a name and a literal for a value. */
  ghost predicate DefsParsed(ds: seq<VarDef>) {
    forall i :: 0 <= i < |ds| ==> IsIdentifier(ds[i].name) && IsLiteral(ds[i].value)
  }

  ghost predicate VarsParsed(known: iset<string>, t: Target, v: Vars) {
    && (forall n :: n in v.known ==> n in known) && DefsParsed(v.defined)
    && (t == ForVarMap ==> forall n :: n in known)
  }

  ghost predicate Building(known: iset<string>, m: Machine) {
    && Valid(m) && VarsParsed(known, m.target, m.vars)
    && NameText(m.acc.name) && ArgsParsed(known, m.acc.args) && ListsParsed(known, m.lists)
    && (!m.finished ==> Accumulating(m.state, m.acc))
  }

  // Accepting an argument or a call, apart from the state the edge leads to.

  ghost predicate Settled(known: iset<string>, m: Machine) {
    && Valid(m) && VarsParsed(known, m.target, m.vars)
    && NameText(m.acc.name) && ArgsParsed(known, m.acc.args) && ListsParsed(known, m.lists)
    && (!m.finished ==> m.acc.arg == "")
  }

  // A non-empty accumulator is refused or becomes one more argument.
  lemma AcceptArgKeeps(known: iset<string>, m: Machine)
    requires Building(known, m) && !m.finished && m.acc.arg != ""
    ensures var n := AcceptArg(m);
            || n == Fail(m, n.error)
            || (n.acc.args != [] && var a := n.acc.args[|n.acc.args| - 1]; n == KeepArg(m, a) && Parsed(known, a))
  {
    hide Writable, ParseFloat, ParseInt, ListsParsed, ArgsParsed;
    match m.acc.argType
    case TypeInt => WritableIff(IntArg(ToInt32(ParseInt(m.acc.arg))));
    case TypeFloat => WritableIff(FloatArg(ParseFloat(m.acc.arg)));
    case TypeStr => WritableIff(StrArg(m.acc.arg));
    case TypeBool => WritableIff(BoolArg(true)); WritableIff(BoolArg(false));
    case TypeVar => WritableIff(VarArg(m.acc.arg));
    case NoType =>
  }

  lemma AcceptArgSettles(known: iset<string>, m: Machine)
    requires Building(known, m) && !m.finished
    ensures Settled(known, AcceptArg(m))
  {
    hide Parsed, ListsParsed;
    if m.acc.arg != "" {
      AcceptArgKeeps(known, m);
      hide AcceptArg;
    }
  }

  lemma AddFnParsed(known: iset<string>, l: Lists, t: Target, name: string, args: seq<Arg>, plain: bool)
    requires ListsParsed(known, l) && IsIdentifier(name) && ArgsParsed(known, args)
    ensures ListsParsed(known, AddFn(l, t, name, args, plain))
  {
    hide Parsed;
  }

  lemma DefineSettles(known: iset<string>, m: Machine, value: Arg)
    requires Settled(known, m) && m.target == ForVarMap && m.acc.name != "" && Parsed(known, value) && !value.VarArg?
    ensures Settled(known, ResetFn(DefineVar(m, m.acc.name, value)))
  {
    hide ListsParsed, Writable;
    NoArgs(known);
  }

  lemma AcceptCallSettles(known: iset<string>, m: Machine)
    requires Building(known, m) && !m.finished
    ensures Settled(known, AcceptCall(m))
  {
    hide AcceptArg, ListsParsed, Writable, DefineVar, VarsParsed;
    AcceptArgSettles(known, m);
    var n := AcceptArg(m);
    NoArgs(known);
    if n.acc.name != "" {
      AddFnParsed(known, n.lists, n.target, n.acc.name, n.acc.args, n.acc.plain);
      if n.target == ForVarMap && |n.acc.args| == 1 && !n.acc.args[0].VarArg? {
        DefineSettles(known, n, n.acc.args[0]);
      }
    }
  }

  lemma NoArgs(known: iset<string>)
    ensures ArgsParsed(known, [])
  {
  }

  lemma AcceptCallsSettles(known: iset<string>, m: Machine)
    requires Building(known, m) && !m.finished
    ensures Settled(known, AcceptCalls(m))
  {
    hide AcceptCall, ListsParsed, ArgsParsed, DefsParsed;
    AcceptCallSettles(known, m);
  }

  // What the possible ends of an argument, a call and a string make of the machine.
  lemma MovedBuilds(known: iset<string>, m: Machine)
    requires Building(known, m) && !m.finished
    ensures var n := m.(input := Moved(m.input));
            Settled(known, AcceptArg(n)) && Settled(known, AcceptCall(n)) && Settled(known, AcceptCalls(n))
  {
    hide AcceptCall, AcceptArg, AcceptCalls, ListsParsed, ArgsParsed, NameText;
    var n := m.(input := Moved(m.input));
    assert Building(known, n);
    AcceptArgSettles(known, n);
    AcceptCallSettles(known, n);
    AcceptCallsSettles(known, n);
  }

  lemma StepName(known: iset<string>, m: Machine)
    requires Building(known, m) && !m.finished && Step(m).Some?
    requires m.state in {PolicyParser.Start, InvertFn, AccumName, AcceptFn}
    ensures Building(known, Step(m).value)
  {
    hide AcceptCall, AcceptArg, AcceptCalls, ListsParsed, ArgsParsed;
    MovedBuilds(known, m);
  }

  lemma StepBegin(known: iset<string>, m: Machine)
    requires Building(known, m) && !m.finished && Step(m).Some?
    requires m.state in {BeginAccumArg, AccumStr}
    ensures Building(known, Step(m).value)
  {
    hide AcceptCall, AcceptArg, AcceptCalls, ListsParsed, ArgsParsed;
    MovedBuilds(known, m);
  }

  lemma StepArg(known: iset<string>, m: Machine)
    requires Building(known, m) && !m.finished && Step(m).Some?
    requires m.state in {AccumVar, AccumInt, BeginAccumFloat, AccumFloat, AccumBool, EndAccumStr}
    ensures Building(known, Step(m).value)
  {
    hide AcceptCall, AcceptArg, AcceptCalls, ListsParsed, ArgsParsed;
    MovedBuilds(known, m);
  }

  /** Every edge keeps it. */
  lemma StepBuilds(known: iset<string>, m: Machine)
    requires Building(known, m) && !m.finished && Step(m).Some?
    ensures Building(known, Step(m).value)
  {
    hide Building, EndArg, AcceptCall, AcceptCalls;
    match m.state
    case Start | InvertFn | AccumName | AcceptFn => StepName(known, m);
    case BeginAccumArg | AccumStr => StepBegin(known, m);
    case _ => StepArg(known, m);
  }

  lemma {:induction false} RunBuilds(known: iset<string>, m: Machine)
    requires Building(known, m)
    ensures ListsParsed(known, Run(m).m.lists) && DefsParsed(Run(m).m.vars.defined)
    decreases if m.finished then 0 else 1, StringsLeft(m.target), |m.input.str| - m.input.pos, Rank(m.state)
  {
    hide Step, ListsParsed, ArgsParsed, DefsParsed;
    if m.state == AcceptRule && !m.finished {
      RunBuilds(known, m.(state := PolicyParser.Start));
    } else if !m.finished && Step(m).Some? {
      StepProgress(m);
      StepBuilds(known, m);
      RunBuilds(known, Step(m).value);
    }
  }

  /** Whatever text of definitions is parsed, every variable it defines has an identifier name and a literal value. */
  lemma DefinitionsAreLiteral(text: string, known: map<string, char>, i: nat)
    requires IsCString(text)
    requires i < |Run(Fresh(text, "", "", ForVarMap, known)).m.vars.defined|
    ensures var d := Run(Fresh(text, "", "", ForVarMap, known)).m.vars.defined[i];
            IsIdentifier(d.name) && IsLiteral(d.value)
  {
    hide Run, IsLiteral;
    var m := Fresh(text, "", "", ForVarMap, known);
    var every := iset n: string | |n| >= 0;
    assert Building(every, m);
    RunBuilds(every, m);
  }

  // ---------------------------------------------------------------------
  // Parse, store, parse again
  // ---------------------------------------------------------------------

  /** The calls of parsed conditions; apply_rule takes their inverters over. */
  function ConditionCalls(fs: seq<Fn>): (cs: seq<Call>)
    ensures |cs| == |fs|
    ensures forall i :: 0 <= i < |fs| ==> cs[i] == Call(fs[i].name, !fs[i].plain, fs[i].args)
  {
    seq(|fs|, i requires 0 <= i < |fs| => Call(fs[i].name, !fs[i].plain, fs[i].args))
  }

  /** The calls of parsed actions or undos, which have no inverter. */
  function ActionCalls(fs: seq<Fn>): (cs: seq<Call>)
    ensures |cs| == |fs|
    ensures forall i :: 0 <= i < |fs| ==> cs[i] == Call(fs[i].name, false, fs[i].args)
  {
    seq(|fs|, i requires 0 <= i < |fs| => Call(fs[i].name, false, fs[i].args))
  }

  function CallsOfFns(f: RuleFns): RuleCalls {
    RuleCalls(ConditionCalls(f.conditions), ActionCalls(f.actions), ActionCalls(f.undos))
  }

  function RoundedFns(fs: seq<Fn>): (r: seq<Fn>)
    ensures |r| == |fs| && forall i :: 0 <= i < |fs| ==> r[i] == fs[i].(args := RoundedArgs(fs[i].args))
  {
    seq(|fs|, i requires 0 <= i < |fs| => fs[i].(args := RoundedArgs(fs[i].args)))
  }

  /** No float of these calls has more than six decimals. */
  ghost predicate SixDecimals(fs: seq<Fn>) {
    forall i, j :: 0 <= i < |fs| && 0 <= j < |fs[i].args| ==> Rounded(fs[i].args[j]) == fs[i].args[j]
  }

  lemma RoundedFnsSame(fs: seq<Fn>)
    ensures RoundedFns(fs) == fs <==> SixDecimals(fs)
  {
    hide Rounded;
    var r := RoundedFns(fs);
    if r == fs {
      forall i, j | 0 <= i < |fs| && 0 <= j < |fs[i].args| ensures Rounded(fs[i].args[j]) == fs[i].args[j] {
        assert r[i].args == fs[i].args;
      }
    }
    forall i | 0 <= i < |fs| && SixDecimals(fs) ensures r[i] == fs[i] {
      assert RoundedArgs(fs[i].args) == fs[i].args;
    }
  }

  ghost function NamesOf(known: map<string, char>): iset<string> {
    iset n | n in known
  }

  /** Whatever text parses, what comes out can be stored and names only known variables. */
  lemma ParsedIsStorable(t: RuleText, known: map<string, char>, f: RuleFns)
    requires IsCString(t.conditions) && IsCString(t.actions) && IsCString(t.undos)
    requires ParseRule(t, known) == Some(f)
    ensures Storable(CallsOfFns(f)) && VarsKnown(known, CallsOfFns(f))
    ensures forall i :: 0 <= i < |f.undos| ==> !f.undos[i].plain
  {
    hide Run, Writable;
    var m := Fresh(t.conditions, t.actions, t.undos, ForConditions, known);
    var names := NamesOf(known);
    assert Building(names, m);
    RunBuilds(names, m);
    FnsStorable(known, f.conditions, ConditionCalls(f.conditions));
    FnsStorable(known, f.actions, ActionCalls(f.actions));
    FnsStorable(known, f.undos, ActionCalls(f.undos));
  }

  lemma FnsStorable(known: map<string, char>, fs: seq<Fn>, cs: seq<Call>)
    requires FnsParsed(NamesOf(known), fs)
    requires |cs| == |fs| && forall i :: 0 <= i < |fs| ==> cs[i].name == fs[i].name && cs[i].args == fs[i].args
    ensures WritableCalls(cs)
    ensures forall i, j :: 0 <= i < |cs| && 0 <= j < |cs[i].args| && cs[i].args[j].VarArg? ==> cs[i].args[j].name in known
  {
    hide Writable;
    forall i, j | 0 <= i < |cs| && 0 <= j < |cs[i].args|
      ensures Writable(cs[i].args[j]) && (cs[i].args[j].VarArg? ==> cs[i].args[j].name in known)
    {
      assert Parsed(NamesOf(known), fs[i].args[j]);
    }
  }

  /**
    For every text that parses: storing the rule as JSON, turning it back into text and
    parsing that gives the same conditions, inverters, actions, undos and arguments in the
    same order, with six decimals of each float.  It gives the same result if and only if
    no float has more and no action was written with an inverter, which no rule keeps.
   */
  lemma ParseStoreParse(t: RuleText, known: map<string, char>, f: RuleFns)
    requires IsCString(t.conditions) && IsCString(t.actions) && IsCString(t.undos)
    requires ParseRule(t, known) == Some(f)
    ensures var again := RuleTextOf(RuleJson(CallsOfFns(f)));
            && again.Some?
            && IsCString(again.value.conditions) && IsCString(again.value.actions) && IsCString(again.value.undos)
            && var g := ParseRule(again.value, known);
            && g.Some? && g.value.conditions == RoundedFns(f.conditions) && g.value.undos == RoundedFns(f.undos)
            && ActionCalls(g.value.actions) == ActionCalls(RoundedFns(f.actions))
            && (g.value == f <==>
                && SixDecimals(f.conditions) && SixDecimals(f.actions) && SixDecimals(f.undos)
                && forall i :: 0 <= i < |f.actions| ==> f.actions[i].plain)
  {
    hide ParseRule, RuleTextOf, RuleJson, Storable, VarsKnown, SixDecimals, RoundedFns, RoundedRule, FnsOf;
    ParsedIsStorable(t, known, f);
    RuleRoundTrip(CallsOfFns(f), known);
    StoredFns(f);
    RoundedFnsSame(f.conditions);
    RoundedFnsSame(f.undos);
    ActionsSame(f.actions, FnsOf(RoundedRule(CallsOfFns(f))).actions);
  }

  lemma StoredFns(f: RuleFns)
    requires forall i :: 0 <= i < |f.undos| ==> !f.undos[i].plain
    ensures var g := FnsOf(RoundedRule(CallsOfFns(f)));
            && g.conditions == RoundedFns(f.conditions) && g.undos == RoundedFns(f.undos)
            && |g.actions| == |f.actions|
            && forall i :: 0 <= i < |f.actions| ==> g.actions[i] == RoundedFns(f.actions)[i].(plain := true)
  {
  }

  lemma ActionsSame(fs: seq<Fn>, gs: seq<Fn>)
    requires |gs| == |fs| && forall i :: 0 <= i < |fs| ==> gs[i] == RoundedFns(fs)[i].(plain := true)
    ensures ActionCalls(gs) == ActionCalls(RoundedFns(fs))
    ensures gs == fs <==> SixDecimals(fs) && forall i :: 0 <= i < |fs| ==> fs[i].plain
  {
    RoundedFnsSame(fs);
    if gs == fs {
      assert forall i :: 0 <= i < |fs| ==> RoundedFns(fs)[i] == fs[i];
    }
  }
}
