/**
  Loading and unloading rules (xcpmd/src/rules.c and apply_rule in xcpmd/src/parser.c):
  the rule list, the per-event listener index and the variables' reference counts,
  and the invariant that ties them together over every run.
 */
module PolicyRules {
  import opened Options
  import opened PolicyTypes
  import opened PolicyParser
  import opened PolicyVars

  datatype ConditionType = ConditionType(prototype: string, event: string)

  /** The condition and action types that the modules registered. */
  datatype Registry = Registry(conditions: map<string, ConditionType>, actions: map<string, string>)

  /** A condition object; its id stands for its address. */
  datatype Condition = Condition(id: nat, call: Call)

  datatype Rule = Rule(name: string, conditions: seq<Condition>, actions: seq<Call>, undos: seq<Call>)

  datatype State = State(rules: seq<Rule>, listeners: map<string, seq<nat>>, vars: VarStore, nextId: nat)

  // ---------------------------------------------------------------------
  // The arguments of a rule
  // ---------------------------------------------------------------------

  function CallsOf(r: Rule): (cs: seq<Call>)
    ensures |cs| == |r.conditions| + |r.actions| + |r.undos|
  {
    seq(|r.conditions|, i requires 0 <= i < |r.conditions| => r.conditions[i].call) + r.actions + r.undos
  }

  function FlatArgs(cs: seq<Call>): seq<Arg> {
    if cs == [] then [] else cs[0].args + FlatArgs(cs[1..])
  }

  function RuleArgs(r: Rule): seq<Arg> {
    FlatArgs(CallsOf(r))
  }

  function AllArgs(rules: seq<Rule>): seq<Arg> {
    if rules == [] then [] else RuleArgs(rules[0]) + AllArgs(rules[1..])
  }

  /** How many of the arguments name the variable. */
  function Uses(args: seq<Arg>, n: string): nat {
    if args == [] then 0 else (if args[0] == VarArg(n) then 1 else 0) + Uses(args[1..], n)
  }

  lemma {:induction false} UsesAppend(a: seq<Arg>, b: seq<Arg>, n: string)
    ensures Uses(a + b, n) == Uses(a, n) + Uses(b, n)
  {
    if a == [] {
      assert a + b == b;
    } else {
      assert (a + b)[1..] == a[1..] + b;
      UsesAppend(a[1..], b, n);
    }
  }

  lemma {:induction false} AllArgsAppend(a: seq<Rule>, b: seq<Rule>, n: string)
    ensures Uses(AllArgs(a + b), n) == Uses(AllArgs(a), n) + Uses(AllArgs(b), n)
  {
    if a == [] {
      assert a + b == b;
    } else {
      assert (a + b)[1..] == a[1..] + b;
      AllArgsAppend(a[1..], b, n);
      UsesAppend(RuleArgs(a[0]), AllArgs(a[1..] + b), n);
      UsesAppend(RuleArgs(a[0]), AllArgs(a[1..]), n);
    }
  }

  lemma {:induction false} UsedInArgs(args: seq<Arg>, j: nat)
    requires j < |args| && args[j].VarArg?
    ensures Uses(args, args[j].name) > 0
  {
    if j > 0 {
      UsedInArgs(args[1..], j - 1);
    }
  }

  lemma {:induction false} UsedInCalls(cs: seq<Call>, i: nat, j: nat)
    requires i < |cs| && j < |cs[i].args| && cs[i].args[j].VarArg?
    ensures Uses(FlatArgs(cs), cs[i].args[j].name) > 0
  {
    var n := cs[i].args[j].name;
    UsesAppend(cs[0].args, FlatArgs(cs[1..]), n);
    if i == 0 {
      UsedInArgs(cs[0].args, j);
    } else {
      UsedInCalls(cs[1..], i - 1, j);
    }
  }

  lemma {:induction false} UsedInRules(rules: seq<Rule>, k: nat, n: string)
    requires k < |rules|
    ensures Uses(AllArgs(rules), n) >= Uses(RuleArgs(rules[k]), n)
  {
    UsesAppend(RuleArgs(rules[0]), AllArgs(rules[1..]), n);
    if k > 0 {
      UsedInRules(rules[1..], k - 1, n);
    }
  }

  // ---------------------------------------------------------------------
  // Prototypes
  // ---------------------------------------------------------------------

  /** get_arg: a variable stands for its current value. */
  function ValueOf(s: VarStore, a: Arg): Option<Arg> {
    if a.VarArg? then Resolve(s, a.name) else Some(a)
  }

  /** An argument list and the prototype it is checked against. */
  datatype Check = Check(prototype: string, args: seq<Arg>)

  function Letter(s: VarStore, a: Arg): Option<char> {
    if !a.VarArg? then Some(TypeLetter(a)) else
    match Resolve(s, a.name)
    case Some(v) => Some(TypeLetter(v))
    case None => None
  }

  /** The resolved types of the arguments; None if a variable is undefined. */
  function Letters(s: VarStore, args: seq<Arg>): Option<string> {
    if args == [] then Some("") else
    match (Letter(s, args[0]), Letters(s, args[1..]))
    case (Some(c), Some(rest)) => Some([c] + rest)
    case _ => None
  }

  /** Type letters as a prototype writes them: separated by blanks, "n" for none. */
  function Spaced(letters: string): string {
    if letters == "" then "n"
    else if |letters| == 1 then letters
    else [letters[0], ' '] + Spaced(letters[1..])
  }

  predicate Matches(s: VarStore, c: Check) {
    Letters(s, c.args).Some? && Spaced(Letters(s, c.args).value) == c.prototype
  }

  function ConditionPrototype(reg: Registry, name: string): string {
    if name in reg.conditions then reg.conditions[name].prototype else ""
  }

  function ActionPrototype(reg: Registry, name: string): string {
    if name in reg.actions then reg.actions[name] else ""
  }

  /** What validation checks, in order: conditions, actions, undos. */
  function Checks(reg: Registry, r: Rule): (cs: seq<Check>)
    ensures |cs| == |CallsOf(r)|
    ensures forall i :: 0 <= i < |cs| ==> cs[i].args == CallsOf(r)[i].args
  {
    seq(|CallsOf(r)|, i requires 0 <= i < |CallsOf(r)| =>
      var c := CallsOf(r)[i];
      Check(if i < |r.conditions| then ConditionPrototype(reg, c.name) else ActionPrototype(reg, c.name), c.args))
  }

  /** Every name is registered, every argument resolves and its types match the prototype. */
  ghost predicate RuleSound(reg: Registry, s: VarStore, r: Rule) {
    && (forall i :: 0 <= i < |r.conditions| ==> r.conditions[i].call.name in reg.conditions)
    && (forall i :: 0 <= i < |r.actions| ==> r.actions[i].name in reg.actions)
    && (forall i :: 0 <= i < |r.undos| ==> r.undos[i].name in reg.actions)
    && forall c :: c in Checks(reg, r) ==> Matches(s, c)
  }

  // Look-ups made while checking one argument list; they stop at an undefined variable.
  function LookArgs(s: VarStore, args: seq<Arg>): VarStore
    decreases |args|
  {
    if args == [] then s
    else if !args[0].VarArg? then LookArgs(s, args[1..])
    else if Resolve(s, args[0].name).None? then Looked(s, args[0].name)
    else LookArgs(Looked(s, args[0].name), args[1..])
  }

  // Look-ups made while validating; they stop after the first check that fails.
  function LookChecks(s: VarStore, cs: seq<Check>): VarStore
    decreases |cs|
  {
    if cs == [] then s
    else if !Matches(s, cs[0]) then LookArgs(s, cs[0].args)
    else LookChecks(LookArgs(s, cs[0].args), cs[1..])
  }

  // ---------------------------------------------------------------------
  // Validation
  // ---------------------------------------------------------------------

  datatype Code = NoName | NameCollision | NoConditions | NoActions | BadProto | RuleValid

  predicate NameTaken(rules: seq<Rule>, name: string) {
    exists i :: 0 <= i < |rules| && rules[i].name == name
  }

  /** validate_rule. */
  function Validate(reg: Registry, s: State, r: Rule): Code {
    if r.name == "" then NoName
    else if NameTaken(s.rules, r.name) then NameCollision
    else if r.conditions == [] then NoConditions
    else if r.actions == [] && r.undos == [] then NoActions
    else if forall i :: 0 <= i < |Checks(reg, r)| ==> Matches(s.vars, Checks(reg, r)[i]) then RuleValid
    else BadProto
  }

  function VarsAfterValidate(reg: Registry, s: State, r: Rule): VarStore {
    if Validate(reg, s, r) in {BadProto, RuleValid} then LookChecks(s.vars, Checks(reg, r)) else s.vars
  }

  // ---------------------------------------------------------------------
  // Reference counts
  // ---------------------------------------------------------------------

  function BumpVar(s0: VarStore, n: string, d: int): VarStore {
    var s := Looked(s0, n);
    var i := Position(s.cache, n);
    if i < 0 then s else s.(cache := s.cache[i := s.cache[i].(refs := s.cache[i].refs + d)])
  }

  /** inc_variable_refs (d = 1) and dec_variable_refs (d = -1). */
  function Bump(s: VarStore, args: seq<Arg>, d: int): VarStore
    decreases |args|
  {
    if args == [] then s
    else if args[0].VarArg? then Bump(BumpVar(s, args[0].name, d), args[1..], d)
    else Bump(s, args[1..], d)
  }

  // ---------------------------------------------------------------------
  // The listener index
  // ---------------------------------------------------------------------

  function At(l: map<string, seq<nat>>, e: string): seq<nat> {
    if e in l then l[e] else []
  }

  function EventOf(reg: Registry, c: Condition): string {
    if c.call.name in reg.conditions then reg.conditions[c.call.name].event else ""
  }

  /** The ids of the conditions that listen to e, in order. */
  function IdsFor(reg: Registry, cs: seq<Condition>, e: string): seq<nat> {
    if cs == [] then []
    else (if EventOf(reg, cs[0]) == e then [cs[0].id] else []) + IdsFor(reg, cs[1..], e)
  }

  /** new_condition, once per condition. */
  function Register(reg: Registry, l: map<string, seq<nat>>, cs: seq<Condition>): map<string, seq<nat>>
    decreases |cs|
  {
    if cs == [] then l else
    var e := EventOf(reg, cs[0]);
    Register(reg, l[e := At(l, e) + [cs[0].id]], cs[1..])
  }

  function RemoveId(s: seq<nat>, id: nat): seq<nat> {
    if s == [] then [] else if s[0] == id then s[1..] else [s[0]] + RemoveId(s[1..], id)
  }

  /** delete_condition_from_listeners, once per condition. */
  function Unregister(reg: Registry, l: map<string, seq<nat>>, cs: seq<Condition>): map<string, seq<nat>>
    decreases |cs|
  {
    if cs == [] then l else
    var e := EventOf(reg, cs[0]);
    Unregister(reg, l[e := RemoveId(At(l, e), cs[0].id)], cs[1..])
  }

  function AllConditions(rules: seq<Rule>): seq<Condition> {
    if rules == [] then [] else rules[0].conditions + AllConditions(rules[1..])
  }

  ghost predicate DistinctIds(cs: seq<Condition>) {
    forall i, j :: 0 <= i < j < |cs| ==> cs[i].id != cs[j].id
  }

  // ---------------------------------------------------------------------
  // Operations
  // ---------------------------------------------------------------------

  /** Calls whose type is registered; the others are reported and omitted. */
  function KnownConditions(reg: Registry, fs: seq<Fn>): (cs: seq<Call>)
    ensures forall i :: 0 <= i < |cs| ==> cs[i].name in reg.conditions
  {
    if fs == [] then []
    else (if fs[0].name in reg.conditions then [Call(fs[0].name, !fs[0].plain, fs[0].args)] else [])
         + KnownConditions(reg, fs[1..])
  }

  function KnownActions(reg: Registry, fs: seq<Fn>): (cs: seq<Call>)
    ensures forall i :: 0 <= i < |cs| ==> cs[i].name in reg.actions
  {
    if fs == [] then []
    else (if fs[0].name in reg.actions then [Call(fs[0].name, false, fs[0].args)] else [])
         + KnownActions(reg, fs[1..])
  }

  function NewConditions(cs: seq<Call>, id: nat): (r: seq<Condition>)
    ensures |r| == |cs|
    ensures forall i :: 0 <= i < |r| ==> r[i] == Condition(id + i, cs[i])
  {
    seq(|cs|, i requires 0 <= i < |cs| => Condition(id + i, cs[i]))
  }

  /** The rule that apply_rule builds before it validates it. */
  function Built(reg: Registry, s: State, name: string, fns: RuleFns): Rule {
    Rule(name, NewConditions(KnownConditions(reg, fns.conditions), s.nextId),
         KnownActions(reg, fns.actions), KnownActions(reg, fns.undos))
  }

  /** apply_rule: conditions are indexed first; an invalid rule is taken back out. */
  function Apply(reg: Registry, s: State, name: string, fns: RuleFns): State {
    var r := Built(reg, s, name, fns);
    var listeners := Register(reg, s.listeners, r.conditions);
    var vars := VarsAfterValidate(reg, s, r);
    var next := s.nextId + |r.conditions|;
    if Validate(reg, s, r) == RuleValid then
      State(s.rules + [r], listeners, Bump(vars, RuleArgs(r), 1), next)
    else
      State(s.rules, Unregister(reg, listeners, r.conditions), vars, next)
  }

  /** delete_rule, for the rule at position k. */
  function DeleteAt(reg: Registry, s: State, k: nat): State
    requires k < |s.rules|
  {
    var r := s.rules[k];
    State(s.rules[..k] + s.rules[k + 1..], Unregister(reg, s.listeners, r.conditions),
          Bump(s.vars, RuleArgs(r), -1), s.nextId)
  }

  function RulePosition(rules: seq<Rule>, name: string): (k: int)
    ensures -1 <= k < |rules|
    ensures k >= 0 ==> rules[k].name == name
    ensures k < 0 ==> forall i :: 0 <= i < |rules| ==> rules[i].name != name
  {
    if rules == [] then -1
    else if rules[0].name == name then 0
    else
      var k := RulePosition(rules[1..], name);
      if k < 0 then -1 else k + 1
  }

  function DeleteAll(reg: Registry, s: State): State
    decreases |s.rules|
  {
    if s.rules == [] then s else DeleteAll(reg, DeleteAt(reg, s, 0))
  }

  /** The operations that xcpmd offers on its policy. */
  datatype Op =
    | ApplyRule(name: string, fns: RuleFns)
    | DeleteRule(name: string)
    | ClearRules
    | DefineVar(name: string, value: Arg)
    | RemoveVar(name: string)
    | LookUp(name: string)
    | ClearPolicy

  /** What the parser guarantees about a definition: an identifier for a name and a literal for a value. */
  ghost predicate WellFormedOp(op: Op) {
    op.DefineVar? ==> IsIdentifier(op.name) && IsLiteral(op.value)
  }

  function Perform(reg: Registry, s: State, op: Op): State {
    match op
    case ApplyRule(name, fns) => Apply(reg, s, name, fns)
    case DeleteRule(name) => if RulePosition(s.rules, name) < 0 then s else DeleteAt(reg, s, RulePosition(s.rules, name))
    case ClearRules => DeleteAll(reg, s)
    case DefineVar(name, value) => s.(vars := AddVar(s.vars, name, value))
    case RemoveVar(name) => s.(vars := PolicyVars.DeleteVar(s.vars, name))
    case LookUp(name) => s.(vars := Looked(s.vars, name))
    case ClearPolicy => DeleteAll(reg, s).(vars := VarStore([], map[]))
  }

  function RunOps(reg: Registry, s: State, ops: seq<Op>): State {
    if ops == [] then s else Perform(reg, RunOps(reg, s, ops[..|ops| - 1]), ops[|ops| - 1])
  }

  // ---------------------------------------------------------------------
  // The invariant
  // ---------------------------------------------------------------------

  /** Each cached variable's count is the number of arguments naming it; used variables are cached. */
  ghost predicate RefsExact(s: VarStore, rules: seq<Rule>) {
    && (forall i :: 0 <= i < |s.cache| ==> s.cache[i].refs == Uses(AllArgs(rules), s.cache[i].name))
    && forall n :: Uses(AllArgs(rules), n) > 0 ==> Position(s.cache, n) >= 0
  }

  /** Each event's listeners are exactly the conditions of loaded rules that use it, once each, in order. */
  ghost predicate IndexExact(reg: Registry, s: State) {
    forall e :: At(s.listeners, e) == IdsFor(reg, AllConditions(s.rules), e)
  }

  ghost predicate IdsFresh(s: State) {
    && DistinctIds(AllConditions(s.rules))
    && forall i :: 0 <= i < |AllConditions(s.rules)| ==> AllConditions(s.rules)[i].id < s.nextId
  }

  ghost predicate TypesSound(reg: Registry, s: State) {
    forall k :: 0 <= k < |s.rules| ==> RuleSound(reg, s.vars, s.rules[k])
  }

  ghost predicate RulesProper(rules: seq<Rule>) {
    && (forall k :: 0 <= k < |rules| ==> rules[k].name != "" && rules[k].conditions != []
                                         && (rules[k].actions != [] || rules[k].undos != []))
    && forall i, j :: 0 <= i < j < |rules| ==> rules[i].name != rules[j].name
  }

  ghost predicate Inv(reg: Registry, s: State) {
    && Coherent(s.vars) && RefsExact(s.vars, s.rules)
    && IndexExact(reg, s) && IdsFresh(s)
    && TypesSound(reg, s) && RulesProper(s.rules)
  }

  /** xcpmd at start-up: nothing loaded or cached, and a DB that xcpmd wrote. */
  ghost predicate Init(s: State) {
    s.rules == [] && (forall e :: At(s.listeners, e) == []) && s.vars.cache == [] && DbWellFormed(s.vars.db)
  }
}
