/**
  The policy engine as a whole: rules and variables change, events are handled, and the
  invariants of both sides hold together in every state that any run reaches.
 */
module PolicySystem {
  import opened Options
  import opened PolicyTypes
  import opened PolicyParser
  import opened PolicyVars
  import opened PolicyRules
  import opened PolicyInvariant
  import opened PolicyEvents
  import opened PolicyTraces

  /** What the modules registered; a check sees its resolved arguments and the event's value. */
  datatype Modules = Modules(
    reg: Registry, events: seq<string>, stateless: set<string>, reset: map<string, Arg>,
    check: (string, seq<Option<Arg>>, Arg) -> bool)

  function Resolved(s: VarStore, args: seq<Arg>): seq<Option<Arg>> {
    seq(|args|, i requires 0 <= i < |args| => ValueOf(s, args[i]))
  }

  /** The checks as they are while the variables have these values. */
  function ConfigFor(m: Modules, s: VarStore): Config {
    Config(m.reg, m.events, m.stateless, m.reset, (c: Call, v: Arg) => m.check(c.name, Resolved(s, c.args), v))
  }

  datatype System = System(store: State, engine: Engine)

  datatype Command =
    | Change(op: Op)              // rules or variables change
    | Happen(e: string, v: Arg)   // an event takes a value and is handled
    | Reevaluate                  // evaluate_policy

  /** What a command means for the engine; None if it is nothing or only the loss of all rules. */
  function OccurrenceOf(m: Modules, s: State, cmd: Command): Option<Occurrence> {
    match cmd
    case Happen(e, v) => Some(Event(e, v))
    case Reevaluate => Some(Policy)
    case Change(ApplyRule(name, fns)) =>
      var r := Built(m.reg, s, name, fns);
      if Validate(m.reg, s, r) == RuleValid then Some(Load(r)) else None
    case Change(DeleteRule(name)) =>
      var k := RulePosition(s.rules, name);
      if k < 0 then None else Some(Unload(k))
    case Change(_) => None
  }

  function Advance(m: Modules, y: System, cmd: Command): System {
    var store := if cmd.Change? then Perform(m.reg, y.store, cmd.op) else y.store;
    match OccurrenceOf(m, y.store, cmd)
    case Some(o) => System(store, Do(ConfigFor(m, y.store.vars), y.engine, o))
    case None => System(store, y.engine.(rules := store.rules))
  }

  ghost predicate WellFormed(cmd: Command) {
    cmd.Change? ==> WellFormedOp(cmd.op)
  }

  /** states is a run of cmds from states[0]. */
  ghost predicate Run(m: Modules, states: seq<System>, cmds: seq<Command>) {
    && |states| == |cmds| + 1
    && forall i :: 0 <= i < |cmds| ==> WellFormed(cmds[i]) && states[i + 1] == Advance(m, states[i], cmds[i])
  }

  ghost predicate Start(y: System) {
    Init(y.store) && Blank(y.engine)
  }

  // ---------------------------------------------------------------------
  // The two sides stay together
  // ---------------------------------------------------------------------

  ghost predicate Below(isTrue: map<nat, bool>, n: nat) {
    forall id :: id in isTrue ==> id < n
  }

  /** Both sides know the same rules, both invariants hold, and new conditions are new to the engine. */
  ghost predicate Linked(m: Modules, y: System) {
    && Inv(m.reg, y.store) && y.engine.rules == y.store.rules
    && Proper(y.engine) && Resting(ConfigFor(m, y.store.vars), y.engine)
    && Below(y.engine.isTrue, y.store.nextId)
  }

  lemma {:induction false} RecheckBelow(cfg: Config, isTrue: map<nat, bool>, ls: seq<Listener>, v: Arg, n: nat)
    requires Below(isTrue, n) && forall l :: l in ls ==> l.cond.id < n
    ensures Below(Recheck(cfg, isTrue, ls, v), n)
    decreases |ls|
  {
    if ls != [] {
      RecheckBelow(cfg, isTrue[ls[0].cond.id := cfg.check(ls[0].cond.call, v)], ls[1..], v, n);
    }
  }

  lemma {:induction false} UnsetBelow(isTrue: map<nat, bool>, ls: seq<Listener>, n: nat)
    requires Below(isTrue, n) && forall l :: l in ls ==> l.cond.id < n
    ensures Below(Unset(isTrue, ls), n)
    decreases |ls|
  {
    if ls != [] {
      UnsetBelow(isTrue[ls[0].cond.id := false], ls[1..], n);
    }
  }

  lemma ListenersBelow(cfg: Config, s: Engine, e: string, n: nat)
    requires Proper(s) && Below(s.isTrue, n)
    ensures forall l :: l in Listening(cfg.reg, s.rules, e) ==> l.cond.id < n
  {
    hide Listening;
    forall l | l in Listening(cfg.reg, s.rules, e) ensures l.cond.id < n {
      ListeningMember(cfg.reg, s.rules, e, l);
    }
  }

  lemma {:induction false} RecheckAllBelow(cfg: Config, s: Engine, isTrue: map<nat, bool>, events: seq<string>, n: nat)
    requires Proper(s) && Below(s.isTrue, n) && Below(isTrue, n)
    ensures Below(RecheckAll(cfg, s, isTrue, events), n)
    decreases |events|
  {
    hide Recheck, Listening, Proper, Below;
    if events != [] {
      var e, v := events[0], ValueAt(cfg, s.value, events[0]);
      var ls := Listening(cfg.reg, s.rules, e);
      ListenersBelow(cfg, s, e, n);
      RecheckBelow(cfg, isTrue, ls, v, n);
      RecheckAllBelow(cfg, s, if e in cfg.stateless then isTrue else Recheck(cfg, isTrue, ls, v), events[1..], n);
    }
  }

  lemma HandleBelow(cfg: Config, s: Engine, e: string, n: nat)
    requires Proper(s) && Below(s.isTrue, n)
    ensures Below(Handle(cfg, s, e).isTrue, n)
  {
    hide Recheck, Listening, Checklist, Appended, Unset, Activate, Proper, Below;
    var ls := Listening(cfg.reg, s.rules, e);
    ListenersBelow(cfg, s, e, n);
    RecheckBelow(cfg, s.isTrue, ls, ValueAt(cfg, s.value, e), n);
    UnsetBelow(Rechecked(cfg, s, e), ls, n);
  }

  lemma PolicyBelow(cfg: Config, s: Engine, n: nat)
    requires Proper(s) && Below(s.isTrue, n)
    ensures Below(EvaluatePolicy(cfg, s).isTrue, n)
  {
    hide RecheckAll, Undone, DoneAll, Activate, Proper, Below;
    RecheckAllBelow(cfg, s, s.isTrue, cfg.events, n);
  }

  lemma LoadBelow(cfg: Config, s: Engine, r: Rule, n: nat)
    requires Below(s.isTrue, n) && forall c :: c in r.conditions ==> c.id < n
    ensures Below(Do(cfg, s, Load(r)).isTrue, n)
  {
    forall id | id in Unlisted(s.isTrue, r.conditions) ensures id < n {
      UnlistedFlags(s.isTrue, r.conditions, id);
    }
  }

  /** A rule that passed validation can be loaded: its name and its conditions are new. */
  lemma ValidatedCanLoad(m: Modules, y: System, name: string, fns: RuleFns)
    requires Linked(m, y) && Validate(m.reg, y.store, Built(m.reg, y.store, name, fns)) == RuleValid
    ensures CanLoad(y.engine, Built(m.reg, y.store, name, fns))
  {
    hide Inv, Proper, Resting, KnownConditions, KnownActions, Checks, Matches;
  }

  // The rules of both sides change alike.
  lemma SameRules(m: Modules, y: System, cmd: Command)
    requires y.engine.rules == y.store.rules
    ensures Advance(m, y, cmd).engine.rules == Advance(m, y, cmd).store.rules
  {
    hide Validate, Register, Unregister, Bump, VarsAfterValidate, KnownConditions, KnownActions, RuleArgs, Unlisted,
         Recheck, Checklist, Listening, Activate, Unset, RecheckAll, Undone, DoneAll, Appended, DeleteAll, AddVar, DeleteVar,
         Looked;
  }

  lemma NextIdGrows(m: Modules, s: State, op: Op)
    ensures s.nextId <= Perform(m.reg, s, op).nextId
  {
    hide Validate, Register, Unregister, Bump, VarsAfterValidate, KnownConditions, KnownActions, RuleArgs, DeleteAll, AddVar,
         DeleteVar, Looked;
    if op.ClearRules? || op.ClearPolicy? {
      DeleteAllNextId(m.reg, s);
    }
  }

  lemma {:induction false} DeleteAllNextId(reg: Registry, s: State)
    ensures DeleteAll(reg, s).nextId == s.nextId
    decreases |s.rules|
  {
    hide Unregister, Bump, RuleArgs;
    if s.rules != [] {
      DeleteAllNextId(reg, DeleteAt(reg, s, 0));
    }
  }

  /** Every command is an occurrence that the engine allows, or leaves it alone, or empties it. */
  lemma StepShape(m: Modules, y: System, cmd: Command)
    requires Linked(m, y) && WellFormed(cmd)
    ensures var o, t := OccurrenceOf(m, y.store, cmd), Advance(m, y, cmd).engine;
            if o.Some? then Enabled(y.engine, o.value) && t == Do(ConfigFor(m, y.store.vars), y.engine, o.value)
            else t == y.engine || t == y.engine.(rules := [])
  {
    hide Inv, Proper, Resting, Do, Built, Validate, Apply, DeleteAt, DeleteAll, AddVar, DeleteVar, Looked, WellFormed;
    match cmd
    case Change(ApplyRule(name, fns)) =>
      if Validate(m.reg, y.store, Built(m.reg, y.store, name, fns)) == RuleValid {
        ValidatedCanLoad(m, y, name, fns);
      } else {
        RejectedKeepsRules(m.reg, y.store, name, fns);
      }
    case Change(ClearRules) => DeleteAllInv(m.reg, y.store);
    case Change(ClearPolicy) => DeleteAllInv(m.reg, y.store);
    case _ =>
  }

  lemma RejectedKeepsRules(reg: Registry, s: State, name: string, fns: RuleFns)
    requires Validate(reg, s, Built(reg, s, name, fns)) != RuleValid
    ensures Apply(reg, s, name, fns).rules == s.rules
  {
    hide Validate, Register, Unregister, Bump, VarsAfterValidate, KnownConditions, KnownActions, RuleArgs;
  }

  lemma StepBelow(m: Modules, y: System, cmd: Command)
    requires Linked(m, y) && WellFormed(cmd)
    ensures var z := Advance(m, y, cmd); Below(z.engine.isTrue, z.store.nextId)
  {
    hide Inv, Proper, Resting, Handle, EvaluatePolicy, Unlisted, Validate, Perform, WellFormed, KnownConditions,
         KnownActions, Below;
    var n, cfg := y.store.nextId, ConfigFor(m, y.store.vars);
    match cmd
    case Happen(e, v) =>
      ValueRests(cfg, y.engine, e, v);
      HandleBelow(cfg, y.engine.(value := y.engine.value[e := v]), e, n);
    case Reevaluate => PolicyBelow(cfg, y.engine, n);
    case Change(op) => ChangeBelow(m, y, op);
  }

  lemma ChangeBelow(m: Modules, y: System, op: Op)
    requires Linked(m, y)
    ensures var z := Advance(m, y, Change(op)); Below(z.engine.isTrue, z.store.nextId)
  {
    hide Inv, Proper, Resting, Unlisted, Validate, KnownConditions, KnownActions, Perform;
    NextIdGrows(m, y.store, op);
    if op.ApplyRule? {
      var r := Built(m.reg, y.store, op.name, op.fns);
      AppliedNextId(m.reg, y.store, op.name, op.fns);
      LoadBelow(ConfigFor(m, y.store.vars), y.engine, r, Perform(m.reg, y.store, op).nextId);
    }
  }

  lemma AppliedNextId(reg: Registry, s: State, name: string, fns: RuleFns)
    ensures var n := Perform(reg, s, ApplyRule(name, fns)).nextId;
            n >= s.nextId && forall c :: c in Built(reg, s, name, fns).conditions ==> c.id < n
  {
    hide Validate, Register, Unregister, Bump, VarsAfterValidate, KnownConditions, KnownActions, RuleArgs;
  }

  // The resting invariant does not depend on the variables.
  lemma RestingAnyVars(m: Modules, s: VarStore, t: VarStore, g: Engine)
    requires Resting(ConfigFor(m, s), g)
    ensures Resting(ConfigFor(m, t), g)
  {
    hide Evaluate, EventOf;
    forall r, c | r in g.rules && c in r.conditions && Stateless(ConfigFor(m, t), c) ensures !TrueAt(g.isTrue, c.id) {
      assert Stateless(ConfigFor(m, s), c);
    }
  }

  lemma EmptyResting(cfg: Config, s: Engine)
    ensures Proper(s.(rules := [])) && Resting(cfg, s.(rules := []))
  {
  }

  lemma StepLinked(m: Modules, y: System, cmd: Command)
    requires Linked(m, y) && WellFormed(cmd)
    ensures Linked(m, Advance(m, y, cmd))
  {
    hide Inv, Proper, Resting, Do, Below, Perform, OccurrenceOf, ConfigFor, Enabled, Advance;
    var z, cfg, o := Advance(m, y, cmd), ConfigFor(m, y.store.vars), OccurrenceOf(m, y.store, cmd);
    StepShape(m, y, cmd);
    StepBelow(m, y, cmd);
    SameRules(m, y, cmd);
    StepStore(m, y, cmd);
    if o.Some? {
      DoResting(cfg, y.engine, o.value);
    } else {
      EmptyResting(cfg, y.engine);
    }
    RestingAnyVars(m, y.store.vars, z.store.vars, z.engine);
  }

  lemma StepStore(m: Modules, y: System, cmd: Command)
    requires Inv(m.reg, y.store) && WellFormed(cmd)
    ensures Inv(m.reg, Advance(m, y, cmd).store)
  {
    hide Inv, Do, Perform, OccurrenceOf, ConfigFor;
    if cmd.Change? {
      PerformInv(m.reg, y.store, cmd.op);
    }
  }

  lemma StartLinked(m: Modules, y: System)
    requires Start(y)
    ensures Linked(m, y)
  {
    hide Inv;
    InitInv(m.reg, y.store);
  }

  /**
    In every state of every run, of rule changes, variable changes and events in any
    order, the invariants of the rule store and of the engine hold together.
   */
  lemma {:induction false} RunLinked(m: Modules, states: seq<System>, cmds: seq<Command>, i: nat)
    requires Run(m, states, cmds) && Linked(m, states[0]) && i < |states|
    ensures Linked(m, states[i])
  {
    hide Linked, Advance;
    if i > 0 {
      RunLinked(m, states, cmds, i - 1);
      StepLinked(m, states[i - 1], cmds[i - 1]);
    }
  }

  // ---------------------------------------------------------------------
  // Incremental evaluation agrees with evaluation from scratch
  // ---------------------------------------------------------------------

  /** The operation gives that variable another value; a refused or equal definition does not. */
  predicate Redefines(s: VarStore, op: Op, n: string) {
    op.DefineVar? && op.name == n && AddOutcome(s, n, op.value) == Overwritten
  }

  /** The command changes the value of a variable that the condition names. */
  predicate Overwrites(s: VarStore, cmd: Command, c: Condition) {
    cmd.Change? && cmd.op.DefineVar? && Uses(c.call.args, cmd.op.name) > 0 && Redefines(s, cmd.op, cmd.op.name)
  }

  lemma NoRulesNoUses(rules: seq<Rule>, n: string)
    requires rules == []
    ensures Uses(AllArgs(rules), n) == 0
  {
  }

  /** Only a definition that overwrites it changes what a variable in use stands for. */
  lemma UsedValueKept(reg: Registry, s: State, op: Op, n: string)
    requires Inv(reg, s) && WellFormedOp(op) && Uses(AllArgs(s.rules), n) > 0 && !Redefines(s.vars, op, n)
    ensures Uses(AllArgs(Perform(reg, s, op).rules), n) > 0 ==> Resolve(Perform(reg, s, op).vars, n) == Resolve(s.vars, n)
  {
    hide Uses, AllArgs, Apply, DeleteAt, DeleteAll, AddVar, DeleteVar, Looked, Resolve, Coherent, IndexExact, IdsFresh,
         TypesSound, RulesProper, RefsExact, IsLiteral, IsIdentifier;
    match op
    case ApplyRule(name, fns) => AppliedValues(reg, s, name, fns, n);
    case DeleteRule(name) =>
      if RulePosition(s.rules, name) >= 0 {
        DeletedRefs(reg, s, RulePosition(s.rules, name));
      }
    case ClearRules =>
      DeleteAllInv(reg, s);
      NoRulesNoUses(DeleteAll(reg, s).rules, n);
    case ClearPolicy =>
      DeleteAllInv(reg, s);
      NoRulesNoUses(DeleteAll(reg, s).rules, n);
    case DefineVar(name, v) =>
      AddVarEffect(s.vars, name, v, n);
      UsedIsFound(s.vars, s.rules, n);
    case RemoveVar(name) =>
      DeleteVarEffect(s.vars, name, n);
      if name == n {
        UsedVarIsKept(reg, s, n);
      }
    case LookUp(name) => LookedGrown(s.vars, name);
  }

  lemma UsedIsFound(s: VarStore, rules: seq<Rule>, n: string)
    requires RefsExact(s, rules) && Uses(AllArgs(rules), n) > 0
    ensures Resolve(s, n).Some?
  {
  }

  lemma NamedIsUsed(rules: seq<Rule>, r: Rule, i: nat, j: nat)
    requires r in rules && i < |r.conditions| && j < |r.conditions[i].call.args| && r.conditions[i].call.args[j].VarArg?
    ensures var n := r.conditions[i].call.args[j].name;
            Uses(r.conditions[i].call.args, n) > 0 && Uses(AllArgs(rules), n) > 0
  {
    hide FlatArgs, AllArgs, Uses;
    UsedInArgs(r.conditions[i].call.args, j);
    assert CallsOf(r)[i] == r.conditions[i].call;
    UsedInCalls(CallsOf(r), i, j);
    var k :| 0 <= k < |rules| && rules[k] == r;
    UsedInRules(rules, k, r.conditions[i].call.args[j].name);
  }

  /** The arguments of a condition that stays loaded keep their values, unless one is overwritten. */
  lemma ArgsKeepValues(m: Modules, y: System, cmd: Command, r: Rule, i: nat)
    requires Inv(m.reg, y.store) && WellFormed(cmd) && r in y.store.rules && r in Advance(m, y, cmd).store.rules
    requires i < |r.conditions| && !Overwrites(y.store.vars, cmd, r.conditions[i])
    ensures Resolved(Advance(m, y, cmd).store.vars, r.conditions[i].call.args) ==
            Resolved(y.store.vars, r.conditions[i].call.args)
  {
    hide Inv, Perform, Do, OccurrenceOf, Resolve, Uses, AllArgs, RuleArgs, AddOutcome;
    var z, args := Advance(m, y, cmd), r.conditions[i].call.args;
    forall j | 0 <= j < |args| ensures ValueOf(z.store.vars, args[j]) == ValueOf(y.store.vars, args[j]) {
      if args[j].VarArg? && cmd.Change? {
        NamedIsUsed(y.store.rules, r, i, j);
        NamedIsUsed(z.store.rules, r, i, j);
        UsedValueKept(m.reg, y.store, cmd.op, args[j].name);
      }
    }
  }

  /** The lookups that a check makes find every variable, in the cache, and change nothing. */
  lemma ChecksOnlyRead(m: Modules, y: System, r: Rule, i: nat, j: nat)
    requires Linked(m, y) && r in y.store.rules
    requires i < |r.conditions| && j < |r.conditions[i].call.args| && r.conditions[i].call.args[j].VarArg?
    ensures var n := r.conditions[i].call.args[j].name;
            Looked(y.store.vars, n) == y.store.vars && Resolve(y.store.vars, n).Some?
  {
    hide Uses, AllArgs, RuleArgs, TypesSound, IndexExact, Proper, Resting, ReadDb;
    NamedIsUsed(y.store.rules, r, i, j);
  }

  lemma SyncAnyVars(m: Modules, s: VarStore, t: VarStore, g: Engine, c: Condition)
    requires InSync(ConfigFor(m, s), g, c) && Resolved(t, c.call.args) == Resolved(s, c.call.args)
    ensures InSync(ConfigFor(m, t), g, c)
  {
    hide EventOf, TrueAt, Resolved;
  }

  lemma SyncSame(cfg: Config, s: Engine, t: Engine, c: Condition)
    requires InSync(cfg, s, c) && t.isTrue == s.isTrue && t.value == s.value
    ensures InSync(cfg, t, c)
  {
  }

  /** The command checks the condition anew. */
  predicate Rechecks(m: Modules, cmd: Command, c: Condition) {
    cmd == Reevaluate || (cmd.Happen? && cmd.e == EventOf(m.reg, c))
  }

  /** A recheck brings a condition in step, whatever its flag was. */
  lemma RecheckSyncs(m: Modules, y: System, cmd: Command, r: Rule, c: Condition)
    requires Linked(m, y) && r in y.engine.rules && c in r.conditions
    requires Regular(ConfigFor(m, y.store.vars), c) && Rechecks(m, cmd, c)
    ensures var z := Advance(m, y, cmd); InSync(ConfigFor(m, z.store.vars), z.engine, c) && r in z.engine.rules
  {
    hide Inv, Proper, Resting, Handle, EvaluatePolicy, Below, Regular, EventOf;
    var cfg := ConfigFor(m, y.store.vars);
    SameRules(m, y, cmd);
    if cmd == Reevaluate {
      PolicySyncs(cfg, y.engine, r, c);
    } else {
      EventSyncs(cfg, y.engine, cmd.e, cmd.v, r, c);
    }
  }

  /** While the rule stays loaded and the condition's variables keep their values, it stays in step. */
  lemma StepKeepsSync(m: Modules, y: System, cmd: Command, r: Rule, i: nat)
    requires Linked(m, y) && WellFormed(cmd) && i < |r.conditions| && !Overwrites(y.store.vars, cmd, r.conditions[i])
    requires Regular(ConfigFor(m, y.store.vars), r.conditions[i]) && IdsSeen(y.engine, r)
    requires r in y.engine.rules ==> InSync(ConfigFor(m, y.store.vars), y.engine, r.conditions[i])
    ensures var z := Advance(m, y, cmd);
            r in z.engine.rules ==> r in y.engine.rules && InSync(ConfigFor(m, z.store.vars), z.engine, r.conditions[i])
  {
    hide Inv, Proper, Resting, Do, Below, OccurrenceOf, ConfigFor, Enabled, Advance, Regular, InSync, Overwrites, WellFormed;
    var z, cfg, o, c := Advance(m, y, cmd), ConfigFor(m, y.store.vars), OccurrenceOf(m, y.store, cmd), r.conditions[i];
    StepShape(m, y, cmd);
    SameRules(m, y, cmd);
    if r in z.engine.rules {
      if o.Some? {
        NeverReloaded(cfg, y.engine, o.value, r);
        DoKeepsSync(cfg, y.engine, o.value, r, c);
      } else {
        SyncSame(cfg, y.engine, z.engine, c);
      }
      ArgsKeepValues(m, y, cmd, r, i);
      SyncAnyVars(m, y.store.vars, z.store.vars, z.engine, c);
    }
  }

  lemma StepSeen(m: Modules, y: System, cmd: Command, r: Rule)
    requires Linked(m, y) && WellFormed(cmd) && IdsSeen(y.engine, r)
    ensures IdsSeen(Advance(m, y, cmd).engine, r)
  {
    hide Inv, Proper, Resting, Do, Below, OccurrenceOf, ConfigFor, Enabled, Advance, WellFormed;
    StepShape(m, y, cmd);
    var o := OccurrenceOf(m, y.store, cmd);
    if o.Some? {
      DoKeys(ConfigFor(m, y.store.vars), y.engine, o.value);
    }
  }

  lemma RegularAnyVars(m: Modules, s: VarStore, t: VarStore, c: Condition)
    ensures Regular(ConfigFor(m, s), c) == Regular(ConfigFor(m, t), c)
  {
  }

  lemma LoadedSeen(m: Modules, y: System, r: Rule)
    requires Linked(m, y) && r in y.engine.rules
    ensures IdsSeen(y.engine, r)
  {
  }

  /** No command from k on changes a variable that the condition names. */
  ghost predicate Undisturbed(states: seq<System>, cmds: seq<Command>, c: Condition, k: nat, i: nat)
    requires |states| == |cmds| + 1
  {
    forall j :: k <= j < i && j < |cmds| ==> !Overwrites(states[j].store.vars, cmds[j], c)
  }

  lemma {:induction false} SyncOverRun(m: Modules, states: seq<System>, cmds: seq<Command>, r: Rule, p: nat, k: nat, i: nat)
    requires Run(m, states, cmds) && Linked(m, states[0]) && k <= i < |states| && p < |r.conditions|
    requires Regular(ConfigFor(m, states[0].store.vars), r.conditions[p])
    requires IdsSeen(states[k].engine, r) && InSync(ConfigFor(m, states[k].store.vars), states[k].engine, r.conditions[p])
    requires Undisturbed(states, cmds, r.conditions[p], k, i)
    ensures IdsSeen(states[i].engine, r)
    ensures r in states[i].engine.rules ==> InSync(ConfigFor(m, states[i].store.vars), states[i].engine, r.conditions[p])
    decreases i
  {
    hide Advance, Linked, InSync, Regular, ConfigFor, Overwrites, WellFormed, IdsSeen;
    if i > k {
      var s := states[i - 1];
      SyncOverRun(m, states, cmds, r, p, k, i - 1);
      RunLinked(m, states, cmds, i - 1);
      RegularAnyVars(m, states[0].store.vars, s.store.vars, r.conditions[p]);
      StepSeen(m, s, cmds[i - 1], r);
      StepKeepsSync(m, s, cmds[i - 1], r, p);
    }
  }

  lemma StatefulAnyVars(m: Modules, s: VarStore, t: VarStore, r: Rule)
    ensures Stateful(ConfigFor(m, s), r) == Stateful(ConfigFor(m, t), r)
    ensures OnePerEvent(ConfigFor(m, s), r) == OnePerEvent(ConfigFor(m, t), r)
    ensures HasStateless(ConfigFor(m, s), r) == HasStateless(ConfigFor(m, t), r)
    ensures TwoStateless(ConfigFor(m, s), r) == TwoStateless(ConfigFor(m, t), r)
  {
    hide EventOf;
    assert forall c :: Stateless(ConfigFor(m, s), c) == Stateless(ConfigFor(m, t), c);
  }

  /**
    Since the condition was last rechecked, by its own event or by evaluate_policy, no
    variable that it names has been overwritten.
   */
  ghost predicate UpToDate(m: Modules, states: seq<System>, cmds: seq<Command>, r: Rule, c: Condition, i: nat)
    requires |states| == |cmds| + 1 && i < |states|
  {
    exists k :: 0 <= k < i && Rechecks(m, cmds[k], c) && r in states[k].engine.rules
                && Undisturbed(states, cmds, c, k + 1, i)
  }

  lemma UpToDateInSync(m: Modules, states: seq<System>, cmds: seq<Command>, r: Rule, p: nat, i: nat)
    requires Run(m, states, cmds) && Linked(m, states[0]) && i < |states| && p < |r.conditions|
    requires Regular(ConfigFor(m, states[0].store.vars), r.conditions[p])
    requires r in states[i].engine.rules && UpToDate(m, states, cmds, r, r.conditions[p], i)
    ensures InSync(ConfigFor(m, states[i].store.vars), states[i].engine, r.conditions[p])
  {
    hide Advance, Linked, InSync, Regular, ConfigFor, Overwrites, WellFormed, IdsSeen, Undisturbed;
    var c := r.conditions[p];
    var k :| 0 <= k < i && Rechecks(m, cmds[k], c) && r in states[k].engine.rules
             && Undisturbed(states, cmds, c, k + 1, i);
    RunLinked(m, states, cmds, k);
    RunLinked(m, states, cmds, k + 1);
    RegularAnyVars(m, states[0].store.vars, states[k].store.vars, c);
    RecheckSyncs(m, states[k], cmds[k], r, c);
    LoadedSeen(m, states[k + 1], r);
    SyncOverRun(m, states, cmds, r, p, k + 1, i);
  }

  // ---------------------------------------------------------------------
  // Which rules are active, exactly
  // ---------------------------------------------------------------------

  /** The last command before i that rechecked the condition while the rule was loaded; -1 if none did. */
  ghost function LastRecheck(m: Modules, states: seq<System>, cmds: seq<Command>, r: Rule, c: Condition, i: nat): (k: int)
    requires |states| == |cmds| + 1 && i < |states|
    ensures -1 <= k < i
    ensures k >= 0 ==> Rechecks(m, cmds[k], c) && r in states[k].engine.rules
    ensures forall j :: k < j < i ==> !(Rechecks(m, cmds[j], c) && r in states[j].engine.rules)
  {
    if i == 0 then -1
    else if Rechecks(m, cmds[i - 1], c) && r in states[i - 1].engine.rules then i - 1
    else LastRecheck(m, states, cmds, r, c, i - 1)
  }

  /** The condition's check on the variables of one state and the event values of another. */
  ghost predicate Holds(m: Modules, vars: VarStore, g: Engine, c: Condition) {
    var cfg := ConfigFor(m, vars);
    cfg.check(c.call, ValueAt(cfg, g.value, EventOf(cfg.reg, c)))
  }

  /**
    The condition held when it was last rechecked: on the variables of that time and the
    value its event still has.  Never rechecked, it is as the run found it.
   */
  ghost predicate HeldThen(m: Modules, states: seq<System>, cmds: seq<Command>, r: Rule, c: Condition, i: nat)
    requires |states| == |cmds| + 1 && i < |states|
  {
    var k := LastRecheck(m, states, cmds, r, c, i);
    if k >= 0 then Holds(m, states[k].store.vars, states[i].engine, c)
    else r in states[0].engine.rules && TrueAt(states[0].engine.isTrue, c.id)
  }

  lemma {:induction false} SeenOverRun(m: Modules, states: seq<System>, cmds: seq<Command>, r: Rule, k: nat, i: nat)
    requires Run(m, states, cmds) && Linked(m, states[0]) && k <= i < |states| && r in states[k].engine.rules
    ensures IdsSeen(states[i].engine, r)
    decreases i
  {
    hide Advance, Linked, WellFormed, IdsSeen;
    RunLinked(m, states, cmds, k);
    LoadedSeen(m, states[k], r);
    if i > k {
      SeenOverRun(m, states, cmds, r, k, i - 1);
      RunLinked(m, states, cmds, i - 1);
      StepSeen(m, states[i - 1], cmds[i - 1], r);
    }
  }

  lemma SeenStays(m: Modules, y: System, cmd: Command, r: Rule)
    requires Linked(m, y) && WellFormed(cmd) && IdsSeen(y.engine, r) && r in Advance(m, y, cmd).engine.rules
    ensures r in y.engine.rules
  {
    hide Inv, Proper, Resting, Do, Below, OccurrenceOf, ConfigFor, Enabled, Advance, WellFormed;
    StepShape(m, y, cmd);
    var o := OccurrenceOf(m, y.store, cmd);
    if o.Some? {
      NeverReloaded(ConfigFor(m, y.store.vars), y.engine, o.value, r);
    }
  }

  // A rule that joins now was never loaded before, and its conditions are false.
  lemma JoinsFalse(m: Modules, y: System, cmd: Command, r: Rule, c: Condition)
    requires Linked(m, y) && WellFormed(cmd) && c in r.conditions
    requires r !in y.engine.rules && r in Advance(m, y, cmd).engine.rules
    ensures !TrueAt(Advance(m, y, cmd).engine.isTrue, c.id)
  {
    hide Inv, Proper, Resting, Below, ConfigFor, Enabled, Advance, WellFormed, OccurrenceOf, Handle, EvaluatePolicy, Unlisted;
    StepShape(m, y, cmd);
    var o, cfg := OccurrenceOf(m, y.store, cmd), ConfigFor(m, y.store.vars);
    if o.Some? {
      match o.value
      case Load(q) => UnlistedFlags(y.engine.isTrue, q.conditions, c.id);
      case Event(e, v) => HandleRules(cfg, y.engine.(value := y.engine.value[e := v]), e);
      case Policy => PolicyKeepsRules(cfg, y.engine);
      case Unload(k) =>
    }
  }

  // What does not recheck a condition leaves its flag and its event's value as they were.
  lemma StepKeepsFlag(m: Modules, y: System, cmd: Command, r: Rule, c: Condition)
    requires Linked(m, y) && WellFormed(cmd) && r in y.engine.rules && c in r.conditions && !Rechecks(m, cmd, c)
    ensures var z, e := Advance(m, y, cmd), EventOf(m.reg, c);
            && TrueAt(z.engine.isTrue, c.id) == TrueAt(y.engine.isTrue, c.id)
            && forall s :: ValueAt(ConfigFor(m, s), z.engine.value, e) == ValueAt(ConfigFor(m, s), y.engine.value, e)
  {
    hide Inv, Proper, Resting, Below, Enabled, Advance, WellFormed, Do, EventOf, TrueAt, Built, Validate;
    StepShape(m, y, cmd);
    var o, cfg := OccurrenceOf(m, y.store, cmd), ConfigFor(m, y.store.vars);
    if o.Some? {
      DoKeepsFlag(cfg, y.engine, o.value, r, c);
    }
  }

  lemma RecheckKeepsStore(m: Modules, y: System, cmd: Command, c: Condition)
    requires Rechecks(m, cmd, c)
    ensures Advance(m, y, cmd).store == y.store
  {
    hide Do;
  }

  lemma InSyncHolds(m: Modules, vars: VarStore, g: Engine, c: Condition)
    ensures InSync(ConfigFor(m, vars), g, c) <==> TrueAt(g.isTrue, c.id) == Holds(m, vars, g, c)
  {
  }

  // Not rechecked, a condition held when it was last rechecked exactly if it did one command earlier.
  lemma HeldThenSame(m: Modules, states: seq<System>, cmds: seq<Command>, r: Rule, c: Condition, i: nat)
    requires Run(m, states, cmds) && 0 < i < |states| && Linked(m, states[i - 1])
    requires r in states[i - 1].engine.rules && c in r.conditions && !Rechecks(m, cmds[i - 1], c)
    ensures HeldThen(m, states, cmds, r, c, i) == HeldThen(m, states, cmds, r, c, i - 1)
  {
    hide Advance, Linked, WellFormed, ConfigFor, ValueAt, EventOf;
    StepKeepsFlag(m, states[i - 1], cmds[i - 1], r, c);
    var k := LastRecheck(m, states, cmds, r, c, i);
    if k >= 0 {
      SameEvents(m, states[k].store.vars, c);
    }
  }

  lemma SameEvents(m: Modules, vars: VarStore, c: Condition)
    ensures ConfigFor(m, vars).reg == m.reg
  {
  }

  /** In every state of every run, the flag of a loaded, stateful condition is whether it held when last rechecked. */
  lemma {:induction false} FlagOverRun(m: Modules, states: seq<System>, cmds: seq<Command>, r: Rule, c: Condition, i: nat)
    requires Run(m, states, cmds) && Linked(m, states[0]) && i < |states|
    requires r in states[i].engine.rules && c in r.conditions && Regular(ConfigFor(m, states[0].store.vars), c)
    ensures TrueAt(states[i].engine.isTrue, c.id) <==> HeldThen(m, states, cmds, r, c, i)
    decreases i
  {
    hide Advance, Linked, WellFormed, ConfigFor, Regular, TrueAt, Rechecks, Holds;
    if i > 0 {
      var y, cmd := states[i - 1], cmds[i - 1];
      RunLinked(m, states, cmds, i - 1);
      RegularAnyVars(m, states[0].store.vars, y.store.vars, c);
      if r !in y.engine.rules {
        JoinsFalse(m, y, cmd, r, c);
        forall j | 0 <= j < i && r in states[j].engine.rules ensures false {
          SeenOverRun(m, states, cmds, r, j, i - 1);
          SeenStays(m, y, cmd, r);
        }
      } else if Rechecks(m, cmd, c) {
        RecheckSyncs(m, y, cmd, r, c);
        RecheckKeepsStore(m, y, cmd, c);
        InSyncHolds(m, y.store.vars, states[i].engine, c);
      } else {
        FlagOverRun(m, states, cmds, r, c, i - 1);
        StepKeepsFlag(m, y, cmd, r, c);
        HeldThenSame(m, states, cmds, r, c, i);
      }
    }
  }

  /**
    Exactly which rules are active, in every state of every run of events, rule changes
    and variable changes, overwritten variables included: a loaded rule with only stateful
    conditions is active if and only if each of them held when it was last rechecked.
   */
  lemma ActiveIffHeld(m: Modules, states: seq<System>, cmds: seq<Command>, r: Rule, i: nat)
    requires Run(m, states, cmds) && Linked(m, states[0]) && i < |states| && r in states[i].engine.rules
    requires Stateful(ConfigFor(m, states[0].store.vars), r)
    ensures IsActive(states[i].engine.active, r) <==> forall c :: c in r.conditions ==> HeldThen(m, states, cmds, r, c, i)
  {
    hide Advance, WellFormed, ConfigFor, Regular, TrueAt, HeldThen, Inv, Proper, Below, IsActive;
    RunLinked(m, states, cmds, i);
    EvaluateMember(states[i].engine.isTrue, r);
    forall c | c in r.conditions ensures TrueAt(states[i].engine.isTrue, c.id) <==> HeldThen(m, states, cmds, r, c, i) {
      FlagOverRun(m, states, cmds, r, c, i);
    }
  }

  /** From start-up, each condition must moreover have been rechecked since the rule was loaded. */
  lemma ActiveFromStart(m: Modules, states: seq<System>, cmds: seq<Command>, r: Rule, i: nat)
    requires Run(m, states, cmds) && Start(states[0]) && i < |states| && r in states[i].engine.rules
    requires Stateful(ConfigFor(m, states[0].store.vars), r)
    ensures IsActive(states[i].engine.active, r) <==>
            forall c :: c in r.conditions ==>
              var k := LastRecheck(m, states, cmds, r, c, i);
              k >= 0 && Holds(m, states[k].store.vars, states[i].engine, c)
  {
    hide Advance, WellFormed, ConfigFor, Stateful, IsActive, Holds, Linked, Init;
    StartLinked(m, states[0]);
    ActiveIffHeld(m, states, cmds, r, i);
    forall c | c in r.conditions
      ensures HeldThen(m, states, cmds, r, c, i) <==>
              var k := LastRecheck(m, states, cmds, r, c, i);
              k >= 0 && Holds(m, states[k].store.vars, states[i].engine, c)
    {
      assert states[0].engine.rules == [];
    }
  }

  /**
    Incremental evaluation agrees with evaluation from scratch if and only if the rule's
    checks, each on the variables of its last recheck, come to the same as on the current ones.
   */
  lemma AgreesIff(m: Modules, states: seq<System>, cmds: seq<Command>, r: Rule, i: nat)
    requires Run(m, states, cmds) && Linked(m, states[0]) && i < |states| && r in states[i].engine.rules
    requires Stateful(ConfigFor(m, states[0].store.vars), r)
    ensures (IsActive(states[i].engine.active, r) <==>
             FromScratch(ConfigFor(m, states[i].store.vars), states[i].engine, r)) <==>
            ((forall c :: c in r.conditions ==> HeldThen(m, states, cmds, r, c, i)) <==>
             forall c :: c in r.conditions ==> Holds(m, states[i].store.vars, states[i].engine, c))
  {
    hide Advance, WellFormed, Stateful, IsActive, Linked, HeldThen;
    ActiveIffHeld(m, states, cmds, r, i);
  }

  /**
    Incremental evaluation equals evaluation from scratch: in every state of every run a
    loaded rule with only stateful conditions is active exactly when all its checks hold on
    the current event and variable values, as long as each condition has been rechecked
    since a variable it names was overwritten.
   */
  lemma IncrementalEqualsFromScratch(m: Modules, states: seq<System>, cmds: seq<Command>, r: Rule, i: nat)
    requires Run(m, states, cmds) && Linked(m, states[0]) && i < |states| && r in states[i].engine.rules
    requires Stateful(ConfigFor(m, states[0].store.vars), r)
    requires forall c :: c in r.conditions ==> UpToDate(m, states, cmds, r, c, i)
    ensures IsActive(states[i].engine.active, r) <==>
            FromScratch(ConfigFor(m, states[i].store.vars), states[i].engine, r)
  {
    hide Advance, InSync, Regular, ConfigFor, WellFormed, UpToDate, Linked, HeldThen, Holds, TrueAt, IsActive, FromScratch;
    forall c | c in r.conditions
      ensures HeldThen(m, states, cmds, r, c, i) == Holds(m, states[i].store.vars, states[i].engine, c)
    {
      var p :| 0 <= p < |r.conditions| && r.conditions[p] == c;
      UpToDateInSync(m, states, cmds, r, p, i);
      InSyncHolds(m, states[i].store.vars, states[i].engine, c);
      FlagOverRun(m, states, cmds, r, c, i);
    }
    AgreesIff(m, states, cmds, r, i);
  }

  // ---------------------------------------------------------------------
  // Action traces over whole runs
  // ---------------------------------------------------------------------

  /** The command runs neither list of the rule twice in a row, judged by the state before it. */
  ghost predicate RepeatsNothing(m: Modules, y: System, cmd: Command, r: Rule) {
    match OccurrenceOf(m, y.store, cmd)
    case Some(o) => r in y.engine.rules ==> NoRepeat(ConfigFor(m, y.store.vars), y.engine, o, r)
    case None => true
  }

  /** evaluate_policy, which runs once at start-up, is not run while the rule is active and its checks hold. */
  ghost predicate NotRepeated(m: Modules, states: seq<System>, cmds: seq<Command>, r: Rule)
    requires |states| == |cmds| + 1
  {
    forall i :: 0 <= i < |cmds| && cmds[i] == Reevaluate && r in states[i].engine.rules ==>
      !(IsActive(states[i].engine.active, r) && FromScratch(ConfigFor(m, states[i].store.vars), states[i].engine, r))
  }

  lemma SystemTraceSeen(m: Modules, y: System, cmd: Command)
    requires Linked(m, y) && WellFormed(cmd) && TraceSeen(y.engine)
    ensures TraceSeen(Advance(m, y, cmd).engine)
  {
    hide Inv, Proper, Resting, Do, Below, OccurrenceOf, ConfigFor, Enabled, Advance, WellFormed;
    StepShape(m, y, cmd);
    var o := OccurrenceOf(m, y.store, cmd);
    if o.Some? {
      DoTraceSeen(ConfigFor(m, y.store.vars), y.engine, o.value);
    }
  }

  lemma SystemInStepIff(m: Modules, y: System, cmd: Command, r: Rule)
    requires Linked(m, y) && WellFormed(cmd) && TraceSeen(y.engine) && Stateful(ConfigFor(m, y.store.vars), r)
    requires r in y.engine.rules ==> InStep(y.engine, r)
    requires r in Advance(m, y, cmd).engine.rules
    ensures InStep(Advance(m, y, cmd).engine, r) <==> RepeatsNothing(m, y, cmd, r)
  {
    hide Inv, Proper, Resting, Do, Below, ConfigFor, Enabled, Advance, WellFormed, Stateful, TraceSeen, Project,
         Alternates, Validate, Built, NoRepeat, OccurrenceOf;
    StepShape(m, y, cmd);
    var o := OccurrenceOf(m, y.store, cmd);
    if o.Some? {
      StepInStepIff(ConfigFor(m, y.store.vars), y.engine, o.value, r);
    }
  }

  // What could repeat a rule's runs does not unload it.
  lemma RepeaterKeepsRule(m: Modules, y: System, cmd: Command, r: Rule)
    requires Linked(m, y) && r in y.engine.rules && !RepeatsNothing(m, y, cmd, r)
    ensures r in Advance(m, y, cmd).engine.rules
  {
    hide Inv, Proper, Resting, Below, ConfigFor, Perform, Validate, Built, RulePosition;
    SameRules(m, y, cmd);
  }

  lemma {:induction false} TraceSeenOverRun(m: Modules, states: seq<System>, cmds: seq<Command>, i: nat)
    requires Run(m, states, cmds) && Start(states[0]) && i < |states|
    ensures TraceSeen(states[i].engine) && Linked(m, states[i])
  {
    hide Advance, TraceSeen, Linked, WellFormed, Init;
    StartLinked(m, states[0]);
    RunLinked(m, states, cmds, i);
    if i == 0 {
      BlankTrace(states[0].engine);
    } else {
      TraceSeenOverRun(m, states, cmds, i - 1);
      SystemTraceSeen(m, states[i - 1], cmds[i - 1]);
    }
  }

  /** The rule's runs alternate in every state up to i in which it is loaded. */
  ghost predicate InStepUpTo(states: seq<System>, r: Rule, i: nat) {
    forall j :: 0 <= j <= i && j < |states| && r in states[j].engine.rules ==> InStep(states[j].engine, r)
  }

  /**
    Over every run of the whole engine, a rule with only stateful conditions alternates
    actions and undos, starting with actions, and is active exactly when its actions ran
    last, if and only if no command repeats its runs; each command is judged by the state
    before it.
   */
  lemma {:induction false} RunAlternatesIff(m: Modules, states: seq<System>, cmds: seq<Command>, r: Rule, i: nat)
    requires Run(m, states, cmds) && Start(states[0]) && i < |states|
    requires Stateful(ConfigFor(m, states[0].store.vars), r)
    ensures InStepUpTo(states, r, i) <==> forall j :: 0 <= j < i ==> RepeatsNothing(m, states[j], cmds[j], r)
  {
    hide Advance, Stateful, TraceSeen, InStep, ConfigFor, Linked, WellFormed, Init, RepeatsNothing;
    if i > 0 {
      var y, cmd := states[i - 1], cmds[i - 1];
      RunAlternatesIff(m, states, cmds, r, i - 1);
      assert InStepUpTo(states, r, i) <==>
             InStepUpTo(states, r, i - 1) && (r in states[i].engine.rules ==> InStep(states[i].engine, r));
      TraceSeenOverRun(m, states, cmds, i - 1);
      StatefulAnyVars(m, states[0].store.vars, y.store.vars, r);
      if InStepUpTo(states, r, i - 1) {
        LastStep(m, y, cmd, r);
      }
    }
  }

  lemma LastStep(m: Modules, y: System, cmd: Command, r: Rule)
    requires Linked(m, y) && WellFormed(cmd) && TraceSeen(y.engine) && Stateful(ConfigFor(m, y.store.vars), r)
    requires r in y.engine.rules ==> InStep(y.engine, r)
    ensures var z := Advance(m, y, cmd).engine;
            (r in z.rules ==> InStep(z, r)) <==> RepeatsNothing(m, y, cmd, r)
  {
    hide Advance, Linked, TraceSeen, Stateful, InStep, ConfigFor, WellFormed;
    if r in Advance(m, y, cmd).engine.rules {
      SystemInStepIff(m, y, cmd, r);
    } else if !RepeatsNothing(m, y, cmd, r) {
      RepeaterKeepsRule(m, y, cmd, r);
    }
  }

  lemma NothingRepeated(m: Modules, states: seq<System>, cmds: seq<Command>, r: Rule, j: nat)
    requires |states| == |cmds| + 1 && j < |cmds|
    requires OnePerEvent(ConfigFor(m, states[j].store.vars), r) && NotRepeated(m, states, cmds, r)
    ensures RepeatsNothing(m, states[j], cmds[j], r)
  {
    hide Changes, Qualifies, IsActive, FromScratch, Validate, Built, RulePosition, EventOf;
    var y, cfg := states[j], ConfigFor(m, states[j].store.vars);
    if cmds[j].Happen? {
      AtMostOneChange(cfg, y.engine.isTrue, r.conditions, cmds[j].e, cmds[j].v);
    }
  }

  /**
    In particular a rule with at most one condition per event alternates over every run
    in which evaluate_policy does not come while it is active and holds.
   */
  lemma RunAlternates(m: Modules, states: seq<System>, cmds: seq<Command>, r: Rule, i: nat)
    requires Run(m, states, cmds) && Start(states[0]) && i < |states| && NotRepeated(m, states, cmds, r)
    requires Stateful(ConfigFor(m, states[0].store.vars), r) && OnePerEvent(ConfigFor(m, states[0].store.vars), r)
    ensures r in states[i].engine.rules ==> InStep(states[i].engine, r)
  {
    hide Advance, Stateful, OnePerEvent, InStep, ConfigFor, WellFormed, Init, RepeatsNothing, NotRepeated;
    forall j | 0 <= j < i ensures RepeatsNothing(m, states[j], cmds[j], r) {
      StatefulAnyVars(m, states[0].store.vars, states[j].store.vars, r);
      NothingRepeated(m, states, cmds, r, j);
    }
    RunAlternatesIff(m, states, cmds, r, i);
  }

  /** evaluate_policy runs at start-up only: nothing but rule and variable changes comes before it. */
  predicate StartUpOnly(cmds: seq<Command>) {
    forall i, j :: 0 <= j < i < |cmds| && cmds[i] == Reevaluate ==> cmds[j].Change?
  }

  ghost predicate AllFalse(isTrue: map<nat, bool>) {
    forall id :: !TrueAt(isTrue, id)
  }

  lemma ChangeKeepsFalse(m: Modules, y: System, op: Op)
    requires Linked(m, y) && WellFormedOp(op) && AllFalse(y.engine.isTrue)
    ensures AllFalse(Advance(m, y, Change(op)).engine.isTrue)
  {
    hide Inv, Proper, Resting, Below, ConfigFor, Enabled, Advance, WellFormedOp, Unlisted, Validate, Built;
    StepShape(m, y, Change(op));
    var o := OccurrenceOf(m, y.store, Change(op));
    if o.Some? && o.value.Load? {
      forall id ensures !TrueAt(Unlisted(y.engine.isTrue, o.value.rule.conditions), id) {
        UnlistedFlags(y.engine.isTrue, o.value.rule.conditions, id);
      }
    }
  }

  lemma {:induction false} ChangesKeepFalse(m: Modules, states: seq<System>, cmds: seq<Command>, i: nat)
    requires Run(m, states, cmds) && Start(states[0]) && i < |states| && forall j :: 0 <= j < i ==> cmds[j].Change?
    ensures AllFalse(states[i].engine.isTrue)
  {
    hide Advance, Linked, AllFalse, WellFormedOp;
    if i == 0 {
      assert AllFalse(map[]) by { NothingTrue(); }
    } else {
      ChangesKeepFalse(m, states, cmds, i - 1);
      StartLinked(m, states[0]);
      RunLinked(m, states, cmds, i - 1);
      ChangeKeepsFalse(m, states[i - 1], cmds[i - 1].op);
    }
  }

  lemma NothingTrue()
    ensures AllFalse(map[])
  {
  }

  /** As xcpmd uses it, evaluate_policy repeats nobody's actions. */
  lemma StartUpRepeatsNothing(m: Modules, states: seq<System>, cmds: seq<Command>, r: Rule)
    requires Run(m, states, cmds) && Start(states[0]) && StartUpOnly(cmds)
    ensures NotRepeated(m, states, cmds, r)
  {
    hide Advance, WellFormed, Linked;
    forall i | 0 <= i < |cmds| && cmds[i] == Reevaluate && r in states[i].engine.rules
      ensures !IsActive(states[i].engine.active, r)
    {
      ChangesKeepFalse(m, states, cmds, i);
      StartLinked(m, states[0]);
      RunLinked(m, states, cmds, i);
      FalseIsInactive(m, states[i], r);
    }
  }

  lemma FalseIsInactive(m: Modules, y: System, r: Rule)
    requires Linked(m, y) && AllFalse(y.engine.isTrue) && r in y.engine.rules
    ensures !IsActive(y.engine.active, r)
  {
    hide Inv;
    assert r.conditions[0] in r.conditions;
  }

  lemma SystemStateless(m: Modules, y: System, cmd: Command, r: Rule)
    requires Linked(m, y) && WellFormed(cmd) && HasStateless(ConfigFor(m, y.store.vars), r)
    ensures var z := Advance(m, y, cmd);
            && (Undid(r) in z.engine.trace ==> Undid(r) in y.engine.trace)
            && (TwoStateless(ConfigFor(m, y.store.vars), r) && Did(r) in z.engine.trace ==> Did(r) in y.engine.trace)
  {
    hide Inv, Proper, Resting, Do, Below, OccurrenceOf, ConfigFor, Enabled, Advance, WellFormed, HasStateless, TwoStateless;
    StepShape(m, y, cmd);
    var o := OccurrenceOf(m, y.store, cmd);
    if o.Some? {
      StatelessStep(ConfigFor(m, y.store.vars), y.engine, o.value, r);
    }
  }

  /**
    Over every run of the whole engine, a rule with a condition on a stateless event is
    inactive between events and its undos never run; with conditions on two different
    stateless events its actions never run either.
   */
  lemma {:induction false} RunStateless(m: Modules, states: seq<System>, cmds: seq<Command>, r: Rule, i: nat)
    requires Run(m, states, cmds) && Start(states[0]) && i < |states|
    requires HasStateless(ConfigFor(m, states[0].store.vars), r)
    ensures r in states[i].engine.rules ==> !IsActive(states[i].engine.active, r)
    ensures Undid(r) !in states[i].engine.trace
    ensures TwoStateless(ConfigFor(m, states[0].store.vars), r) ==> Did(r) !in states[i].engine.trace
  {
    hide Advance, HasStateless, TwoStateless, ConfigFor, WellFormed, Init, IsActive, Proper, Resting, Inv, Below;
    StartLinked(m, states[0]);
    RunLinked(m, states, cmds, i);
    StatefulAnyVars(m, states[0].store.vars, states[i].store.vars, r);
    if r in states[i].engine.rules {
      StatelessInactive(ConfigFor(m, states[i].store.vars), states[i].engine, r);
    }
    if i > 0 {
      RunStateless(m, states, cmds, r, i - 1);
      RunLinked(m, states, cmds, i - 1);
      StatefulAnyVars(m, states[0].store.vars, states[i - 1].store.vars, r);
      SystemStateless(m, states[i - 1], cmds[i - 1], r);
    }
  }
}
