/**
  Evaluating rules (xcpmd/src/modules.c): handle_events re-evaluates incrementally,
  through an event's listeners; evaluate_policy starts from scratch.
 */
module PolicyEvents {
  import opened PolicyTypes
  import opened PolicyRules

  /**
    What the modules registered: the condition types, the events in list order, which of
    them are stateless, their reset values, and the checks.  A check is a pure function of
    the condition's call, its variables' values included, and the event's value.
   */
  datatype Config = Config(
    reg: Registry, events: seq<string>, stateless: set<string>, reset: map<string, Arg>, check: (Call, Arg) -> bool)

  /** A listener node: a condition and the rule it belongs to. */
  datatype Listener = Listener(cond: Condition, rule: Rule)

  /** One run of a rule's action list or undo list. */
  datatype Entry = Did(rule: Rule) | Undid(rule: Rule)

  datatype Engine = Engine(
    rules: seq<Rule>,
    isTrue: map<nat, bool>,      // per condition
    active: map<string, bool>,   // per rule
    value: map<string, Arg>,     // per event
    trace: seq<Entry>)

  function ValueAt(cfg: Config, value: map<string, Arg>, e: string): Arg {
    if e in value then value[e] else if e in cfg.reset then cfg.reset[e] else IntArg(0)
  }

  predicate TrueAt(isTrue: map<nat, bool>, id: nat) {
    id in isTrue && isTrue[id]
  }

  predicate IsActive(active: map<string, bool>, r: Rule) {
    r.name in active && active[r.name]
  }

  /** evaluate_rule: the conjunction of the conditions' flags; inversion is not consulted. */
  predicate Evaluate(isTrue: map<nat, bool>, r: Rule) {
    forall i :: 0 <= i < |r.conditions| ==> TrueAt(isTrue, r.conditions[i].id)
  }

  // ---------------------------------------------------------------------
  // Listeners, as the index holds them
  // ---------------------------------------------------------------------

  function RuleListeners(reg: Registry, r: Rule, cs: seq<Condition>, e: string): seq<Listener> {
    if cs == [] then []
    else (if EventOf(reg, cs[0]) == e then [Listener(cs[0], r)] else []) + RuleListeners(reg, r, cs[1..], e)
  }

  function Listening(reg: Registry, rules: seq<Rule>, e: string): seq<Listener> {
    if rules == [] then []
    else RuleListeners(reg, rules[0], rules[0].conditions, e) + Listening(reg, rules[1..], e)
  }

  // ---------------------------------------------------------------------
  // handle_events
  // ---------------------------------------------------------------------

  /** Every listener's flag becomes what its check says. */
  function Recheck(cfg: Config, isTrue: map<nat, bool>, ls: seq<Listener>, v: Arg): map<nat, bool>
    decreases |ls|
  {
    if ls == [] then isTrue
    else Recheck(cfg, isTrue[ls[0].cond.id := cfg.check(ls[0].cond.call, v)], ls[1..], v)
  }

  predicate Flips(cfg: Config, isTrue: map<nat, bool>, c: Condition, v: Arg) {
    TrueAt(isTrue, c.id) != cfg.check(c.call, v)
  }

  /** The checklist: one entry per listener whose flag changes. */
  function Checklist(cfg: Config, isTrue: map<nat, bool>, ls: seq<Listener>, v: Arg): seq<Rule> {
    if ls == [] then []
    else (if Flips(cfg, isTrue, ls[0].cond, v) then [ls[0].rule] else []) + Checklist(cfg, isTrue, ls[1..], v)
  }

  /** Undos of the rules that stop being true. */
  function Undone(rs: seq<Rule>, active: map<string, bool>, isTrue: map<nat, bool>): seq<Entry> {
    if rs == [] then []
    else (if IsActive(active, rs[0]) && !Evaluate(isTrue, rs[0]) then [Undid(rs[0])] else [])
         + Undone(rs[1..], active, isTrue)
  }

  /** Actions of the rules that become true. */
  function Done(rs: seq<Rule>, active: map<string, bool>, isTrue: map<nat, bool>): seq<Entry> {
    if rs == [] then []
    else (if !IsActive(active, rs[0]) && Evaluate(isTrue, rs[0]) then [Did(rs[0])] else [])
         + Done(rs[1..], active, isTrue)
  }

  function Activate(active: map<string, bool>, rs: seq<Rule>, isTrue: map<nat, bool>): map<string, bool>
    decreases |rs|
  {
    if rs == [] then active else Activate(active[rs[0].name := Evaluate(isTrue, rs[0])], rs[1..], isTrue)
  }

  function Unset(isTrue: map<nat, bool>, ls: seq<Listener>): map<nat, bool>
    decreases |ls|
  {
    if ls == [] then isTrue else Unset(isTrue[ls[0].cond.id := false], ls[1..])
  }

  /** What one call appends to the trace: all undos, then all actions. */
  function Appended(cfg: Config, s: Engine, e: string): seq<Entry> {
    var ls, v := Listening(cfg.reg, s.rules, e), ValueAt(cfg, s.value, e);
    var rs, t := Checklist(cfg, s.isTrue, ls, v), Recheck(cfg, s.isTrue, ls, v);
    Undone(rs, s.active, t) + Done(rs, s.active, t)
  }

  /** handle_events. */
  function Handle(cfg: Config, s: Engine, e: string): Engine {
    var ls, v := Listening(cfg.reg, s.rules, e), ValueAt(cfg, s.value, e);
    var rs, t := Checklist(cfg, s.isTrue, ls, v), Recheck(cfg, s.isTrue, ls, v);
    var trace := s.trace + Appended(cfg, s, e);
    if e in cfg.stateless then
      s.(isTrue := Unset(t, ls), value := s.value[e := ValueAt(cfg, map[], e)], trace := trace)
    else
      s.(isTrue := t, active := Activate(s.active, rs, t), trace := trace)
  }

  // ---------------------------------------------------------------------
  // evaluate_policy
  // ---------------------------------------------------------------------

  function RecheckAll(cfg: Config, s: Engine, isTrue: map<nat, bool>, events: seq<string>): map<nat, bool>
    decreases |events|
  {
    if events == [] then isTrue else
    var e := events[0];
    var t := if e in cfg.stateless then isTrue
             else Recheck(cfg, isTrue, Listening(cfg.reg, s.rules, e), ValueAt(cfg, s.value, e));
    RecheckAll(cfg, s, t, events[1..])
  }

  /** Every rule that is true runs its actions, whether or not it was active. */
  function DoneAll(rs: seq<Rule>, isTrue: map<nat, bool>): seq<Entry> {
    if rs == [] then []
    else (if Evaluate(isTrue, rs[0]) then [Did(rs[0])] else []) + DoneAll(rs[1..], isTrue)
  }

  function EvaluatePolicy(cfg: Config, s: Engine): Engine {
    var t := RecheckAll(cfg, s, s.isTrue, cfg.events);
    s.(isTrue := t, active := Activate(s.active, s.rules, t),
       trace := s.trace + Undone(s.rules, s.active, t) + DoneAll(s.rules, t))
  }

  // ---------------------------------------------------------------------
  // Occurrences
  // ---------------------------------------------------------------------

  datatype Occurrence =
    | Event(e: string, v: Arg)   // the event takes a value and is handled
    | Load(rule: Rule)           // a validated rule joins, with new conditions
    | Unload(k: nat)
    | Policy                     // evaluate_policy

  function Unlisted(isTrue: map<nat, bool>, cs: seq<Condition>): map<nat, bool>
    decreases |cs|
  {
    if cs == [] then isTrue else Unlisted(isTrue[cs[0].id := false], cs[1..])
  }

  function Do(cfg: Config, s: Engine, op: Occurrence): Engine {
    match op
    case Event(e, v) => Handle(cfg, s.(value := s.value[e := v]), e)
    case Load(r) =>
      s.(rules := s.rules + [r], isTrue := Unlisted(s.isTrue, r.conditions), active := s.active[r.name := false])
    case Unload(k) => if k < |s.rules| then s.(rules := s.rules[..k] + s.rules[k + 1..]) else s
    case Policy => EvaluatePolicy(cfg, s)
  }

  /** A rule joins with a new name, at least one condition, and condition objects not seen before. */
  ghost predicate CanLoad(s: Engine, r: Rule) {
    && r.conditions != [] && DistinctIds(r.conditions)
    && (forall q :: q in s.rules ==> q.name != r.name)
    && (forall c :: c in r.conditions ==> c.id !in s.isTrue)
  }

  ghost predicate Enabled(s: Engine, op: Occurrence) {
    op.Load? ==> CanLoad(s, op.rule)
  }

  /** Nothing loaded yet. */
  ghost predicate Blank(s: Engine) {
    s.rules == [] && s.isTrue == map[] && s.trace == []
  }
}
