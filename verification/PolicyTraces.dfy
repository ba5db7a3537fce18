/**
  What every step of evaluating rules guarantees (xcpmd/src/modules.c): which flags and
  rules it changes, that incremental evaluation stays in step with the checks, and what
  it adds to a rule's action trace.
 */
module PolicyTraces {
  import opened PolicyTypes
  import opened PolicyRules
  import opened PolicyEvents

  // ---------------------------------------------------------------------
  // The resting invariant
  // ---------------------------------------------------------------------

  /** An id belongs to one condition of one loaded rule. */
  ghost predicate IdsOwned(rules: seq<Rule>) {
    forall r, q, c, d :: r in rules && q in rules && c in r.conditions && d in q.conditions && c.id == d.id ==>
      r == q && c == d
  }

  ghost predicate NamesOwned(rules: seq<Rule>) {
    forall i, j :: 0 <= i < j < |rules| ==> rules[i].name != rules[j].name
  }

  ghost predicate Stateless(cfg: Config, c: Condition) {
    EventOf(cfg.reg, c) in cfg.stateless
  }

  /** Between events: stateless conditions are false and a rule is active exactly when its flags are all true. */
  ghost predicate Resting(cfg: Config, s: Engine) {
    && (forall r, c :: r in s.rules && c in r.conditions && Stateless(cfg, c) ==> !TrueAt(s.isTrue, c.id))
    && (forall r :: r in s.rules ==> (IsActive(s.active, r) <==> Evaluate(s.isTrue, r)))
  }

  ghost predicate Proper(s: Engine) {
    && IdsOwned(s.rules) && NamesOwned(s.rules)
    && (forall r :: r in s.rules ==> r.conditions != [])
    && (forall r, c :: r in s.rules && c in r.conditions ==> c.id in s.isTrue)
  }

  // ---------------------------------------------------------------------
  // Listeners
  // ---------------------------------------------------------------------

  lemma {:induction false} RuleListenersMember(reg: Registry, r: Rule, cs: seq<Condition>, e: string, l: Listener)
    ensures l in RuleListeners(reg, r, cs, e) <==> l.rule == r && l.cond in cs && EventOf(reg, l.cond) == e
  {
    if cs != [] {
      RuleListenersMember(reg, r, cs[1..], e, l);
      assert l.cond in cs <==> l.cond == cs[0] || l.cond in cs[1..];
    }
  }

  /** The listeners of an event are exactly the conditions of loaded rules that use it. */
  lemma {:induction false} ListeningMember(reg: Registry, rules: seq<Rule>, e: string, l: Listener)
    ensures l in Listening(reg, rules, e) <==> l.rule in rules && l.cond in l.rule.conditions && EventOf(reg, l.cond) == e
  {
    if rules != [] {
      RuleListenersMember(reg, rules[0], rules[0].conditions, e, l);
      ListeningMember(reg, rules[1..], e, l);
      assert l.rule in rules <==> l.rule == rules[0] || l.rule in rules[1..];
    }
  }

  lemma {:induction false} ListeningIds(reg: Registry, rules: seq<Rule>, e: string)
    ensures var ls := Listening(reg, rules, e);
            |IdsFor(reg, AllConditions(rules), e)| == |ls|
            && forall i :: 0 <= i < |ls| ==> IdsFor(reg, AllConditions(rules), e)[i] == ls[i].cond.id
  {
    hide EventOf, RuleListeners;
    if rules != [] {
      ListeningIds(reg, rules[1..], e);
      RuleListenersIds(reg, rules[0], rules[0].conditions, AllConditions(rules[1..]), e);
    }
  }

  lemma {:induction false} RuleListenersIds(reg: Registry, r: Rule, cs: seq<Condition>, rest: seq<Condition>, e: string)
    ensures var ls := RuleListeners(reg, r, cs, e);
            var ids := IdsFor(reg, cs + rest, e);
            |ids| == |ls| + |IdsFor(reg, rest, e)|
            && (forall i :: 0 <= i < |ls| ==> ids[i] == ls[i].cond.id)
            && ids[|ls|..] == IdsFor(reg, rest, e)
  {
    if cs == [] {
      assert cs + rest == rest;
    } else {
      assert (cs + rest)[1..] == cs[1..] + rest;
      RuleListenersIds(reg, r, cs[1..], rest, e);
    }
  }

  // ---------------------------------------------------------------------
  // Flags after a recheck
  // ---------------------------------------------------------------------

  lemma {:induction false} RecheckOther(cfg: Config, isTrue: map<nat, bool>, ls: seq<Listener>, v: Arg, id: nat)
    requires forall l :: l in ls ==> l.cond.id != id
    ensures var t := Recheck(cfg, isTrue, ls, v); (id in t <==> id in isTrue) && TrueAt(t, id) == TrueAt(isTrue, id)
    decreases |ls|
  {
    if ls != [] {
      RecheckOther(cfg, isTrue[ls[0].cond.id := cfg.check(ls[0].cond.call, v)], ls[1..], v, id);
    }
  }

  lemma {:induction false} RecheckOwn(cfg: Config, isTrue: map<nat, bool>, ls: seq<Listener>, v: Arg, l: Listener)
    requires l in ls && forall k :: k in ls && k.cond.id == l.cond.id ==> k.cond == l.cond
    ensures TrueAt(Recheck(cfg, isTrue, ls, v), l.cond.id) == cfg.check(l.cond.call, v)
    ensures l.cond.id in Recheck(cfg, isTrue, ls, v)
    decreases |ls|
  {
    var first := isTrue[ls[0].cond.id := cfg.check(ls[0].cond.call, v)];
    if k :| k in ls[1..] && k.cond.id == l.cond.id {
      RecheckOwn(cfg, first, ls[1..], v, k);
    } else {
      RecheckOther(cfg, first, ls[1..], v, l.cond.id);
    }
  }

  /** After an event's listeners are rechecked, its conditions say what their checks say and no other changed. */
  lemma RecheckFlags(cfg: Config, s: Engine, isTrue: map<nat, bool>, e: string, v: Arg, r: Rule, c: Condition)
    requires IdsOwned(s.rules) && r in s.rules && c in r.conditions
    ensures var t := Recheck(cfg, isTrue, Listening(cfg.reg, s.rules, e), v);
            TrueAt(t, c.id) == if EventOf(cfg.reg, c) == e then cfg.check(c.call, v) else TrueAt(isTrue, c.id)
  {
    var ls := Listening(cfg.reg, s.rules, e);
    forall l | l in ls && l.cond.id == c.id ensures l.cond == c && EventOf(cfg.reg, c) == e {
      ListeningMember(cfg.reg, s.rules, e, l);
    }
    ListeningMember(cfg.reg, s.rules, e, Listener(c, r));
    if EventOf(cfg.reg, c) == e {
      RecheckOwn(cfg, isTrue, ls, v, Listener(c, r));
    } else {
      RecheckOther(cfg, isTrue, ls, v, c.id);
    }
  }

  lemma {:induction false} RecheckKeys(cfg: Config, isTrue: map<nat, bool>, ls: seq<Listener>, v: Arg)
    ensures isTrue.Keys <= Recheck(cfg, isTrue, ls, v).Keys
    decreases |ls|
  {
    if ls != [] {
      RecheckKeys(cfg, isTrue[ls[0].cond.id := cfg.check(ls[0].cond.call, v)], ls[1..], v);
    }
  }

  lemma {:induction false} UnsetFlags(isTrue: map<nat, bool>, ls: seq<Listener>, id: nat)
    ensures var t := Unset(isTrue, ls);
            (id in isTrue ==> id in t)
            && TrueAt(t, id) == (TrueAt(isTrue, id) && forall l :: l in ls ==> l.cond.id != id)
    decreases |ls|
  {
    if ls != [] {
      UnsetFlags(isTrue[ls[0].cond.id := false], ls[1..], id);
      assert forall l :: l in ls <==> l == ls[0] || l in ls[1..];
    }
  }

  // ---------------------------------------------------------------------
  // The checklist
  // ---------------------------------------------------------------------

  function Count(rs: seq<Rule>, r: Rule): nat {
    if rs == [] then 0 else (if rs[0] == r then 1 else 0) + Count(rs[1..], r)
  }

  lemma {:induction false} CountAppend(a: seq<Rule>, b: seq<Rule>, r: Rule)
    ensures Count(a + b, r) == Count(a, r) + Count(b, r)
  {
    if a == [] {
      assert a + b == b;
    } else {
      assert (a + b)[1..] == a[1..] + b;
      CountAppend(a[1..], b, r);
    }
  }

  lemma {:induction false} CountIn(rs: seq<Rule>, r: Rule)
    ensures Count(rs, r) > 0 <==> r in rs
  {
    if rs != [] {
      CountIn(rs[1..], r);
    }
  }

  /** How many conditions of the list use the event and change when it is rechecked. */
  function Changes(cfg: Config, isTrue: map<nat, bool>, cs: seq<Condition>, e: string, v: Arg): nat {
    if cs == [] then 0
    else (if EventOf(cfg.reg, cs[0]) == e && Flips(cfg, isTrue, cs[0], v) then 1 else 0)
         + Changes(cfg, isTrue, cs[1..], e, v)
  }

  lemma {:induction false} ChecklistAppend(cfg: Config, isTrue: map<nat, bool>, a: seq<Listener>, b: seq<Listener>, v: Arg)
    ensures Checklist(cfg, isTrue, a + b, v) == Checklist(cfg, isTrue, a, v) + Checklist(cfg, isTrue, b, v)
  {
    if a == [] {
      assert a + b == b;
    } else {
      assert (a + b)[1..] == a[1..] + b;
      ChecklistAppend(cfg, isTrue, a[1..], b, v);
    }
  }

  lemma {:induction false} ChecklistOfRule(cfg: Config, isTrue: map<nat, bool>, r: Rule, cs: seq<Condition>,
                                           e: string, v: Arg, q: Rule)
    ensures Count(Checklist(cfg, isTrue, RuleListeners(cfg.reg, r, cs, e), v), q) ==
            if q == r then Changes(cfg, isTrue, cs, e, v) else 0
  {
    hide EventOf, Flips;
    if cs != [] {
      var rest := RuleListeners(cfg.reg, r, cs[1..], e);
      ChecklistOfRule(cfg, isTrue, r, cs[1..], e, v, q);
      if EventOf(cfg.reg, cs[0]) == e {
        ChecklistCons(cfg, isTrue, Listener(cs[0], r), rest, v, q);
      } else {
        assert [] + rest == rest;
      }
    }
  }

  lemma ChecklistCons(cfg: Config, isTrue: map<nat, bool>, l: Listener, ls: seq<Listener>, v: Arg, q: Rule)
    ensures Count(Checklist(cfg, isTrue, [l] + ls, v), q) ==
            (if Flips(cfg, isTrue, l.cond, v) && l.rule == q then 1 else 0) + Count(Checklist(cfg, isTrue, ls, v), q)
  {
    assert ([l] + ls)[1..] == ls;
    var first := if Flips(cfg, isTrue, l.cond, v) then [l.rule] else [];
    CountAppend(first, Checklist(cfg, isTrue, ls, v), q);
  }

  /** A loaded rule is on the checklist once for each of its conditions that changed. */
  lemma {:induction false} ChecklistCounts(cfg: Config, isTrue: map<nat, bool>, rules: seq<Rule>, e: string, v: Arg, q: Rule)
    requires NamesOwned(rules)
    ensures Count(Checklist(cfg, isTrue, Listening(cfg.reg, rules, e), v), q) ==
            if q in rules then Changes(cfg, isTrue, q.conditions, e, v) else 0
  {
    if rules != [] {
      var r, rest := rules[0], rules[1..];
      var ls := RuleListeners(cfg.reg, r, r.conditions, e);
      assert forall i :: 0 <= i < |rest| ==> rest[i] == rules[i + 1];
      assert r !in rest;
      ChecklistCounts(cfg, isTrue, rest, e, v, q);
      ChecklistAppend(cfg, isTrue, ls, Listening(cfg.reg, rest, e), v);
      CountAppend(Checklist(cfg, isTrue, ls, v), Checklist(cfg, isTrue, Listening(cfg.reg, rest, e), v), q);
      ChecklistOfRule(cfg, isTrue, r, r.conditions, e, v, q);
    }
  }

  lemma {:induction false} NoChanges(cfg: Config, isTrue: map<nat, bool>, cs: seq<Condition>, e: string, v: Arg)
    ensures Changes(cfg, isTrue, cs, e, v) == 0 <==>
            forall c :: c in cs && EventOf(cfg.reg, c) == e ==> !Flips(cfg, isTrue, c, v)
  {
    if cs != [] {
      NoChanges(cfg, isTrue, cs[1..], e, v);
      assert forall c :: c in cs <==> c == cs[0] || c in cs[1..];
    }
  }

  // ---------------------------------------------------------------------
  // Activity
  // ---------------------------------------------------------------------

  lemma {:induction false} ActivateAt(active: map<string, bool>, rs: seq<Rule>, isTrue: map<nat, bool>, r: Rule)
    requires forall q :: q in rs && q.name == r.name ==> q == r
    ensures IsActive(Activate(active, rs, isTrue), r) == if r in rs then Evaluate(isTrue, r) else IsActive(active, r)
    decreases |rs|
  {
    if rs != [] {
      ActivateAt(active[rs[0].name := Evaluate(isTrue, rs[0])], rs[1..], isTrue, r);
    }
  }

  lemma NameDetermines(rules: seq<Rule>, r: Rule, q: Rule)
    requires NamesOwned(rules) && r in rules && q in rules && r.name == q.name
    ensures r == q
  {
  }

  lemma EvaluateMember(isTrue: map<nat, bool>, r: Rule)
    ensures Evaluate(isTrue, r) <==> forall c :: c in r.conditions ==> TrueAt(isTrue, c.id)
  {
  }

  /** The rule as it is written: an inverted condition is to be false. */
  predicate AsWritten(isTrue: map<nat, bool>, r: Rule) {
    forall i :: 0 <= i < |r.conditions| ==> TrueAt(isTrue, r.conditions[i].id) != r.conditions[i].call.inverted
  }

  /** evaluate_rule, which never looks at inverters, reads a rule as written if and only if none is inverted. */
  lemma EvaluateAsWrittenIff(r: Rule)
    ensures (forall isTrue :: Evaluate(isTrue, r) == AsWritten(isTrue, r)) <==>
            forall i :: 0 <= i < |r.conditions| ==> !r.conditions[i].call.inverted
  {
    var allTrue := map c | c in r.conditions :: c.id := true;
    assert forall i :: 0 <= i < |r.conditions| ==> r.conditions[i] in r.conditions && TrueAt(allTrue, r.conditions[i].id);
    assert Evaluate(allTrue, r);
  }

  /** The flags and the checklist of handling e in s. */
  ghost function Rechecked(cfg: Config, s: Engine, e: string): map<nat, bool> {
    Recheck(cfg, s.isTrue, Listening(cfg.reg, s.rules, e), ValueAt(cfg, s.value, e))
  }

  ghost function Listed(cfg: Config, s: Engine, e: string): seq<Rule> {
    Checklist(cfg, s.isTrue, Listening(cfg.reg, s.rules, e), ValueAt(cfg, s.value, e))
  }

  /** A loaded rule that is not on the checklist evaluates as it did before. */
  lemma UnlistedSame(cfg: Config, s: Engine, e: string, r: Rule)
    requires Proper(s) && r in s.rules && r !in Listed(cfg, s, e)
    ensures Evaluate(Rechecked(cfg, s, e), r) == Evaluate(s.isTrue, r)
  {
    var v, t := ValueAt(cfg, s.value, e), Rechecked(cfg, s, e);
    CountIn(Listed(cfg, s, e), r);
    ChecklistCounts(cfg, s.isTrue, s.rules, e, v, r);
    NoChanges(cfg, s.isTrue, r.conditions, e, v);
    EvaluateMember(t, r);
    EvaluateMember(s.isTrue, r);
    forall c | c in r.conditions ensures TrueAt(t, c.id) == TrueAt(s.isTrue, c.id) {
      RecheckFlags(cfg, s, s.isTrue, e, v, r, c);
    }
  }

  lemma ListedIsLoaded(cfg: Config, s: Engine, e: string, q: Rule)
    requires NamesOwned(s.rules) && q in Listed(cfg, s, e)
    ensures q in s.rules
  {
    CountIn(Listed(cfg, s, e), q);
    ChecklistCounts(cfg, s.isTrue, s.rules, e, ValueAt(cfg, s.value, e), q);
  }

  // ---------------------------------------------------------------------
  // Handling an event keeps the invariant
  // ---------------------------------------------------------------------

  /** Handling a stateless event leaves every flag of a loaded condition as it was. */
  lemma StatelessFlags(cfg: Config, s: Engine, e: string, r: Rule, c: Condition)
    requires Proper(s) && Resting(cfg, s) && e in cfg.stateless && r in s.rules && c in r.conditions
    ensures TrueAt(Handle(cfg, s, e).isTrue, c.id) == TrueAt(s.isTrue, c.id)
  {
    hide Checklist, Appended;
    var ls := Listening(cfg.reg, s.rules, e);
    RecheckFlags(cfg, s, s.isTrue, e, ValueAt(cfg, s.value, e), r, c);
    UnsetFlags(Rechecked(cfg, s, e), ls, c.id);
    ListeningMember(cfg.reg, s.rules, e, Listener(c, r));
    forall l | l in ls && l.cond.id == c.id ensures EventOf(cfg.reg, c) == e {
      ListeningMember(cfg.reg, s.rules, e, l);
    }
  }

  lemma HandleKeys(cfg: Config, s: Engine, e: string)
    ensures s.isTrue.Keys <= Handle(cfg, s, e).isTrue.Keys
  {
    hide Checklist, Appended;
    var ls := Listening(cfg.reg, s.rules, e);
    RecheckKeys(cfg, s.isTrue, ls, ValueAt(cfg, s.value, e));
    forall id | id in s.isTrue ensures id in Handle(cfg, s, e).isTrue {
      UnsetFlags(Rechecked(cfg, s, e), ls, id);
    }
  }

  lemma HandleResting(cfg: Config, s: Engine, e: string)
    requires Proper(s) && Resting(cfg, s)
    ensures Proper(Handle(cfg, s, e)) && Resting(cfg, Handle(cfg, s, e))
  {
    hide Recheck, Checklist, Appended, Listening, Unset, Activate;
    var t := Handle(cfg, s, e);
    HandleKeys(cfg, s, e);
    if e in cfg.stateless {
      forall r | r in s.rules
        ensures Evaluate(t.isTrue, r) == Evaluate(s.isTrue, r)
        ensures forall c :: c in r.conditions ==> TrueAt(t.isTrue, c.id) == TrueAt(s.isTrue, c.id)
      {
        forall c | c in r.conditions ensures TrueAt(t.isTrue, c.id) == TrueAt(s.isTrue, c.id) {
          StatelessFlags(cfg, s, e, r, c);
        }
      }
    } else {
      forall r, c | r in s.rules && c in r.conditions && Stateless(cfg, c) ensures !TrueAt(t.isTrue, c.id) {
        RecheckFlags(cfg, s, s.isTrue, e, ValueAt(cfg, s.value, e), r, c);
      }
      forall r | r in s.rules ensures IsActive(t.active, r) == Evaluate(t.isTrue, r) {
        HandleActive(cfg, s, e, r);
      }
    }
  }

  lemma HandleActive(cfg: Config, s: Engine, e: string, r: Rule)
    requires Proper(s) && Resting(cfg, s) && e !in cfg.stateless && r in s.rules
    ensures IsActive(Handle(cfg, s, e).active, r) == Evaluate(Handle(cfg, s, e).isTrue, r)
  {
    hide Recheck, Checklist, Appended, Listening, Activate;
    var rs := Listed(cfg, s, e);
    forall q | q in rs && q.name == r.name ensures q == r {
      ListedIsLoaded(cfg, s, e, q);
      NameDetermines(s.rules, r, q);
    }
    ActivateAt(s.active, rs, Rechecked(cfg, s, e), r);
    if r !in rs {
      UnlistedSame(cfg, s, e, r);
    }
  }

  // ---------------------------------------------------------------------
  // evaluate_policy
  // ---------------------------------------------------------------------

  lemma {:induction false} RecheckAllFlags(cfg: Config, s: Engine, isTrue: map<nat, bool>, events: seq<string>,
                                           r: Rule, c: Condition)
    requires IdsOwned(s.rules) && r in s.rules && c in r.conditions
    ensures var t := RecheckAll(cfg, s, isTrue, events);
            var e := EventOf(cfg.reg, c);
            TrueAt(t, c.id) ==
            if e in events && e !in cfg.stateless then cfg.check(c.call, ValueAt(cfg, s.value, e))
            else TrueAt(isTrue, c.id)
    decreases |events|
  {
    hide Recheck, Listening, EventOf;
    if events != [] {
      var e := events[0];
      var v := ValueAt(cfg, s.value, e);
      var t := if e in cfg.stateless then isTrue else Recheck(cfg, isTrue, Listening(cfg.reg, s.rules, e), v);
      RecheckFlags(cfg, s, isTrue, e, v, r, c);
      RecheckAllFlags(cfg, s, t, events[1..], r, c);
      assert EventOf(cfg.reg, c) in events <==> EventOf(cfg.reg, c) == e || EventOf(cfg.reg, c) in events[1..];
    }
  }

  lemma {:induction false} RecheckAllKeys(cfg: Config, s: Engine, isTrue: map<nat, bool>, events: seq<string>)
    ensures isTrue.Keys <= RecheckAll(cfg, s, isTrue, events).Keys
    decreases |events|
  {
    hide Recheck, Listening;
    if events != [] {
      var e, v := events[0], ValueAt(cfg, s.value, events[0]);
      RecheckKeys(cfg, isTrue, Listening(cfg.reg, s.rules, e), v);
      RecheckAllKeys(cfg, s, if e in cfg.stateless then isTrue else Recheck(cfg, isTrue, Listening(cfg.reg, s.rules, e), v),
                     events[1..]);
    }
  }

  lemma PolicyResting(cfg: Config, s: Engine)
    requires Proper(s) && Resting(cfg, s)
    ensures Proper(EvaluatePolicy(cfg, s)) && Resting(cfg, EvaluatePolicy(cfg, s))
  {
    hide RecheckAll, Undone, DoneAll, Activate;
    var t := EvaluatePolicy(cfg, s);
    RecheckAllKeys(cfg, s, s.isTrue, cfg.events);
    forall r, c | r in s.rules && c in r.conditions && Stateless(cfg, c) ensures !TrueAt(t.isTrue, c.id) {
      RecheckAllFlags(cfg, s, s.isTrue, cfg.events, r, c);
    }
    forall r | r in s.rules ensures IsActive(t.active, r) == Evaluate(t.isTrue, r) {
      forall q | q in s.rules && q.name == r.name ensures q == r {
        NameDetermines(s.rules, r, q);
      }
      ActivateAt(s.active, s.rules, t.isTrue, r);
    }
  }

  // ---------------------------------------------------------------------
  // Loading and unloading
  // ---------------------------------------------------------------------

  lemma {:induction false} UnlistedFlags(isTrue: map<nat, bool>, cs: seq<Condition>, id: nat)
    ensures var t := Unlisted(isTrue, cs);
            (id in t <==> id in isTrue || exists c :: c in cs && c.id == id)
            && TrueAt(t, id) == (TrueAt(isTrue, id) && forall c :: c in cs ==> c.id != id)
    decreases |cs|
  {
    if cs != [] {
      UnlistedFlags(isTrue[cs[0].id := false], cs[1..], id);
      assert forall c :: c in cs <==> c == cs[0] || c in cs[1..];
    }
  }

  /** Loading a rule touches no flag and no activity of the rules already loaded. */
  lemma LoadKeeps(cfg: Config, s: Engine, r: Rule, q: Rule)
    requires Proper(s) && CanLoad(s, r) && q in s.rules
    ensures var t := Do(cfg, s, Load(r));
            && IsActive(t.active, q) == IsActive(s.active, q)
            && forall c :: c in q.conditions ==> c.id in t.isTrue && TrueAt(t.isTrue, c.id) == TrueAt(s.isTrue, c.id)
  {
    forall c | c in q.conditions
      ensures c.id in Do(cfg, s, Load(r)).isTrue
      ensures TrueAt(Do(cfg, s, Load(r)).isTrue, c.id) == TrueAt(s.isTrue, c.id)
    {
      UnlistedFlags(s.isTrue, r.conditions, c.id);
    }
  }

  lemma LoadProper(cfg: Config, s: Engine, r: Rule)
    requires Proper(s) && CanLoad(s, r)
    ensures Proper(Do(cfg, s, Load(r)))
  {
    hide Unlisted;
    var t := Do(cfg, s, Load(r));
    forall q | q in t.rules ensures q.conditions != [] && forall c :: c in q.conditions ==> c.id in t.isTrue {
      forall c | c in q.conditions ensures c.id in t.isTrue {
        UnlistedFlags(s.isTrue, r.conditions, c.id);
      }
    }
    assert forall i, j :: 0 <= i < j < |t.rules| ==> t.rules[i].name != t.rules[j].name by {
      assert forall i :: 0 <= i < |s.rules| ==> s.rules[i] in s.rules;
    }
    forall p, q, c, d | p in t.rules && q in t.rules && c in p.conditions && d in q.conditions && c.id == d.id
      ensures p == q && c == d
    {
      LoadOwns(s, r, p, q, c, d);
    }
  }

  lemma LoadOwns(s: Engine, r: Rule, p: Rule, q: Rule, c: Condition, d: Condition)
    requires Proper(s) && CanLoad(s, r)
    requires (p in s.rules || p == r) && (q in s.rules || q == r)
    requires c in p.conditions && d in q.conditions && c.id == d.id
    ensures p == q && c == d
  {
    if p == r && q == r {
      var i :| 0 <= i < |r.conditions| && r.conditions[i] == c;
      var j :| 0 <= j < |r.conditions| && r.conditions[j] == d;
      assert i == j;
    }
  }

  lemma LoadResting(cfg: Config, s: Engine, r: Rule)
    requires Proper(s) && Resting(cfg, s) && CanLoad(s, r)
    ensures Proper(Do(cfg, s, Load(r))) && Resting(cfg, Do(cfg, s, Load(r)))
  {
    hide Unlisted;
    var t := Do(cfg, s, Load(r));
    LoadProper(cfg, s, r);
    forall q | q in t.rules
      ensures IsActive(t.active, q) == Evaluate(t.isTrue, q)
      ensures forall c :: c in q.conditions && Stateless(cfg, c) ==> !TrueAt(t.isTrue, c.id)
    {
      if q in s.rules {
        LoadKeeps(cfg, s, r, q);
        EvaluateMember(t.isTrue, q);
        EvaluateMember(s.isTrue, q);
      } else {
        forall c | c in q.conditions ensures !TrueAt(t.isTrue, c.id) {
          UnlistedFlags(s.isTrue, r.conditions, c.id);
        }
        assert q.conditions[0] in q.conditions;
      }
    }
  }

  // What is said of all loaded rules stays true of fewer of them.
  lemma FewerRules(cfg: Config, s: Engine, t: Engine)
    requires Proper(s) && Resting(cfg, s) && NamesOwned(t.rules) && forall r :: r in t.rules ==> r in s.rules
    requires t.isTrue == s.isTrue && t.active == s.active
    ensures Proper(t) && Resting(cfg, t)
  {
    hide Evaluate, EventOf, NamesOwned, TrueAt, IsActive;
    forall r, q, c, d | r in t.rules && q in t.rules && c in r.conditions && d in q.conditions && c.id == d.id
      ensures r == q && c == d
    {
      assert r in s.rules && q in s.rules;
    }
  }

  lemma UnloadResting(cfg: Config, s: Engine, k: nat)
    requires Proper(s) && Resting(cfg, s)
    ensures Proper(Do(cfg, s, Unload(k))) && Resting(cfg, Do(cfg, s, Unload(k)))
  {
    hide Resting, IdsOwned;
    if k < |s.rules| {
      var t := Do(cfg, s, Unload(k));
      assert forall i :: 0 <= i < |t.rules| ==> t.rules[i] == s.rules[if i < k then i else i + 1];
      FewerRules(cfg, s, t);
    }
  }

  lemma DoResting(cfg: Config, s: Engine, op: Occurrence)
    requires Proper(s) && Resting(cfg, s) && Enabled(s, op)
    ensures Proper(Do(cfg, s, op)) && Resting(cfg, Do(cfg, s, op))
  {
    hide Handle, EvaluatePolicy, Unlisted;
    match op
    case Event(e, v) =>
      assert Proper(s.(value := s.value[e := v])) && Resting(cfg, s.(value := s.value[e := v]));
      HandleResting(cfg, s.(value := s.value[e := v]), e);
    case Load(r) => LoadResting(cfg, s, r);
    case Unload(k) => UnloadResting(cfg, s, k);
    case Policy => PolicyResting(cfg, s);
  }

  // ---------------------------------------------------------------------
  // Incremental evaluation agrees with evaluation from scratch
  // ---------------------------------------------------------------------

  /** The condition uses a stateful, listed event. */
  ghost predicate Regular(cfg: Config, c: Condition) {
    EventOf(cfg.reg, c) in cfg.events && !Stateless(cfg, c)
  }

  ghost predicate Stateful(cfg: Config, r: Rule) {
    forall c :: c in r.conditions ==> Regular(cfg, c)
  }

  /** The conjunction of the rule's checks on the current event values. */
  ghost predicate FromScratch(cfg: Config, s: Engine, r: Rule) {
    forall c :: c in r.conditions ==> cfg.check(c.call, ValueAt(cfg, s.value, EventOf(cfg.reg, c)))
  }

  /** The condition's flag says what its check says now. */
  ghost predicate InSync(cfg: Config, s: Engine, c: Condition) {
    TrueAt(s.isTrue, c.id) == cfg.check(c.call, ValueAt(cfg, s.value, EventOf(cfg.reg, c)))
  }

  lemma PolicySyncs(cfg: Config, s: Engine, r: Rule, c: Condition)
    requires Proper(s) && r in s.rules && c in r.conditions && Regular(cfg, c)
    ensures InSync(cfg, EvaluatePolicy(cfg, s), c)
  {
    hide RecheckAll, Undone, DoneAll, Activate, EventOf;
    RecheckAllFlags(cfg, s, s.isTrue, cfg.events, r, c);
  }

  // Giving an event a value does not disturb the engine at rest.
  lemma ValueRests(cfg: Config, s: Engine, e: string, v: Arg)
    requires Proper(s) && Resting(cfg, s)
    ensures var u := s.(value := s.value[e := v]); Proper(u) && Resting(cfg, u)
  {
    hide Evaluate, EventOf, TrueAt, IsActive, NamesOwned, IdsOwned;
  }

  /** Handling an event brings its own conditions in step and keeps all others as they were. */
  lemma EventSyncs(cfg: Config, s: Engine, e: string, v: Arg, r: Rule, c: Condition)
    requires Proper(s) && Resting(cfg, s) && r in s.rules && c in r.conditions && Regular(cfg, c)
    requires EventOf(cfg.reg, c) == e || InSync(cfg, s, c)
    ensures InSync(cfg, Do(cfg, s, Event(e, v)), c)
  {
    hide Handle, EventOf, TrueAt, Proper, Resting;
    var u := s.(value := s.value[e := v]);
    ValueRests(cfg, s, e, v);
    HandleValue(cfg, u, e);
    if e in cfg.stateless {
      StatelessFlags(cfg, u, e, r, c);
    } else {
      StatefulFlags(cfg, u, e, r, c);
    }
  }

  /** Only a stateless event's value changes when it is handled. */
  lemma HandleValue(cfg: Config, s: Engine, e: string)
    ensures Handle(cfg, s, e).value == if e in cfg.stateless then s.value[e := ValueAt(cfg, map[], e)] else s.value
  {
  }

  lemma StatefulFlags(cfg: Config, s: Engine, e: string, r: Rule, c: Condition)
    requires Proper(s) && e !in cfg.stateless && r in s.rules && c in r.conditions
    ensures TrueAt(Handle(cfg, s, e).isTrue, c.id) ==
            if EventOf(cfg.reg, c) == e then cfg.check(c.call, ValueAt(cfg, s.value, e)) else TrueAt(s.isTrue, c.id)
  {
    hide Recheck, Checklist, Appended, Listening, Unset, Activate, EventOf, TrueAt;
    RecheckFlags(cfg, s, s.isTrue, e, ValueAt(cfg, s.value, e), r, c);
  }

  /** At rest, a rule all of whose conditions are in step agrees with evaluation from scratch. */
  lemma SyncedActive(cfg: Config, s: Engine, r: Rule)
    requires Resting(cfg, s) && r in s.rules && forall c :: c in r.conditions ==> InSync(cfg, s, c)
    ensures IsActive(s.active, r) <==> FromScratch(cfg, s, r)
  {
    hide EventOf;
    EvaluateMember(s.isTrue, r);
  }

  lemma DoKeepsSync(cfg: Config, s: Engine, op: Occurrence, r: Rule, c: Condition)
    requires Proper(s) && Resting(cfg, s) && Enabled(s, op)
    requires r in s.rules && c in r.conditions && Regular(cfg, c) && InSync(cfg, s, c)
    ensures InSync(cfg, Do(cfg, s, op), c)
  {
    hide Handle, EvaluatePolicy, Unlisted, Regular, Proper, Resting;
    match op
    case Event(e, v) => EventSyncs(cfg, s, e, v, r, c);
    case Load(q) => LoadKeeps(cfg, s, q, r);
    case Unload(k) =>
    case Policy => PolicySyncs(cfg, s, r, c);
  }

  /** What does not recheck a condition leaves its flag and its event's value as they were. */
  lemma DoKeepsFlag(cfg: Config, s: Engine, op: Occurrence, r: Rule, c: Condition)
    requires Proper(s) && Resting(cfg, s) && Enabled(s, op) && r in s.rules && c in r.conditions
    requires op != Policy && (op.Event? ==> op.e != EventOf(cfg.reg, c))
    ensures var t := Do(cfg, s, op);
            && TrueAt(t.isTrue, c.id) == TrueAt(s.isTrue, c.id)
            && ValueAt(cfg, t.value, EventOf(cfg.reg, c)) == ValueAt(cfg, s.value, EventOf(cfg.reg, c))
  {
    hide Handle, Unlisted, Proper, Resting, EventOf, TrueAt;
    match op
    case Event(e, v) =>
      var u := s.(value := s.value[e := v]);
      ValueRests(cfg, s, e, v);
      HandleValue(cfg, u, e);
      if e in cfg.stateless {
        StatelessFlags(cfg, u, e, r, c);
      } else {
        StatefulFlags(cfg, u, e, r, c);
      }
    case Load(q) => LoadKeeps(cfg, s, q, r);
    case Unload(k) =>
  }

  lemma DoKeys(cfg: Config, s: Engine, op: Occurrence)
    ensures s.isTrue.Keys <= Do(cfg, s, op).isTrue.Keys
  {
    hide Handle, EvaluatePolicy, Unlisted;
    match op
    case Event(e, v) => HandleKeys(cfg, s.(value := s.value[e := v]), e);
    case Load(r) =>
      forall id | id in s.isTrue ensures id in Unlisted(s.isTrue, r.conditions) {
        UnlistedFlags(s.isTrue, r.conditions, id);
      }
    case Unload(k) =>
    case Policy => PolicyKeys(cfg, s);
  }

  lemma PolicyKeys(cfg: Config, s: Engine)
    ensures s.isTrue.Keys <= EvaluatePolicy(cfg, s).isTrue.Keys
  {
    hide RecheckAll, Undone, DoneAll, Activate;
    RecheckAllKeys(cfg, s, s.isTrue, cfg.events);
  }

  ghost predicate IdsSeen(s: Engine, r: Rule) {
    r.conditions != [] && forall c :: c in r.conditions ==> c.id in s.isTrue
  }

  /** Rules join only by being loaded, with new conditions, so a rule seen before does not come back. */
  lemma NeverReloaded(cfg: Config, s: Engine, op: Occurrence, r: Rule)
    requires Enabled(s, op) && IdsSeen(s, r) && r in Do(cfg, s, op).rules
    ensures r in s.rules
  {
    hide Recheck, Checklist, Appended, Listening, Unset, Activate, RecheckAll, Undone, DoneAll, Unlisted;
    assert r.conditions[0] in r.conditions;
  }

  // ---------------------------------------------------------------------
  // Action traces
  // ---------------------------------------------------------------------

  /** The runs of one rule in the trace: true for its actions, false for its undos. */
  function Project(trace: seq<Entry>, r: Rule): seq<bool> {
    if trace == [] then [] else
    (if trace[0] == Did(r) then [true] else if trace[0] == Undid(r) then [false] else []) + Project(trace[1..], r)
  }

  lemma {:induction false} ProjectAppend(a: seq<Entry>, b: seq<Entry>, r: Rule)
    ensures Project(a + b, r) == Project(a, r) + Project(b, r)
  {
    if a == [] {
      assert a + b == b;
    } else {
      assert (a + b)[1..] == a[1..] + b;
      ProjectAppend(a[1..], b, r);
    }
  }

  function Times(b: bool, n: nat): seq<bool> {
    seq(n, _ => b)
  }

  lemma {:induction false} ProjectUndone(rs: seq<Rule>, active: map<string, bool>, isTrue: map<nat, bool>, r: Rule)
    ensures Project(Undone(rs, active, isTrue), r) ==
            Times(false, if IsActive(active, r) && !Evaluate(isTrue, r) then Count(rs, r) else 0)
  {
    hide Evaluate, IsActive;
    if rs != [] {
      ProjectUndone(rs[1..], active, isTrue, r);
      var first := if IsActive(active, rs[0]) && !Evaluate(isTrue, rs[0]) then [Undid(rs[0])] else [];
      ProjectAppend(first, Undone(rs[1..], active, isTrue), r);
    }
  }

  lemma {:induction false} ProjectDone(rs: seq<Rule>, active: map<string, bool>, isTrue: map<nat, bool>, r: Rule)
    ensures Project(Done(rs, active, isTrue), r) ==
            Times(true, if !IsActive(active, r) && Evaluate(isTrue, r) then Count(rs, r) else 0)
  {
    hide Evaluate, IsActive;
    if rs != [] {
      ProjectDone(rs[1..], active, isTrue, r);
      var first := if !IsActive(active, rs[0]) && Evaluate(isTrue, rs[0]) then [Did(rs[0])] else [];
      ProjectAppend(first, Done(rs[1..], active, isTrue), r);
    }
  }

  lemma {:induction false} ProjectDoneAll(rs: seq<Rule>, isTrue: map<nat, bool>, r: Rule)
    ensures Project(DoneAll(rs, isTrue), r) == Times(true, if Evaluate(isTrue, r) then Count(rs, r) else 0)
  {
    hide Evaluate;
    if rs != [] {
      ProjectDoneAll(rs[1..], isTrue, r);
      ProjectAppend(if Evaluate(isTrue, rs[0]) then [Did(rs[0])] else [], DoneAll(rs[1..], isTrue), r);
    }
  }

  lemma {:induction false} CountOnce(rules: seq<Rule>, r: Rule)
    requires NamesOwned(rules)
    ensures Count(rules, r) == if r in rules then 1 else 0
  {
    if rules != [] {
      assert forall i :: 0 <= i < |rules[1..]| ==> rules[1..][i] == rules[i + 1];
      CountOnce(rules[1..], r);
    }
  }

  /**
    What one handled event runs for a loaded rule: if the rule flips, its actions or its
    undos, once for each of its conditions that changed; otherwise nothing.
   */
  lemma HandleRuns(cfg: Config, s: Engine, e: string, r: Rule)
    requires NamesOwned(s.rules)
    ensures var was, now := IsActive(s.active, r), Evaluate(Rechecked(cfg, s, e), r);
            var n := if r in s.rules then Changes(cfg, s.isTrue, r.conditions, e, ValueAt(cfg, s.value, e)) else 0;
            Project(Appended(cfg, s, e), r) == if was == now then [] else Times(now, n)
  {
    hide Recheck, Checklist, Listening, Evaluate, IsActive;
    var rs, t := Listed(cfg, s, e), Rechecked(cfg, s, e);
    ProjectAppend(Undone(rs, s.active, t), Done(rs, s.active, t), r);
    ProjectUndone(rs, s.active, t, r);
    ProjectDone(rs, s.active, t, r);
    ChecklistCounts(cfg, s.isTrue, s.rules, e, ValueAt(cfg, s.value, e), r);
  }

  lemma {:induction false} UndoneKinds(rs: seq<Rule>, active: map<string, bool>, isTrue: map<nat, bool>)
    ensures forall x :: x in Undone(rs, active, isTrue) ==> x.Undid?
    ensures forall x :: x in Done(rs, active, isTrue) ==> x.Did?
  {
    hide Evaluate, IsActive;
    if rs != [] {
      UndoneKinds(rs[1..], active, isTrue);
    }
  }

  /** In one handled event every undo runs before every action. */
  lemma UndosPrecedeActions(cfg: Config, s: Engine, e: string)
    ensures var ran := Appended(cfg, s, e); forall i, j :: 0 <= i < j < |ran| && ran[j].Undid? ==> ran[i].Undid?
  {
    hide Recheck, Checklist, Listening;
    var rs, t, ran := Listed(cfg, s, e), Rechecked(cfg, s, e), Appended(cfg, s, e);
    UndoneKinds(rs, s.active, t);
    var us, ds := Undone(rs, s.active, t), Done(rs, s.active, t);
    assert forall i :: 0 <= i < |us| ==> ran[i] == us[i] && us[i] in us;
    assert forall i :: |us| <= i < |ran| ==> ran[i] == ds[i - |us|] && ds[i - |us|] in ds;
  }

  // ---------------------------------------------------------------------
  // Alternation
  // ---------------------------------------------------------------------

  /** Actions, undos, actions, and so on. */
  ghost predicate Alternates(p: seq<bool>) {
    forall i :: 0 <= i < |p| ==> p[i] == (i % 2 == 0)
  }

  /** The rule's runs alternate, and it is active exactly when its actions ran last. */
  ghost predicate InStep(s: Engine, r: Rule) {
    var p := Project(s.trace, r);
    Alternates(p) && (IsActive(s.active, r) <==> |p| % 2 == 1)
  }

  /** No two conditions of the rule use the same event. */
  ghost predicate OnePerEvent(cfg: Config, r: Rule) {
    forall i, j :: 0 <= i < j < |r.conditions| ==> EventOf(cfg.reg, r.conditions[i]) != EventOf(cfg.reg, r.conditions[j])
  }

  lemma {:induction false} AtMostOneChange(cfg: Config, isTrue: map<nat, bool>, cs: seq<Condition>, e: string, v: Arg)
    requires forall i, j :: 0 <= i < j < |cs| ==> EventOf(cfg.reg, cs[i]) != EventOf(cfg.reg, cs[j])
    ensures Changes(cfg, isTrue, cs, e, v) <= 1
  {
    hide EventOf, Flips;
    if cs != [] {
      var rest := cs[1..];
      assert forall i :: 0 <= i < |rest| ==> rest[i] == cs[i + 1];
      AtMostOneChange(cfg, isTrue, rest, e, v);
      NoChanges(cfg, isTrue, rest, e, v);
    }
  }

  lemma InStepExtends(s: Engine, t: Engine, r: Rule)
    requires InStep(s, r)
    requires var was, now := IsActive(s.active, r), IsActive(t.active, r);
             Project(t.trace, r) == Project(s.trace, r) + if was == now then [] else [now]
    ensures InStep(t, r)
  {
    hide Project, IsActive;
  }

  // A rule that flips does so because one of its conditions changed.
  lemma FlipIsListed(cfg: Config, s: Engine, e: string, r: Rule)
    requires Proper(s) && Resting(cfg, s) && r in s.rules && IsActive(s.active, r) != Evaluate(Rechecked(cfg, s, e), r)
    ensures Changes(cfg, s.isTrue, r.conditions, e, ValueAt(cfg, s.value, e)) >= 1
  {
    hide Recheck, Checklist, Listening, Evaluate, EventOf, Changes, IsActive;
    CountIn(Listed(cfg, s, e), r);
    ChecklistCounts(cfg, s.isTrue, s.rules, e, ValueAt(cfg, s.value, e), r);
    if r !in Listed(cfg, s, e) {
      UnlistedSame(cfg, s, e, r);
    }
  }

  lemma RepeatBreaksStep(s: Engine, t: Engine, r: Rule, now: bool, n: nat)
    requires n >= 2 && Project(t.trace, r) == Project(s.trace, r) + Times(now, n)
    ensures !InStep(t, r)
  {
    hide Project;
    var p, q := Project(s.trace, r), Project(t.trace, r);
    assert q[|p|] == now && q[|p| + 1] == now;
  }

  /**
    Handling a stateful event keeps a rule's runs alternating if and only if the rule does
    not flip or at most one of its conditions changes.
   */
  lemma HandleInStepIff(cfg: Config, s: Engine, e: string, r: Rule)
    requires Proper(s) && Resting(cfg, s) && r in s.rules && InStep(s, r) && e !in cfg.stateless
    ensures InStep(Handle(cfg, s, e), r) <==>
            || IsActive(s.active, r) == Qualifies(cfg, s, e, r)
            || Changes(cfg, s.isTrue, r.conditions, e, ValueAt(cfg, s.value, e)) <= 1
  {
    hide Recheck, Checklist, Listening, Unset, Activate, Evaluate, EventOf, Changes, Appended, IsActive, Project, InStep,
         Qualifies, Proper, Resting;
    var t, now := Handle(cfg, s, e), Evaluate(Rechecked(cfg, s, e), r);
    var n := Changes(cfg, s.isTrue, r.conditions, e, ValueAt(cfg, s.value, e));
    assert NamesOwned(s.rules) by { ProperNames(s); }
    HandleRuns(cfg, s, e, r);
    ProjectAppend(s.trace, Appended(cfg, s, e), r);
    QualifiesIsEvaluate(cfg, s, e, r);
    HandleActive(cfg, s, e, r);
    if IsActive(s.active, r) != now {
      FlipIsListed(cfg, s, e, r);
      if n >= 2 {
        RepeatBreaksStep(s, t, r, now, n);
      } else {
        assert Times(now, n) == [now];
        InStepExtends(s, t, r);
      }
    } else {
      InStepExtends(s, t, r);
    }
  }

  lemma ProperNames(s: Engine)
    requires Proper(s)
    ensures NamesOwned(s.rules)
  {
  }

  /** A stateless event does not touch a rule that has no condition on one. */
  lemma HandleStatelessInStep(cfg: Config, s: Engine, e: string, r: Rule)
    requires Proper(s) && Resting(cfg, s) && r in s.rules && Stateful(cfg, r) && InStep(s, r) && e in cfg.stateless
    ensures InStep(Handle(cfg, s, e), r)
  {
    hide Recheck, Checklist, Listening, Unset, Activate, Evaluate, EventOf, Changes, Appended, IsActive, Project,
         Alternates, Stateful;
    StatefulUntouched(cfg, s, e, r);
    UnlistedSame(cfg, s, e, r);
    HandleRuns(cfg, s, e, r);
    ProjectAppend(s.trace, Appended(cfg, s, e), r);
    InStepExtends(s, Handle(cfg, s, e), r);
  }

  /** So one event keeps the alternation of a stateful rule with at most one condition per event. */
  lemma HandleInStep(cfg: Config, s: Engine, e: string, r: Rule)
    requires Proper(s) && Resting(cfg, s) && r in s.rules && Stateful(cfg, r) && OnePerEvent(cfg, r) && InStep(s, r)
    ensures InStep(Handle(cfg, s, e), r)
  {
    hide Handle, EventOf, Changes, IsActive, InStep, Stateful, Qualifies, Proper, Resting;
    if e in cfg.stateless {
      HandleStatelessInStep(cfg, s, e, r);
    } else {
      AtMostOneChange(cfg, s.isTrue, r.conditions, e, ValueAt(cfg, s.value, e));
      HandleInStepIff(cfg, s, e, r);
    }
  }

  lemma StatefulUntouched(cfg: Config, s: Engine, e: string, r: Rule)
    requires NamesOwned(s.rules) && r in s.rules && Stateful(cfg, r) && e in cfg.stateless
    ensures r !in Listed(cfg, s, e)
  {
    hide Recheck, Checklist, Listening;
    CountIn(Listed(cfg, s, e), r);
    ChecklistCounts(cfg, s.isTrue, s.rules, e, ValueAt(cfg, s.value, e), r);
    NoChanges(cfg, s.isTrue, r.conditions, e, ValueAt(cfg, s.value, e));
  }

  /** What evaluate_policy runs for a loaded rule. */
  lemma PolicyRuns(cfg: Config, s: Engine, r: Rule)
    requires Proper(s) && r in s.rules
    ensures var t := EvaluatePolicy(cfg, s);
            Project(t.trace, r) == Project(s.trace, r) +
              (if Evaluate(t.isTrue, r) then [true] else if IsActive(s.active, r) then [false] else [])
  {
    hide RecheckAll, Evaluate, Activate, Undone, DoneAll;
    var t := EvaluatePolicy(cfg, s);
    ProjectAppend(s.trace + Undone(s.rules, s.active, t.isTrue), DoneAll(s.rules, t.isTrue), r);
    ProjectAppend(s.trace, Undone(s.rules, s.active, t.isTrue), r);
    ProjectUndone(s.rules, s.active, t.isTrue, r);
    ProjectDoneAll(s.rules, t.isTrue, r);
    CountOnce(s.rules, r);
  }

  // The runs alternate afterwards unless the rule is active both before and after.
  lemma PolicyExtends(cfg: Config, s: Engine, r: Rule)
    requires Proper(s) && Resting(cfg, s) && r in s.rules && InStep(s, r)
    ensures InStep(EvaluatePolicy(cfg, s), r) <==>
            !(IsActive(s.active, r) && IsActive(EvaluatePolicy(cfg, s).active, r))
  {
    hide RecheckAll, Evaluate, Activate, Undone, DoneAll, EvaluatePolicy;
    var t := EvaluatePolicy(cfg, s);
    PolicyRuns(cfg, s, r);
    PolicyResting(cfg, s);
    PolicyKeepsRules(cfg, s);
    var p := Project(s.trace, r);
    if Evaluate(t.isTrue, r) && IsActive(s.active, r) {
      assert (p + [true])[|p|] == true && |p| % 2 == 1;
    }
  }

  // After evaluate_policy a stateful rule is active exactly when its checks held before it.
  lemma PolicyActive(cfg: Config, s: Engine, r: Rule)
    requires Proper(s) && Resting(cfg, s) && r in s.rules && Stateful(cfg, r)
    ensures IsActive(EvaluatePolicy(cfg, s).active, r) <==> FromScratch(cfg, s, r)
  {
    hide EvaluatePolicy, EventOf;
    PolicyResting(cfg, s);
    PolicyKeepsRules(cfg, s);
    forall c | c in r.conditions ensures InSync(cfg, EvaluatePolicy(cfg, s), c) {
      PolicySyncs(cfg, s, r, c);
    }
    SyncedActive(cfg, EvaluatePolicy(cfg, s), r);
  }

  /**
    evaluate_policy repeats the actions of an active rule that holds: a stateful rule's
    runs still alternate afterwards if and only if it was not active or its checks, on the
    current event values, do not all hold.
   */
  lemma PolicyInStepIff(cfg: Config, s: Engine, r: Rule)
    requires Proper(s) && Resting(cfg, s) && r in s.rules && InStep(s, r) && Stateful(cfg, r)
    ensures InStep(EvaluatePolicy(cfg, s), r) <==> !(IsActive(s.active, r) && FromScratch(cfg, s, r))
  {
    hide EvaluatePolicy, Stateful, FromScratch, InStep, IsActive, Proper, Resting;
    PolicyExtends(cfg, s, r);
    PolicyActive(cfg, s, r);
  }

  /** It never disturbs a rule with a stateless condition. */
  lemma PolicyInStepStateless(cfg: Config, s: Engine, r: Rule)
    requires Proper(s) && Resting(cfg, s) && r in s.rules && InStep(s, r) && HasStateless(cfg, r)
    ensures InStep(EvaluatePolicy(cfg, s), r)
  {
    hide EvaluatePolicy, HasStateless, InStep, IsActive, Proper, Resting;
    PolicyExtends(cfg, s, r);
    StatelessInactive(cfg, s, r);
  }

  lemma PolicyKeepsRules(cfg: Config, s: Engine)
    ensures EvaluatePolicy(cfg, s).rules == s.rules && EvaluatePolicy(cfg, s).value == s.value
  {
  }

  /** Rules in the trace have been loaded at some time. */
  ghost predicate TraceSeen(s: Engine) {
    forall x :: x in s.trace ==> IdsSeen(s, x.rule)
  }

  lemma {:induction false} ProjectNone(trace: seq<Entry>, r: Rule)
    requires forall x :: x in trace ==> x.rule != r
    ensures Project(trace, r) == []
  {
    if trace != [] {
      ProjectNone(trace[1..], r);
    }
  }

  lemma {:induction false} FiredFrom(rs: seq<Rule>, active: map<string, bool>, isTrue: map<nat, bool>, x: Entry)
    ensures x in Undone(rs, active, isTrue) || x in Done(rs, active, isTrue) || x in DoneAll(rs, isTrue) ==> x.rule in rs
  {
    hide Evaluate, IsActive;
    if rs != [] {
      FiredFrom(rs[1..], active, isTrue, x);
    }
  }

  /** Whatever a step appends to the trace belongs to a loaded rule. */
  lemma StepFires(cfg: Config, s: Engine, op: Occurrence, x: Entry)
    requires NamesOwned(s.rules)
    requires x in Do(cfg, s, op).trace && x !in s.trace
    ensures x.rule in s.rules
  {
    hide Recheck, Checklist, Listening, Evaluate, Undone, Done, DoneAll, RecheckAll, Activate, Unset, Unlisted;
    match op
    case Event(e, v) =>
      var u := s.(value := s.value[e := v]);
      FiredFrom(Listed(cfg, u, e), u.active, Rechecked(cfg, u, e), x);
      ListedIsLoaded(cfg, u, e, x.rule);
    case Policy => FiredFrom(s.rules, s.active, RecheckAll(cfg, s, s.isTrue, cfg.events), x);
    case Load(_) =>
    case Unload(_) =>
  }

  lemma DoTraceSeen(cfg: Config, s: Engine, op: Occurrence)
    requires Proper(s) && TraceSeen(s)
    ensures TraceSeen(Do(cfg, s, op))
  {
    hide Do, Project;
    DoKeys(cfg, s, op);
    forall x | x in Do(cfg, s, op).trace ensures IdsSeen(Do(cfg, s, op), x.rule) {
      if x !in s.trace {
        StepFires(cfg, s, op, x);
      }
    }
  }

  /** The occurrence runs neither list of the rule twice in a row; decided by the state before it. */
  ghost predicate NoRepeat(cfg: Config, s: Engine, op: Occurrence, r: Rule) {
    match op
    case Event(e, v) =>
      var u := s.(value := s.value[e := v]);
      || e in cfg.stateless
      || IsActive(s.active, r) == Qualifies(cfg, u, e, r)
      || Changes(cfg, s.isTrue, r.conditions, e, v) <= 1
    case Policy => !(IsActive(s.active, r) && FromScratch(cfg, s, r))
    case _ => true
  }

  /** An occurrence keeps a stateful rule's runs alternating if and only if it repeats nothing. */
  lemma StepInStepIff(cfg: Config, s: Engine, op: Occurrence, r: Rule)
    requires Proper(s) && Resting(cfg, s) && TraceSeen(s) && Enabled(s, op) && Stateful(cfg, r)
    requires r in s.rules ==> InStep(s, r)
    requires r in Do(cfg, s, op).rules
    ensures InStep(Do(cfg, s, op), r) <==> (r in s.rules ==> NoRepeat(cfg, s, op, r))
  {
    hide Handle, EvaluatePolicy, Unlisted, Stateful, Project, Changes, Qualifies, FromScratch;
    match op
    case Event(e, v) =>
      var u := s.(value := s.value[e := v]);
      HandleRules(cfg, u, e);
      ValueRests(cfg, s, e, v);
      assert InStep(u, r);
      EventInStepIff(cfg, u, e, r);
    case Load(q) =>
      if r in s.rules {
        LoadKeeps(cfg, s, q, r);
      } else {
        assert r.conditions[0] in r.conditions;
        ProjectNone(s.trace, r);
      }
    case Unload(k) =>
    case Policy =>
      PolicyKeepsRules(cfg, s);
      PolicyInStepIff(cfg, s, r);
  }

  lemma EventInStepIff(cfg: Config, s: Engine, e: string, r: Rule)
    requires Proper(s) && Resting(cfg, s) && r in s.rules && Stateful(cfg, r) && InStep(s, r)
    ensures InStep(Handle(cfg, s, e), r) <==>
            || e in cfg.stateless
            || IsActive(s.active, r) == Qualifies(cfg, s, e, r)
            || Changes(cfg, s.isTrue, r.conditions, e, ValueAt(cfg, s.value, e)) <= 1
  {
    hide Handle, Changes, IsActive, InStep, Stateful, Qualifies, Proper, Resting;
    if e in cfg.stateless {
      HandleStatelessInStep(cfg, s, e, r);
    } else {
      HandleInStepIff(cfg, s, e, r);
    }
  }

  lemma HandleRules(cfg: Config, s: Engine, e: string)
    ensures Handle(cfg, s, e).rules == s.rules
  {
  }

  lemma BlankTrace(s: Engine)
    requires Blank(s)
    ensures TraceSeen(s)
  {
  }

  // ---------------------------------------------------------------------
  // Stateless rules
  // ---------------------------------------------------------------------

  ghost predicate HasStateless(cfg: Config, r: Rule) {
    exists c :: c in r.conditions && Stateless(cfg, c)
  }

  /** Conditions on two different stateless events. */
  ghost predicate TwoStateless(cfg: Config, r: Rule) {
    exists c, d :: c in r.conditions && d in r.conditions && Stateless(cfg, c) && Stateless(cfg, d)
                   && EventOf(cfg.reg, c) != EventOf(cfg.reg, d)
  }

  /** At rest a rule with a stateless condition is inactive. */
  lemma StatelessInactive(cfg: Config, s: Engine, r: Rule)
    requires Resting(cfg, s) && r in s.rules && HasStateless(cfg, r)
    ensures !IsActive(s.active, r)
  {
    var c :| c in r.conditions && Stateless(cfg, c);
    EvaluateMember(s.isTrue, r);
  }

  /** Number of the rule's conditions on e. */
  function ConditionsOn(reg: Registry, cs: seq<Condition>, e: string): nat {
    if cs == [] then 0 else (if EventOf(reg, cs[0]) == e then 1 else 0) + ConditionsOn(reg, cs[1..], e)
  }

  /** The rule's conditions on e hold of the value and its other conditions are true. */
  ghost predicate Qualifies(cfg: Config, s: Engine, e: string, r: Rule) {
    forall c :: c in r.conditions ==>
      if EventOf(cfg.reg, c) == e then cfg.check(c.call, ValueAt(cfg, s.value, e)) else TrueAt(s.isTrue, c.id)
  }

  lemma QualifiesIsEvaluate(cfg: Config, s: Engine, e: string, r: Rule)
    requires Proper(s) && r in s.rules
    ensures Qualifies(cfg, s, e, r) <==> Evaluate(Rechecked(cfg, s, e), r)
  {
    hide Recheck, Listening, EventOf;
    EvaluateMember(Rechecked(cfg, s, e), r);
    forall c | c in r.conditions
      ensures TrueAt(Rechecked(cfg, s, e), c.id) ==
              if EventOf(cfg.reg, c) == e then cfg.check(c.call, ValueAt(cfg, s.value, e)) else TrueAt(s.isTrue, c.id)
    {
      RecheckFlags(cfg, s, s.isTrue, e, ValueAt(cfg, s.value, e), r, c);
    }
  }

  lemma {:induction false} AllChange(cfg: Config, isTrue: map<nat, bool>, cs: seq<Condition>, e: string, v: Arg)
    requires forall c :: c in cs && EventOf(cfg.reg, c) == e ==> !TrueAt(isTrue, c.id) && cfg.check(c.call, v)
    ensures Changes(cfg, isTrue, cs, e, v) == ConditionsOn(cfg.reg, cs, e)
  {
    if cs != [] {
      AllChange(cfg, isTrue, cs[1..], e, v);
    }
  }

  /**
    Each time a stateless event occurs, a loaded rule fires if and only if it qualifies,
    once per condition on that event, however often it fired before; it is never undone.
   */
  lemma StatelessFires(cfg: Config, s: Engine, e: string, r: Rule)
    requires Proper(s) && Resting(cfg, s) && r in s.rules && e in cfg.stateless
    requires exists c :: c in r.conditions && EventOf(cfg.reg, c) == e
    ensures Project(Appended(cfg, s, e), r) ==
            Times(true, if Qualifies(cfg, s, e, r) then ConditionsOn(cfg.reg, r.conditions, e) else 0)
  {
    hide Recheck, Checklist, Listening, Evaluate, IsActive, Appended;
    var c :| c in r.conditions && EventOf(cfg.reg, c) == e;
    StatelessInactive(cfg, s, r);
    HandleRuns(cfg, s, e, r);
    QualifiesIsEvaluate(cfg, s, e, r);
    if Qualifies(cfg, s, e, r) {
      AllChange(cfg, s.isTrue, r.conditions, e, ValueAt(cfg, s.value, e));
    }
  }

  /**
    The same of the event as it occurs: when a stateless event takes the value v, a rule with a
    condition on it fires, once per such condition, if and only if all those conditions
    hold of v and its other conditions are true.
   */
  lemma StatelessEventFires(cfg: Config, s: Engine, e: string, v: Arg, r: Rule)
    requires Proper(s) && Resting(cfg, s) && r in s.rules && e in cfg.stateless
    requires exists c :: c in r.conditions && EventOf(cfg.reg, c) == e
    ensures var fires := forall c :: c in r.conditions ==>
                           if EventOf(cfg.reg, c) == e then cfg.check(c.call, v) else TrueAt(s.isTrue, c.id);
            Project(Do(cfg, s, Event(e, v)).trace, r) ==
            Project(s.trace, r) + Times(true, if fires then ConditionsOn(cfg.reg, r.conditions, e) else 0)
  {
    hide Handle, Appended, EventOf, TrueAt, Proper, Resting;
    var u := s.(value := s.value[e := v]);
    ValueRests(cfg, s, e, v);
    StatelessFires(cfg, u, e, r);
    HandleTrace(cfg, u, e);
    ProjectAppend(s.trace, Appended(cfg, u, e), r);
  }

  /** A stateful event sets the flags of its own conditions to what their checks say of v, and no other flag. */
  lemma StatefulEventFlags(cfg: Config, s: Engine, e: string, v: Arg, r: Rule, c: Condition)
    requires Proper(s) && e !in cfg.stateless && r in s.rules && c in r.conditions
    ensures TrueAt(Do(cfg, s, Event(e, v)).isTrue, c.id) ==
            if EventOf(cfg.reg, c) == e then cfg.check(c.call, v) else TrueAt(s.isTrue, c.id)
  {
    hide Handle, EventOf, TrueAt, IdsOwned, NamesOwned;
    var u := s.(value := s.value[e := v]);
    assert Proper(u);
    StatefulFlags(cfg, u, e, r, c);
  }

  /** A stateful event runs the rule's actions or undos, once per changed condition, when v makes it flip. */
  lemma StatefulEventRuns(cfg: Config, s: Engine, e: string, v: Arg, r: Rule)
    requires Proper(s) && Resting(cfg, s) && r in s.rules && e !in cfg.stateless
    ensures var holds := forall c :: c in r.conditions ==>
                           if EventOf(cfg.reg, c) == e then cfg.check(c.call, v) else TrueAt(s.isTrue, c.id);
            var t := Do(cfg, s, Event(e, v));
            && Project(t.trace, r) == Project(s.trace, r) +
                 (if IsActive(s.active, r) == holds then [] else Times(holds, Changes(cfg, s.isTrue, r.conditions, e, v)))
            && IsActive(t.active, r) == holds
  {
    hide Handle, Appended, EventOf, TrueAt, Proper, Resting, IsActive, Evaluate, Changes, Rechecked;
    var u := s.(value := s.value[e := v]);
    ValueRests(cfg, s, e, v);
    assert NamesOwned(u.rules) by { ProperNames(u); }
    HandleRuns(cfg, u, e, r);
    QualifiesIsEvaluate(cfg, u, e, r);
    HandleTrace(cfg, u, e);
    ProjectAppend(s.trace, Appended(cfg, u, e), r);
    HandleActive(cfg, u, e, r);
    HandleFlags(cfg, u, e);
  }

  lemma HandleFlags(cfg: Config, s: Engine, e: string)
    requires e !in cfg.stateless
    ensures Handle(cfg, s, e).isTrue == Rechecked(cfg, s, e)
  {
    hide Appended, Recheck, Checklist, Listening, Unset, Activate;
  }

  /** After an event a stateful one has the value it took and a stateless one its reset value; others keep theirs. */
  lemma EventValues(cfg: Config, s: Engine, e: string, v: Arg, f: string)
    ensures var t := Do(cfg, s, Event(e, v));
            if f != e then (f in t.value <==> f in s.value) && (f in s.value ==> t.value[f] == s.value[f])
            else e in t.value && (e !in cfg.stateless ==> t.value[e] == v)
                 && (e in cfg.stateless && e in cfg.reset ==> t.value[e] == cfg.reset[e])
  {
    hide Handle;
    HandleValue(cfg, s.(value := s.value[e := v]), e);
  }

  /** evaluate_policy sets the flags of a stateful, listed event's conditions to what their checks say of its value. */
  lemma PolicyFlags(cfg: Config, s: Engine, r: Rule, c: Condition)
    requires Proper(s) && r in s.rules && c in r.conditions
    ensures var e, t := EventOf(cfg.reg, c), EvaluatePolicy(cfg, s);
            && (e in cfg.events && e !in cfg.stateless && e in s.value ==>
                  TrueAt(t.isTrue, c.id) == cfg.check(c.call, s.value[e]))
            && (e in cfg.events && e !in cfg.stateless && e !in s.value && e in cfg.reset ==>
                  TrueAt(t.isTrue, c.id) == cfg.check(c.call, cfg.reset[e]))
            && (e !in cfg.events || e in cfg.stateless ==> TrueAt(t.isTrue, c.id) == TrueAt(s.isTrue, c.id))
            && t.value == s.value
  {
    hide RecheckAll, Undone, DoneAll, Activate, EventOf, TrueAt;
    RecheckAllFlags(cfg, s, s.isTrue, cfg.events, r, c);
  }

  /** evaluate_policy runs all undos before all actions. */
  lemma PolicyUndosPrecedeActions(cfg: Config, s: Engine, i: nat, j: nat)
    requires var t := EvaluatePolicy(cfg, s); |s.trace| <= i < j < |t.trace| && t.trace[j].Undid?
    ensures EvaluatePolicy(cfg, s).trace[i].Undid?
  {
    hide RecheckAll, Evaluate, Activate, Undone, DoneAll;
    var t := EvaluatePolicy(cfg, s);
    var us, ds := Undone(s.rules, s.active, t.isTrue), DoneAll(s.rules, t.isTrue);
    UndoneKinds(s.rules, s.active, t.isTrue);
    DoneAllKinds(s.rules, t.isTrue);
    assert t.trace == s.trace + us + ds;
    assert forall k :: |s.trace| <= k < |s.trace| + |us| ==> t.trace[k] == us[k - |s.trace|] && us[k - |s.trace|] in us;
    assert forall k :: |s.trace| + |us| <= k < |t.trace| ==>
             t.trace[k] == ds[k - |s.trace| - |us|] && ds[k - |s.trace| - |us|] in ds;
  }

  lemma {:induction false} DoneAllKinds(rs: seq<Rule>, isTrue: map<nat, bool>)
    ensures forall x :: x in DoneAll(rs, isTrue) ==> x.Did?
  {
    hide Evaluate;
    if rs != [] {
      DoneAllKinds(rs[1..], isTrue);
    }
  }

  // Rules run in the order in which they are listed.

  lemma {:induction false} UndoneAppend(a: seq<Rule>, b: seq<Rule>, active: map<string, bool>, isTrue: map<nat, bool>)
    ensures Undone(a + b, active, isTrue) == Undone(a, active, isTrue) + Undone(b, active, isTrue)
  {
    hide Evaluate, IsActive;
    if a == [] {
      assert a + b == b;
    } else {
      assert (a + b)[1..] == a[1..] + b;
      UndoneAppend(a[1..], b, active, isTrue);
    }
  }

  lemma {:induction false} DoneAppend(a: seq<Rule>, b: seq<Rule>, active: map<string, bool>, isTrue: map<nat, bool>)
    ensures Done(a + b, active, isTrue) == Done(a, active, isTrue) + Done(b, active, isTrue)
  {
    hide Evaluate, IsActive;
    if a == [] {
      assert a + b == b;
    } else {
      assert (a + b)[1..] == a[1..] + b;
      DoneAppend(a[1..], b, active, isTrue);
    }
  }

  lemma {:induction false} DoneAllAppend(a: seq<Rule>, b: seq<Rule>, isTrue: map<nat, bool>)
    ensures DoneAll(a + b, isTrue) == DoneAll(a, isTrue) + DoneAll(b, isTrue)
  {
    hide Evaluate, IsActive;
    if a == [] {
      assert a + b == b;
    } else {
      assert (a + b)[1..] == a[1..] + b;
      DoneAllAppend(a[1..], b, isTrue);
    }
  }

  lemma HandleTrace(cfg: Config, s: Engine, e: string)
    ensures Handle(cfg, s, e).trace == s.trace + Appended(cfg, s, e)
  {
    hide Appended, Recheck, Checklist, Listening, Unset, Activate;
  }

  lemma TwoNeverQualify(cfg: Config, s: Engine, e: string, r: Rule)
    requires Resting(cfg, s) && r in s.rules && TwoStateless(cfg, r)
    ensures !Qualifies(cfg, s, e, r)
  {
    var c, d :| c in r.conditions && d in r.conditions && Stateless(cfg, c) && Stateless(cfg, d)
                && EventOf(cfg.reg, c) != EventOf(cfg.reg, d);
    assert !TrueAt(s.isTrue, c.id) && !TrueAt(s.isTrue, d.id);
  }

  /** A step runs no undo of a rule with a stateless condition, and nothing of one with two stateless events. */
  lemma StatelessStep(cfg: Config, s: Engine, op: Occurrence, r: Rule)
    requires Proper(s) && Resting(cfg, s) && HasStateless(cfg, r)
    ensures forall x :: x in Do(cfg, s, op).trace && x !in s.trace ==> x != Undid(r)
    ensures TwoStateless(cfg, r) ==> forall x :: x in Do(cfg, s, op).trace && x !in s.trace ==> x != Did(r)
  {
    hide Do;
    if r in s.rules {
      StatelessStepLoaded(cfg, s, op, r);
    } else {
      forall x | x in Do(cfg, s, op).trace && x !in s.trace ensures x.rule != r {
        StepFires(cfg, s, op, x);
      }
    }
  }

  lemma {:induction false} ProjectMember(trace: seq<Entry>, r: Rule)
    ensures true in Project(trace, r) <==> Did(r) in trace
    ensures false in Project(trace, r) <==> Undid(r) in trace
  {
    if trace != [] {
      ProjectMember(trace[1..], r);
    }
  }

  lemma StatelessStepLoaded(cfg: Config, s: Engine, op: Occurrence, r: Rule)
    requires Proper(s) && Resting(cfg, s) && HasStateless(cfg, r) && r in s.rules
    ensures Undid(r) in Do(cfg, s, op).trace ==> Undid(r) in s.trace
    ensures TwoStateless(cfg, r) && Did(r) in Do(cfg, s, op).trace ==> Did(r) in s.trace
  {
    hide Recheck, Checklist, Listening, Evaluate, IsActive, Appended, Unset, Activate, RecheckAll, Undone, DoneAll,
         TwoStateless, HasStateless, Qualifies;
    match op
    case Event(e, v) =>
      var u := s.(value := s.value[e := v]);
      assert Proper(u) && Resting(cfg, u);
      StatelessInactive(cfg, u, r);
      HandleRuns(cfg, u, e, r);
      QualifiesIsEvaluate(cfg, u, e, r);
      ProjectMember(Appended(cfg, u, e), r);
      if TwoStateless(cfg, r) {
        TwoNeverQualify(cfg, u, e, r);
      }
    case Policy =>
      PolicyResting(cfg, s);
      PolicyKeepsRules(cfg, s);
      StatelessInactive(cfg, s, r);
      StatelessInactive(cfg, EvaluatePolicy(cfg, s), r);
      PolicyRuns(cfg, s, r);
      ProjectMember(EvaluatePolicy(cfg, s).trace, r);
      ProjectMember(s.trace, r);
      assert Project(s.trace, r) + [] == Project(s.trace, r);
    case Load(_) =>
    case Unload(_) =>
  }
}
