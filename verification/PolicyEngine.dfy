/**
  handle_events and evaluate_policy (xcpmd/src/modules.c) as they run: loops over the
  listener index that update conditions, rules and events in place.
 */
module PolicyEngine {
  import opened PolicyTypes
  import opened PolicyRules
  import opened PolicyEvents
  import opened PolicyTraces

  // The loops walk a sequence from the front; one step of each specification.

  lemma RecheckStep(cfg: Config, isTrue: map<nat, bool>, ls: seq<Listener>, v: Arg, k: nat)
    requires k < |ls|
    ensures Recheck(cfg, isTrue, ls[k..], v) ==
            Recheck(cfg, isTrue[ls[k].cond.id := cfg.check(ls[k].cond.call, v)], ls[k + 1..], v)
  {
    assert ls[k..][0] == ls[k] && ls[k..][1..] == ls[k + 1..];
  }

  lemma ChecklistStep(cfg: Config, isTrue: map<nat, bool>, ls: seq<Listener>, v: Arg, k: nat)
    requires k < |ls|
    ensures Checklist(cfg, isTrue, ls[k..], v) ==
            (if Flips(cfg, isTrue, ls[k].cond, v) then [ls[k].rule] else []) + Checklist(cfg, isTrue, ls[k + 1..], v)
  {
    assert ls[k..][0] == ls[k] && ls[k..][1..] == ls[k + 1..];
  }

  lemma FiredStep(rs: seq<Rule>, active: map<string, bool>, isTrue: map<nat, bool>, k: nat)
    requires k < |rs|
    ensures Undone(rs[k..], active, isTrue) ==
            (if IsActive(active, rs[k]) && !Evaluate(isTrue, rs[k]) then [Undid(rs[k])] else [])
            + Undone(rs[k + 1..], active, isTrue)
    ensures Done(rs[k..], active, isTrue) ==
            (if !IsActive(active, rs[k]) && Evaluate(isTrue, rs[k]) then [Did(rs[k])] else [])
            + Done(rs[k + 1..], active, isTrue)
    ensures DoneAll(rs[k..], isTrue) ==
            (if Evaluate(isTrue, rs[k]) then [Did(rs[k])] else []) + DoneAll(rs[k + 1..], isTrue)
  {
    hide Evaluate, IsActive;
    assert rs[k..][0] == rs[k] && rs[k..][1..] == rs[k + 1..];
  }

  lemma ActivateStep(active: map<string, bool>, rs: seq<Rule>, isTrue: map<nat, bool>, k: nat)
    requires k < |rs|
    ensures Activate(active, rs[k..], isTrue) == Activate(active[rs[k].name := Evaluate(isTrue, rs[k])], rs[k + 1..], isTrue)
  {
    hide Evaluate;
    assert rs[k..][0] == rs[k] && rs[k..][1..] == rs[k + 1..];
  }

  lemma UnsetStep(isTrue: map<nat, bool>, ls: seq<Listener>, k: nat)
    requires k < |ls|
    ensures Unset(isTrue, ls[k..]) == Unset(isTrue[ls[k].cond.id := false], ls[k + 1..])
  {
    assert ls[k..][0] == ls[k] && ls[k..][1..] == ls[k + 1..];
  }

  lemma RecheckAllStep(cfg: Config, s: Engine, isTrue: map<nat, bool>, k: nat)
    requires k < |cfg.events|
    ensures RecheckAll(cfg, s, isTrue, cfg.events[k..]) ==
            var e := cfg.events[k];
            RecheckAll(cfg, s, if e in cfg.stateless then isTrue
                               else Recheck(cfg, isTrue, Listening(cfg.reg, s.rules, e), ValueAt(cfg, s.value, e)),
                       cfg.events[k + 1..])
  {
    hide Recheck, Listening;
    assert cfg.events[k..][0] == cfg.events[k] && cfg.events[k..][1..] == cfg.events[k + 1..];
  }

  // ---------------------------------------------------------------------
  // evaluate_policy sets the rules' activity in two passes
  // ---------------------------------------------------------------------

  predicate SameAt(a: map<string, bool>, b: map<string, bool>, n: string) {
    (n in a <==> n in b) && (n in a && n in b ==> a[n] == b[n])
  }

  predicate Holds(a: map<string, bool>, n: string, b: bool) {
    n in a && a[n] == b
  }

  /** now is was, except that the first k rules for which the flag is `pick` have it. */
  ghost predicate Passed(was: map<string, bool>, now: map<string, bool>, rules: seq<Rule>, t: map<nat, bool>,
                         pick: bool, k: nat)
    requires k <= |rules|
  {
    && (forall j :: 0 <= j < k && Evaluate(t, rules[j]) == pick ==> Holds(now, rules[j].name, pick))
    && (forall j :: 0 <= j < |rules| && (k <= j || Evaluate(t, rules[j]) != pick) ==> SameAt(was, now, rules[j].name))
    && (forall n :: !NameTaken(rules, n) ==> SameAt(was, now, n))
  }

  lemma PassedStep(was: map<string, bool>, now: map<string, bool>, rules: seq<Rule>, t: map<nat, bool>, pick: bool, k: nat)
    requires NamesOwned(rules) && k < |rules| && Passed(was, now, rules, t, pick, k)
    ensures Passed(was, if Evaluate(t, rules[k]) == pick then now[rules[k].name := pick] else now, rules, t, pick, k + 1)
  {
    hide Evaluate;
  }

  lemma {:induction false} ActivateNames(active: map<string, bool>, rs: seq<Rule>, isTrue: map<nat, bool>, n: string)
    requires forall j :: 0 <= j < |rs| ==> rs[j].name != n
    ensures SameAt(active, Activate(active, rs, isTrue), n)
    decreases |rs|
  {
    hide Evaluate;
    if rs != [] {
      ActivateNames(active[rs[0].name := Evaluate(isTrue, rs[0])], rs[1..], isTrue, n);
    }
  }

  lemma {:induction false} ActivateHolds(active: map<string, bool>, rs: seq<Rule>, isTrue: map<nat, bool>, j: nat)
    requires NamesOwned(rs) && j < |rs|
    ensures Holds(Activate(active, rs, isTrue), rs[j].name, Evaluate(isTrue, rs[j]))
    decreases |rs|
  {
    hide Evaluate;
    var next := active[rs[0].name := Evaluate(isTrue, rs[0])];
    if j > 0 {
      assert forall i :: 0 <= i < |rs[1..]| ==> rs[1..][i] == rs[i + 1];
      ActivateHolds(next, rs[1..], isTrue, j - 1);
    } else {
      ActivateNames(next, rs[1..], isTrue, rs[0].name);
    }
  }

  /** The two passes together give every rule the value of its conditions. */
  lemma PassesActivate(was: map<string, bool>, mid: map<string, bool>, now: map<string, bool>, rules: seq<Rule>,
                       t: map<nat, bool>)
    requires NamesOwned(rules)
    requires Passed(was, mid, rules, t, false, |rules|) && Passed(mid, now, rules, t, true, |rules|)
    ensures now == Activate(was, rules, t)
  {
    hide Evaluate, Activate;
    var goal := Activate(was, rules, t);
    forall n ensures SameAt(now, goal, n) {
      if NameTaken(rules, n) {
        var j :| 0 <= j < |rules| && rules[j].name == n;
        ActivateHolds(was, rules, t, j);
        assert Evaluate(t, rules[j]) || SameAt(mid, now, rules[j].name);
      } else {
        ActivateNames(was, rules, t, n);
      }
    }
    assert forall n :: n in now ==> SameAt(now, goal, n);
    assert forall n :: n in goal ==> SameAt(now, goal, n);
  }

  // ---------------------------------------------------------------------
  // The engine
  // ---------------------------------------------------------------------

  class Runner {
    const cfg: Config
    var rules: seq<Rule>
    var index: map<string, seq<nat>>   // per event, the listening conditions
    var owner: map<nat, Listener>      // what a condition's address leads to
    var isTrue: map<nat, bool>
    var active: map<string, bool>
    var value: map<string, Arg>
    var trace: seq<Entry>

    ghost function Abs(): Engine
      reads this
    {
      Engine(rules, isTrue, active, value, trace)
    }

    /** The index is exact and leads to the conditions of the loaded rules. */
    ghost predicate Valid()
      reads this
    {
      && NamesOwned(rules) && DistinctIds(AllConditions(rules))
      && (forall e :: At(index, e) == IdsFor(cfg.reg, AllConditions(rules), e))
      && (forall r, c :: r in rules && c in r.conditions ==> c.id in owner && owner[c.id] == Listener(c, r))
    }

    /** Takes over the rules and the index that loading built. */
    constructor (c: Config, s: Engine, listeners: map<string, seq<nat>>)
      requires IdsOwned(s.rules) && NamesOwned(s.rules) && DistinctIds(AllConditions(s.rules))
      requires forall e :: At(listeners, e) == IdsFor(c.reg, AllConditions(s.rules), e)
      ensures Valid() && cfg == c && index == listeners && Abs() == s
    {
      cfg, rules, index := c, s.rules, listeners;
      owner := map r, d | r in s.rules && d in r.conditions :: d.id := Listener(d, r);
      isTrue, active, value, trace := s.isTrue, s.active, s.value, s.trace;
    }

    /** A listener reached through the index is the one that the rule list describes. */
    lemma IndexLeads(e: string)
      requires Valid()
      ensures var ls := Listening(cfg.reg, rules, e);
              && |At(index, e)| == |ls|
              && (forall k :: 0 <= k < |ls| ==>
                    At(index, e)[k] == ls[k].cond.id && ls[k].cond.id in owner && owner[ls[k].cond.id] == ls[k])
              && (forall j, k :: 0 <= j < k < |ls| ==> ls[j].cond.id != ls[k].cond.id)
    {
      hide EventOf, IdsFor, Listening, AllConditions;
      var ls := Listening(cfg.reg, rules, e);
      ListeningIds(cfg.reg, rules, e);
      IdsForDistinct(cfg.reg, AllConditions(rules), e);
      forall k | 0 <= k < |ls| ensures ls[k].cond.id in owner && owner[ls[k].cond.id] == ls[k] {
        ListeningMember(cfg.reg, rules, e, ls[k]);
      }
    }

    /** evaluate_rule. */
    method EvaluateRule(r: Rule) returns (b: bool)
      ensures b == Evaluate(isTrue, r)
    {
      for i := 0 to |r.conditions|
        invariant forall j :: 0 <= j < i ==> TrueAt(isTrue, r.conditions[j].id)
      {
        if !TrueAt(isTrue, r.conditions[i].id) {
          return false;
        }
      }
      b := true;
    }

    /** The first loop: rechecks the listeners and lists the rules of those that change. */
    method RecheckListeners(e: string) returns (checklist: seq<Rule>)
      requires Valid()
      modifies this`isTrue
      ensures isTrue == Rechecked(cfg, old(Abs()), e)
      ensures checklist == Listed(cfg, old(Abs()), e)
    {
      hide Recheck, Checklist, Listening, IdsFor, AllConditions, NamesOwned, DistinctIds, ValueAt;
      ghost var s, ls := Abs(), Listening(cfg.reg, rules, e);
      IndexLeads(e);
      hide Valid;
      var ids, v := At(index, e), ValueAt(cfg, value, e);
      checklist := [];
      assert ls[0..] == ls;
      for k := 0 to |ids|
        invariant Recheck(cfg, s.isTrue, ls, v) == Recheck(cfg, isTrue, ls[k..], v)
        invariant Checklist(cfg, s.isTrue, ls, v) == checklist + Checklist(cfg, s.isTrue, ls[k..], v)
        invariant forall j :: k <= j < |ls| ==> TrueAt(isTrue, ls[j].cond.id) == TrueAt(s.isTrue, ls[j].cond.id)
      {
        RecheckStep(cfg, isTrue, ls, v, k);
        ChecklistStep(cfg, s.isTrue, ls, v, k);
        var l := owner[ids[k]];
        var was, now := TrueAt(isTrue, l.cond.id), cfg.check(l.cond.call, v);
        assert was == TrueAt(s.isTrue, l.cond.id);
        Joined(checklist, [l.rule], Checklist(cfg, s.isTrue, ls[k + 1..], v));
        Joined(checklist, [], Checklist(cfg, s.isTrue, ls[k + 1..], v));
        if was != now {
          checklist := checklist + [l.rule];
        }
        isTrue := isTrue[l.cond.id := now];
      }
      LoopEnds(cfg, isTrue, s.isTrue, ls, v);
    }

    /** The last loop: the conditions of a stateless event are false again. */
    method ResetListeners(e: string)
      requires Valid()
      modifies this`isTrue
      ensures isTrue == Unset(old(isTrue), Listening(cfg.reg, rules, e))
    {
      hide Listening, IdsFor, AllConditions;
      ghost var ls := Listening(cfg.reg, rules, e);
      IndexLeads(e);
      var ids := At(index, e);
      assert ls[0..] == ls;
      for k := 0 to |ids|
        invariant Unset(old(isTrue), ls) == Unset(isTrue, ls[k..])
      {
        UnsetStep(isTrue, ls, k);
        isTrue := isTrue[owner[ids[k]].cond.id := false];
      }
    }

    /** The second loop: evaluates the listed rules and runs all undos. */
    method RunUndos(checklist: seq<Rule>) returns (was: seq<bool>, now: seq<bool>)
      modifies this`trace
      ensures |was| == |now| == |checklist|
      ensures forall i :: 0 <= i < |checklist| ==>
                was[i] == IsActive(active, checklist[i]) && now[i] == Evaluate(isTrue, checklist[i])
      ensures trace == old(trace) + Undone(checklist, active, isTrue)
    {
      hide Undone, Evaluate, IsActive;
      was, now := [], [];
      assert checklist[0..] == checklist;
      for i := 0 to |checklist|
        invariant |was| == |now| == i
        invariant forall j :: 0 <= j < i ==>
                    was[j] == IsActive(active, checklist[j]) && now[j] == Evaluate(isTrue, checklist[j])
        invariant old(trace) + Undone(checklist, active, isTrue) == trace + Undone(checklist[i..], active, isTrue)
      {
        FiredStep(checklist, active, isTrue, i);
        var b := EvaluateRule(checklist[i]);
        was, now := was + [IsActive(active, checklist[i])], now + [b];
        if was[i] && !now[i] {
          trace := trace + [Undid(checklist[i])];
        }
      }
      NoneFired(checklist, active, isTrue);
    }

    /** The third loop: runs all actions and, for a stateful event, records the rules' new state. */
    method RunActions(checklist: seq<Rule>, was: seq<bool>, now: seq<bool>, stateless: bool)
      requires |was| == |now| == |checklist|
      requires forall i :: 0 <= i < |checklist| ==>
                 was[i] == IsActive(active, checklist[i]) && now[i] == Evaluate(isTrue, checklist[i])
      modifies this`trace, this`active
      ensures trace == old(trace) + Done(checklist, old(active), isTrue)
      ensures active == if stateless then old(active) else Activate(old(active), checklist, isTrue)
    {
      hide Done, Evaluate, IsActive, Activate;
      ghost var a := active;
      assert checklist[0..] == checklist;
      for i := 0 to |checklist|
        invariant old(trace) + Done(checklist, a, isTrue) == trace + Done(checklist[i..], a, isTrue)
        invariant stateless ==> active == a
        invariant !stateless ==> Activate(a, checklist, isTrue) == Activate(active, checklist[i..], isTrue)
      {
        FiredStep(checklist, a, isTrue, i);
        ActivateStep(active, checklist, isTrue, i);
        if now[i] && !was[i] {
          trace := trace + [Did(checklist[i])];
        }
        if !stateless {
          active := active[checklist[i].name := now[i]];
        }
      }
      NoneFired(checklist, a, isTrue);
      NoneActivated(checklist, active, isTrue);
    }

    /** handle_events. */
    method HandleEvents(e: string)
      requires Valid()
      modifies this`isTrue, this`active, this`value, this`trace
      ensures Valid() && Abs() == Handle(cfg, old(Abs()), e)
    {
      hide Recheck, Checklist, Listening, Undone, Done, Evaluate, IsActive, Activate, Unset, IdsFor, AllConditions;
      var checklist := RecheckListeners(e);
      var was, now := RunUndos(checklist);
      RunActions(checklist, was, now, e in cfg.stateless);
      if e in cfg.stateless {
        value := value[e := ValueAt(cfg, map[], e)];
        ResetListeners(e);
      }
      assert trace == old(trace) + Appended(cfg, old(Abs()), e);
    }

    /** evaluate_policy, first part: rechecks the conditions of all stateful events. */
    method RecheckStateful()
      requires Valid()
      modifies this`isTrue
      ensures isTrue == RecheckAll(cfg, old(Abs()), old(isTrue), cfg.events)
    {
      hide Recheck, RecheckAll, Checklist, Listening, IdsFor, AllConditions;
      ghost var s := Abs();
      assert cfg.events[0..] == cfg.events;
      for k := 0 to |cfg.events|
        invariant Valid()
        invariant RecheckAll(cfg, s, s.isTrue, cfg.events) == RecheckAll(cfg, s, isTrue, cfg.events[k..])
      {
        RecheckAllStep(cfg, s, isTrue, k);
        if cfg.events[k] !in cfg.stateless {
          var _ := RecheckListeners(cfg.events[k]);
        }
      }
      NoEvents(cfg, s, isTrue);
    }

    /** evaluate_policy, second part: rules that are false run their undos if active. */
    method PolicyUndos()
      requires NamesOwned(rules)
      modifies this`active, this`trace
      ensures Passed(old(active), active, rules, isTrue, false, |rules|)
      ensures trace == old(trace) + Undone(rules, old(active), isTrue)
    {
      hide Undone, Evaluate;
      ghost var a := active;
      assert rules[0..] == rules;
      for k := 0 to |rules|
        invariant Passed(a, active, rules, isTrue, false, k)
        invariant old(trace) + Undone(rules, a, isTrue) == trace + Undone(rules[k..], a, isTrue)
      {
        FiredStep(rules, a, isTrue, k);
        PassedStep(a, active, rules, isTrue, false, k);
        var b := EvaluateRule(rules[k]);
        assert SameAt(a, active, rules[k].name);
        hide Passed;
        if !b {
          if IsActive(active, rules[k]) {
            trace := trace + [Undid(rules[k])];
          }
          active := active[rules[k].name := false];
        }
      }
      NoneFired(rules, a, isTrue);
    }

    /** evaluate_policy, last part: rules that are true run their actions. */
    method PolicyActions()
      requires NamesOwned(rules)
      modifies this`active, this`trace
      ensures Passed(old(active), active, rules, isTrue, true, |rules|)
      ensures trace == old(trace) + DoneAll(rules, isTrue)
    {
      hide DoneAll, Evaluate;
      ghost var a := active;
      assert rules[0..] == rules;
      for k := 0 to |rules|
        invariant Passed(a, active, rules, isTrue, true, k)
        invariant old(trace) + DoneAll(rules, isTrue) == trace + DoneAll(rules[k..], isTrue)
      {
        hide Passed;
        FiredStep(rules, a, isTrue, k);
        PassedStep(a, active, rules, isTrue, true, k);
        var b := EvaluateRule(rules[k]);
        if b {
          active := active[rules[k].name := true];
          trace := trace + [Did(rules[k])];
        }
      }
      NoneFired(rules, a, isTrue);
    }

    /** evaluate_policy. */
    method EvaluateAll()
      requires Valid()
      modifies this`isTrue, this`active, this`trace
      ensures Valid() && Abs() == EvaluatePolicy(cfg, old(Abs()))
    {
      hide RecheckAll, Undone, DoneAll, Evaluate, Activate, IdsFor, AllConditions, Passed, NamesOwned;
      RecheckStateful();
      PolicyUndos();
      ghost var mid := active;
      PolicyActions();
      PassesActivate(old(active), mid, active, rules, isTrue);
    }
  }

  lemma Joined<T>(a: seq<T>, b: seq<T>, c: seq<T>)
    ensures a + (b + c) == a + b + c
    ensures b == [] ==> a + b == a
  {
  }

  // What is left at the end of a loop is empty.

  lemma LoopEnds(cfg: Config, now: map<nat, bool>, was: map<nat, bool>, ls: seq<Listener>, v: Arg)
    ensures Recheck(cfg, now, ls[|ls|..], v) == now && Checklist(cfg, was, ls[|ls|..], v) == []
  {
  }

  lemma NoneFired(rs: seq<Rule>, active: map<string, bool>, isTrue: map<nat, bool>)
    ensures Undone(rs[|rs|..], active, isTrue) == [] && Done(rs[|rs|..], active, isTrue) == []
    ensures DoneAll(rs[|rs|..], isTrue) == []
  {
  }

  lemma NoneActivated(rs: seq<Rule>, active: map<string, bool>, isTrue: map<nat, bool>)
    ensures Activate(active, rs[|rs|..], isTrue) == active
  {
  }

  lemma NoEvents(cfg: Config, s: Engine, isTrue: map<nat, bool>)
    ensures RecheckAll(cfg, s, isTrue, cfg.events[|cfg.events|..]) == isTrue
  {
  }

  /** No condition listens twice to an event. */
  lemma {:induction false} IdsForDistinct(reg: Registry, cs: seq<Condition>, e: string)
    requires DistinctIds(cs)
    ensures var ids := IdsFor(reg, cs, e); forall j, k :: 0 <= j < k < |ids| ==> ids[j] != ids[k]
    ensures forall id :: id in IdsFor(reg, cs, e) ==> exists i :: 0 <= i < |cs| && cs[i].id == id
  {
    hide EventOf;
    if cs != [] {
      var rest := cs[1..];
      assert forall i :: 0 <= i < |rest| ==> rest[i] == cs[i + 1];
      IdsForDistinct(reg, rest, e);
      assert forall id :: id in IdsFor(reg, rest, e) ==> exists i :: 0 <= i < |cs| && cs[i].id == id && i > 0;
      assert cs[0].id !in IdsFor(reg, rest, e);
    }
  }
}
