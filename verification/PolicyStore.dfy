/**
  The policy as xcpmd keeps it, updated in place (xcpmd/src/rules.c, the variable
  functions of xcpmd/src/db-helper.c and apply_rule in xcpmd/src/parser.c).  Every
  method computes exactly the operation of the same name on the abstract state, so
  what is proved of runs there holds here.
 */
module PolicyStore {
  import opened Options
  import opened PolicyTypes
  import opened PolicyParser
  import opened PolicyPrinter
  import opened PolicyVars
  import opened PolicyRules
  import opened PolicyInvariant

  // What a look-up finds is what the cache holds afterwards.
  lemma LookedFinds(s: VarStore, name: string)
    ensures var t := Looked(s, name);
            var i := Position(t.cache, name);
            Resolve(s, name) == if i >= 0 then Some(t.cache[i].value) else None
  {
    hide ReadDb;
    if Position(s.cache, name) < 0 && ReadDb(s.db, name).Some? {
      PositionSnoc(s.cache, DbVar(name, ReadDb(s.db, name).value, 0), name);
    }
  }

  lemma {:induction false} LettersSnoc(s: VarStore, args: seq<Arg>, a: Arg)
    requires Letters(s, args).Some?
    ensures Letters(s, args + [a]) ==
            match Letter(s, a) { case Some(c) => Some(Letters(s, args).value + [c]) case None => None }
  {
    hide Resolve;
    if args == [] {
      assert args + [a] == [a] && [a][1..] == [];
      assert Letters(s, []) == Some("");
      assert forall c: char :: [c] + "" == "" + [c];
    } else {
      assert (args + [a])[1..] == args[1..] + [a];
      LettersSnoc(s, args[1..], a);
      if Letter(s, a).Some? {
        var c, d := Letter(s, args[0]).value, Letter(s, a).value;
        assert [c] + (Letters(s, args[1..]).value + [d]) == [c] + Letters(s, args[1..]).value + [d];
      }
    }
  }

  lemma {:induction false} LookArgsSnoc(s: VarStore, args: seq<Arg>, a: Arg)
    requires Letters(s, args).Some? && Coherent(s)
    ensures LookArgs(s, args + [a]) ==
            if a.VarArg? then Looked(LookArgs(s, args), a.name) else LookArgs(s, args)
    decreases |args|
  {
    hide ReadDb, Coherent, Resolve, Looked;
    if args == [] {
      assert args + [a] == [a] && [a][1..] == [];
    } else {
      assert (args + [a])[1..] == args[1..] + [a];
      if args[0].VarArg? {
        LookedGrown(s, args[0].name);
        var t := Looked(s, args[0].name);
        LettersSame(s, t, args[1..]);
        LookArgsSnoc(t, args[1..], a);
      } else {
        LookArgsSnoc(s, args[1..], a);
      }
    }
  }

  lemma {:induction false} BumpAppend(s: VarStore, a: seq<Arg>, b: seq<Arg>, d: int)
    ensures Bump(s, a + b, d) == Bump(Bump(s, a, d), b, d)
    decreases |a|
  {
    hide BumpVar;
    if a == [] {
      assert a + b == b;
    } else {
      assert (a + b)[1..] == a[1..] + b;
      BumpAppend(if a[0].VarArg? then BumpVar(s, a[0].name, d) else s, a[1..], b, d);
    }
  }

  lemma {:induction false} FlatArgsAppend(a: seq<Call>, b: seq<Call>)
    ensures FlatArgs(a + b) == FlatArgs(a) + FlatArgs(b)
  {
    if a == [] {
      assert a + b == b;
    } else {
      assert (a + b)[1..] == a[1..] + b;
      FlatArgsAppend(a[1..], b);
    }
  }

  lemma NoLetters(s: VarStore)
    ensures LookArgs(s, []) == s && Letters(s, []) == Some("")
  {
  }

  lemma SpacedSome(letters: string)
    ensures Spaced(letters) != ""
  {
  }

  class Store {
    const reg: Registry
    var rules: seq<Rule>
    var listeners: map<string, seq<nat>>
    var cache: seq<DbVar>
    var db: map<string, string>
    var nextId: nat

    constructor (r: Registry, stored: map<string, string>)
      ensures reg == r && Abs() == State([], map[], VarStore([], stored), 0)
    {
      reg, rules, listeners, cache, db, nextId := r, [], map[], [], stored, 0;
    }

    ghost function Vars(): VarStore
      reads this
    {
      VarStore(cache, db)
    }

    ghost function Abs(): State
      reads this
    {
      State(rules, listeners, Vars(), nextId)
    }

    // -------------------------------------------------------------------
    // Variables
    // -------------------------------------------------------------------

    /** The search loop over the cache list. */
    method FindCached(name: string) returns (i: int)
      ensures i == Position(cache, name)
    {
      i := 0;
      while i < |cache|
        invariant 0 <= i <= |cache|
        invariant Position(cache, name) == var p := Position(cache[i..], name); if p < 0 then -1 else i + p
      {
        if cache[i].name == name {
          return;
        }
        i := i + 1;
      }
      i := -1;
    }

    /** lookup_var: fills the cache from the DB if need be. */
    method LookupVar(name: string) returns (i: int)
      modifies this`cache
      ensures Vars() == Looked(old(Vars()), name)
      ensures i == Position(cache, name)
      ensures Resolve(old(Vars()), name) == if i >= 0 then Some(cache[i].value) else None
    {
      LookedFinds(Vars(), name);
      i := FindCached(name);
      if i < 0 {
        var read := ReadDb(db, name);
        if read.Some? {
          PositionSnoc(cache, DbVar(name, read.value, 0), name);
          i := |cache|;
          cache := cache + [DbVar(name, read.value, 0)];
        }
      }
    }

    /** add_var: a variable of another type is refused, an equal value is left alone. */
    method AddVar(name: string, v: Arg) returns (r: AddResult)
      modifies this`cache, this`db
      ensures Vars() == PolicyVars.AddVar(old(Vars()), name, v)
      ensures r == AddOutcome(old(Vars()), name, v)
    {
      var i := LookupVar(name);
      if i >= 0 {
        if TypeLetter(cache[i].value) != TypeLetter(v) {
          return TypeMismatch;
        }
        if cache[i].value == v {
          return Unchanged;
        }
        cache := cache[i := cache[i].(value := v)];
        r := Overwritten;
      } else {
        cache := cache + [DbVar(name, v, 0)];
        r := Added;
      }
      db := db[name := ArgText(v)];
    }

    /** delete_var: refused for a variable that is referenced or not cached. */
    method DeleteVar(name: string) returns (ok: bool)
      modifies this`cache, this`db
      ensures Vars() == PolicyVars.DeleteVar(old(Vars()), name)
      ensures ok == CanDelete(old(Vars()), name)
    {
      var i := FindCached(name);
      if i < 0 || cache[i].refs > 0 {
        return false;
      }
      cache := cache[..i] + cache[i + 1..];
      db := db - {name};
      ok := true;
    }

    /** inc_variable_refs and dec_variable_refs, over the arguments of one condition or action. */
    method BumpArgs(args: seq<Arg>, d: int)
      modifies this`cache
      ensures Vars() == Bump(old(Vars()), args, d)
    {
      for j := 0 to |args|
        invariant db == old(db)
        invariant Bump(old(Vars()), args, d) == Bump(Vars(), args[j..], d)
      {
        assert args[j..][0] == args[j] && args[j..][1..] == args[j + 1..];
        if args[j].VarArg? {
          var i := LookupVar(args[j].name);
          if i >= 0 {
            cache := cache[i := cache[i].(refs := cache[i].refs + d)];
          }
        }
      }
    }

    /** The same over a list of conditions or actions. */
    method BumpCalls(cs: seq<Call>, d: int)
      modifies this`cache
      ensures Vars() == Bump(old(Vars()), FlatArgs(cs), d)
    {
      for k := 0 to |cs|
        invariant db == old(db)
        invariant Bump(old(Vars()), FlatArgs(cs), d) == Bump(Vars(), FlatArgs(cs[k..]), d)
      {
        assert cs[k..][0] == cs[k] && cs[k..][1..] == cs[k + 1..];
        BumpAppend(Vars(), cs[k].args, FlatArgs(cs[k + 1..]), d);
        BumpArgs(cs[k].args, d);
      }
    }

    method BumpRule(r: Rule, d: int)
      modifies this`cache
      ensures Vars() == Bump(old(Vars()), RuleArgs(r), d)
    {
      ghost var s := Vars();
      var conditions := seq(|r.conditions|, i requires 0 <= i < |r.conditions| => r.conditions[i].call);
      BumpCalls(conditions, d);
      BumpCalls(r.actions, d);
      BumpCalls(r.undos, d);
      FlatArgsAppend(conditions + r.actions, r.undos);
      FlatArgsAppend(conditions, r.actions);
      BumpAppend(s, FlatArgs(conditions + r.actions), FlatArgs(r.undos), d);
      BumpAppend(s, FlatArgs(conditions), FlatArgs(r.actions), d);
    }

    // -------------------------------------------------------------------
    // Validation
    // -------------------------------------------------------------------

    /** check_prototype: compares the resolved argument types with the prototype. */
    method CheckPrototype(prototype: string, args: seq<Arg>) returns (ok: bool)
      requires Coherent(Vars())
      modifies this`cache
      ensures Vars() == LookArgs(old(Vars()), args)
      ensures ok == Matches(old(Vars()), Check(prototype, args))
    {
      hide Resolve, LookArgs, Letters, Spaced, Looked, Coherent;
      ghost var s := Vars();
      var letters := "";
      var j := 0;
      NoLetters(s);
      while j < |args|
        invariant 0 <= j <= |args|
        invariant Vars() == LookArgs(s, args[..j])
        invariant Letters(s, args[..j]) == Some(letters)
      {
        var a := args[j];
        assert args[..j + 1] == args[..j] + [a];
        LettersSnoc(s, args[..j], a);
        LookArgsSnoc(s, args[..j], a);
        LookArgsGrown(s, args[..j]);
        var letter := TypeLetter(a);
        if a.VarArg? {
          LettersSame(s, Vars(), [a]);
          var i := LookupVar(a.name);
          if i < 0 {
            LookStops(s, args, j);
            return false;
          }
          letter := TypeLetter(cache[i].value);
        }
        letters := letters + [letter];
        j := j + 1;
      }
      assert args[..j] == args;
      var found := Spaced(letters);
      SpacedSome(letters);
      if |prototype| < |found| || (prototype != "" && prototype[0] == 'n' && found[0] != 'n') {
        ok := false;  // too many arguments
      } else if |prototype| > |found| || (prototype != "" && prototype[0] != 'n' && found[0] == 'n') {
        ok := false;  // not enough arguments
      } else {
        ok := prototype == found;
      }
    }

    /** validate_rule. */
    method ValidateRule(r: Rule) returns (code: Code)
      requires Coherent(Vars())
      modifies this`cache
      ensures code == Validate(reg, old(Abs()), r)
      ensures Vars() == VarsAfterValidate(reg, old(Abs()), r)
    {
      if r.name == "" {
        return NoName;
      }
      for k := 0 to |rules|
        invariant forall i :: 0 <= i < k ==> rules[i].name != r.name
      {
        if rules[k].name == r.name {
          return NameCollision;
        }
      }
      if r.conditions == [] {
        return NoConditions;
      }
      if r.actions == [] && r.undos == [] {
        return NoActions;
      }
      ghost var s := Vars();
      var checks := Checks(reg, r);
      for i := 0 to |checks|
        invariant Coherent(Vars()) && Grown(s, Vars())
        invariant forall j :: 0 <= j < i ==> Matches(s, checks[j])
        invariant LookChecks(s, checks) == LookChecks(Vars(), checks[i..])
      {
        LettersSame(s, Vars(), checks[i].args);
        LookArgsGrown(Vars(), checks[i].args);
        GrownTransitive(s, Vars(), LookArgs(Vars(), checks[i].args));
        assert checks[i..][0] == checks[i] && checks[i..][1..] == checks[i + 1..];
        var ok := CheckPrototype(checks[i].prototype, checks[i].args);
        if !ok {
          return BadProto;
        }
      }
      code := RuleValid;
    }

    // -------------------------------------------------------------------
    // Rules
    // -------------------------------------------------------------------

    /** new_condition: a fresh condition joins its event's listeners. */
    method NewCondition(c: Call) returns (cond: Condition)
      modifies this`listeners, this`nextId
      ensures cond == Condition(old(nextId), c) && nextId == old(nextId) + 1
      ensures listeners == Register(reg, old(listeners), [cond])
    {
      cond := Condition(nextId, c);
      nextId := nextId + 1;
      var e := EventOf(reg, cond);
      assert [cond][1..] == [];
      listeners := listeners[e := At(listeners, e) + [cond.id]];
    }

    /** delete_condition_from_listeners, for every condition of a rule. */
    method RemoveListeners(cs: seq<Condition>)
      modifies this`listeners
      ensures listeners == Unregister(reg, old(listeners), cs)
    {
      for i := 0 to |cs|
        invariant Unregister(reg, old(listeners), cs) == Unregister(reg, listeners, cs[i..])
      {
        var e := EventOf(reg, cs[i]);
        assert cs[i..][0] == cs[i] && cs[i..][1..] == cs[i + 1..];
        listeners := listeners[e := RemoveId(At(listeners, e), cs[i].id)];
      }
    }

    method KeepKnownActions(fs: seq<Fn>) returns (cs: seq<Call>)
      ensures cs == KnownActions(reg, fs)
    {
      cs := [];
      for i := 0 to |fs|
        invariant KnownActions(reg, fs) == cs + KnownActions(reg, fs[i..])
      {
        assert fs[i..][0] == fs[i] && fs[i..][1..] == fs[i + 1..];
        if fs[i].name in reg.actions {
          cs := cs + [Call(fs[i].name, false, fs[i].args)];
        }
      }
    }

    method KeepKnownConditions(fs: seq<Fn>) returns (cs: seq<Condition>)
      modifies this`listeners, this`nextId
      ensures cs == NewConditions(KnownConditions(reg, fs), old(nextId))
      ensures nextId == old(nextId) + |cs|
      ensures listeners == Register(reg, old(listeners), cs)
    {
      cs := [];
      ghost var calls: seq<Call> := [];
      for i := 0 to |fs|
        invariant KnownConditions(reg, fs) == calls + KnownConditions(reg, fs[i..])
        invariant cs == NewConditions(calls, old(nextId)) && nextId == old(nextId) + |cs|
        invariant listeners == Register(reg, old(listeners), cs)
      {
        KnownStep(reg, fs, i, calls);
        if fs[i].name in reg.conditions {
          var call := Call(fs[i].name, !fs[i].plain, fs[i].args);
          var cond := NewCondition(call);
          RegisterAppend(reg, old(listeners), cs, [cond]);
          calls, cs := calls + [call], cs + [cond];
        }
      }
      assert calls + [] == calls;
    }

    /** apply_rule: builds, validates and either loads the rule or takes its conditions out again. */
    method ApplyRule(name: string, fns: RuleFns) returns (code: Code)
      requires Coherent(Vars())
      modifies this
      ensures Abs() == Apply(reg, old(Abs()), name, fns)
      ensures code == Validate(reg, old(Abs()), Built(reg, old(Abs()), name, fns))
    {
      hide Validate, VarsAfterValidate, Register, Unregister, Bump, KnownConditions, KnownActions, RuleArgs, Coherent;
      var conditions := KeepKnownConditions(fns.conditions);
      var actions := KeepKnownActions(fns.actions);
      var undos := KeepKnownActions(fns.undos);
      var r := Rule(name, conditions, actions, undos);
      ValidateSame(reg, old(Abs()), Abs(), r);
      code := ValidateRule(r);
      if code == RuleValid {
        rules := rules + [r];
        BumpRule(r, 1);
      } else {
        RemoveListeners(r.conditions);
      }
    }

    /** delete_rule, for the rule found under that name. */
    method DeleteRule(name: string) returns (found: bool)
      modifies this
      ensures Abs() == Perform(reg, old(Abs()), PolicyRules.DeleteRule(name))
      ensures found == NameTaken(old(rules), name)
    {
      var k := RulePosition(rules, name);
      if k < 0 {
        return false;
      }
      assert rules[k].name == name;
      var r := rules[k];
      rules := rules[..k] + rules[k + 1..];
      BumpRule(r, -1);
      RemoveListeners(r.conditions);
      found := true;
    }

    /** delete_rules: deletes the first rule until none is left. */
    method DeleteRules()
      modifies this
      ensures Abs() == DeleteAll(reg, old(Abs())) && rules == []
    {
      hide Bump, Unregister, RuleArgs;
      while rules != []
        invariant DeleteAll(reg, old(Abs())) == DeleteAll(reg, Abs())
        decreases |rules|
      {
        var _ := DeleteRule(rules[0].name);
      }
    }
  }

  // Validation looks only at the loaded rules and the variables.
  lemma ValidateSame(reg: Registry, s: State, t: State, r: Rule)
    requires t.rules == s.rules && t.vars == s.vars
    ensures Validate(reg, t, r) == Validate(reg, s, r)
    ensures VarsAfterValidate(reg, t, r) == VarsAfterValidate(reg, s, r)
  {
  }

  lemma KnownStep(reg: Registry, fs: seq<Fn>, i: nat, calls: seq<Call>)
    requires i < |fs|
    ensures calls + KnownConditions(reg, fs[i..]) ==
            (if fs[i].name in reg.conditions then calls + [Call(fs[i].name, !fs[i].plain, fs[i].args)] else calls)
            + KnownConditions(reg, fs[i + 1..])
  {
    assert fs[i..][0] == fs[i] && fs[i..][1..] == fs[i + 1..];
  }

  lemma {:induction false} RegisterAppend(reg: Registry, l: map<string, seq<nat>>, a: seq<Condition>, b: seq<Condition>)
    ensures Register(reg, l, a + b) == Register(reg, Register(reg, l, a), b)
    decreases |a|
  {
    if a == [] {
      assert a + b == b;
    } else {
      assert (a + b)[1..] == a[1..] + b;
      var e := EventOf(reg, a[0]);
      RegisterAppend(reg, l[e := At(l, e) + [a[0].id]], a[1..], b);
    }
  }

  // An undefined variable ends the look-ups, whatever arguments follow it.
  lemma {:induction false} LookStops(s: VarStore, args: seq<Arg>, j: nat)
    requires Coherent(s) && j < |args| && args[j].VarArg?
    requires Letters(s, args[..j]).Some? && Letter(s, args[j]).None?
    ensures LookArgs(s, args) == LookArgs(s, args[..j + 1]) && Letters(s, args).None?
    decreases |args|
  {
    hide ReadDb, Coherent, Resolve;
    assert args[..j + 1][..j] == args[..j];
    if j > 0 {
      assert args[1..][..j - 1] == args[..j][1..] && args[1..][..j] == args[..j + 1][1..];
      LookStops(s, args[1..], j - 1);
      if args[0].VarArg? {
        LookedGrown(s, args[0].name);
        var t := Looked(s, args[0].name);
        LettersSame(s, t, args[1..][..j - 1]);
        LookStops(t, args[1..], j - 1);
      }
    }
  }
}
