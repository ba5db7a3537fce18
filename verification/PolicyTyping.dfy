/**
  What matching a prototype means, told by the kinds of the values and not by their type
  letters (check_prototype and validate_rule in xcpmd/src/rules.c), and type soundness
  over whole runs.
 */
module PolicyTyping {
  import opened Options
  import opened PolicyTypes
  import opened PolicyVars
  import opened PolicyRules
  import opened PolicyInvariant

  /** A prototype's letter for a value: i, b, s and f for the literals. */
  ghost predicate IsOfKind(v: Arg, letter: char) {
    && (v.IntArg? <==> letter == 'i') && (v.BoolArg? <==> letter == 'b')
    && (v.StrArg? <==> letter == 's') && (v.FloatArg? <==> letter == 'f')
    && (v.VarArg? <==> letter == 'v')
  }

  /** "n" for no arguments; otherwise one letter per argument, separated by blanks, that fits its value. */
  ghost predicate Fits(s: VarStore, prototype: string, args: seq<Arg>) {
    if args == [] then prototype == "n" else
    && |prototype| == 2 * |args| - 1
    && (forall k :: 0 <= k < |args| ==> ValueOf(s, args[k]).Some? && IsOfKind(ValueOf(s, args[k]).value, prototype[2 * k]))
    && (forall k :: 0 <= k < |args| - 1 ==> prototype[2 * k + 1] == ' ')
  }

  lemma {:induction false} LettersOf(s: VarStore, args: seq<Arg>)
    ensures Letters(s, args).Some? <==> forall k :: 0 <= k < |args| ==> ValueOf(s, args[k]).Some?
    ensures Letters(s, args).Some? ==>
              && |Letters(s, args).value| == |args|
              && forall k :: 0 <= k < |args| ==> IsOfKind(ValueOf(s, args[k]).value, Letters(s, args).value[k])
  {
    hide Resolve;
    if args != [] {
      var rest := args[1..];
      LettersOf(s, rest);
      assert forall k :: 0 <= k < |rest| ==> rest[k] == args[k + 1];
      assert forall k :: 1 <= k < |args| ==> args[k] == rest[k - 1];
      assert Letters(s, args).Some? <==> ValueOf(s, args[0]).Some? && Letters(s, rest).Some?;
    }
  }

  lemma {:induction false} SpacedShape(letters: string)
    requires letters != ""
    ensures |Spaced(letters)| == 2 * |letters| - 1
    ensures forall k :: 0 <= k < |letters| ==> Spaced(letters)[2 * k] == letters[k]
    ensures forall k :: 0 <= k < |letters| - 1 ==> Spaced(letters)[2 * k + 1] == ' '
  {
    if |letters| > 1 {
      var rest := letters[1..];
      SpacedShape(rest);
      var t := Spaced(letters);
      assert forall j :: 2 <= j < |t| ==> t[j] == Spaced(rest)[j - 2];
      forall k | 1 <= k < |letters| ensures t[2 * k] == letters[k] {
        assert t[2 * k] == Spaced(rest)[2 * (k - 1)] == rest[k - 1];
      }
      forall k | 1 <= k < |letters| - 1 ensures t[2 * k + 1] == ' ' {
        assert t[2 * k + 1] == Spaced(rest)[2 * (k - 1) + 1];
      }
    }
  }

  // A letter that fits a value is determined by it.
  lemma KindDetermines(v: Arg, x: char, y: char)
    requires IsOfKind(v, x) && (IsOfKind(v, y) || x == y)
    ensures x == y && IsOfKind(v, y)
  {
  }

  /** check_prototype accepts exactly the argument lists whose values fit the prototype. */
  lemma MatchesIff(s: VarStore, prototype: string, args: seq<Arg>)
    ensures Matches(s, Check(prototype, args)) <==> Fits(s, prototype, args)
  {
    hide IsOfKind, Letters, Spaced, ValueOf;
    LettersOf(s, args);
    if args == [] {
      NoArguments(s);
    } else if Letters(s, args).Some? {
      var letters := Letters(s, args).value;
      SpacedShape(letters);
      if Fits(s, prototype, args) {
        SpacedIs(s, prototype, args, letters);
      }
    }
  }

  lemma NoArguments(s: VarStore)
    ensures Letters(s, []) == Some("") && Spaced("") == "n"
  {
  }

  lemma SpacedIs(s: VarStore, prototype: string, args: seq<Arg>, letters: string)
    requires args != [] && |letters| == |args| && Fits(s, prototype, args)
    requires forall k :: 0 <= k < |args| ==> ValueOf(s, args[k]).Some? && IsOfKind(ValueOf(s, args[k]).value, letters[k])
    ensures Spaced(letters) == prototype
  {
    hide IsOfKind, Spaced, ValueOf;
    SpacedShape(letters);
    forall j | 0 <= j < |prototype| ensures Spaced(letters)[j] == prototype[j] {
      var k := j / 2;
      if j % 2 == 0 {
        assert j == 2 * k;
        KindDetermines(ValueOf(s, args[k]).value, letters[k], prototype[2 * k]);
      } else {
        assert j == 2 * k + 1;
      }
    }
  }

  /** Every condition, action and undo is of a registered type, and its arguments fit that type's prototype. */
  ghost predicate RuleFits(reg: Registry, s: VarStore, r: Rule) {
    && (forall i :: 0 <= i < |r.conditions| ==>
          var c := r.conditions[i].call;
          c.name in reg.conditions && Fits(s, reg.conditions[c.name].prototype, c.args))
    && (forall i :: 0 <= i < |r.actions| ==>
          r.actions[i].name in reg.actions && Fits(s, reg.actions[r.actions[i].name], r.actions[i].args))
    && (forall i :: 0 <= i < |r.undos| ==>
          r.undos[i].name in reg.actions && Fits(s, reg.actions[r.undos[i].name], r.undos[i].args))
  }

  ghost predicate Registered(reg: Registry, r: Rule) {
    && (forall i :: 0 <= i < |r.conditions| ==> r.conditions[i].call.name in reg.conditions)
    && (forall i :: 0 <= i < |r.actions| ==> r.actions[i].name in reg.actions)
    && (forall i :: 0 <= i < |r.undos| ==> r.undos[i].name in reg.actions)
  }

  lemma ChecksAt(reg: Registry, r: Rule)
    requires Registered(reg, r)
    ensures var cs, n, m := Checks(reg, r), |r.conditions|, |r.actions|;
            && |cs| == n + m + |r.undos|
            && (forall i :: 0 <= i < n ==>
                  cs[i] == Check(reg.conditions[r.conditions[i].call.name].prototype, r.conditions[i].call.args))
            && (forall i :: n <= i < n + m ==>
                  cs[i] == Check(reg.actions[r.actions[i - n].name], r.actions[i - n].args))
            && (forall i :: n + m <= i < |cs| ==>
                  cs[i] == Check(reg.actions[r.undos[i - n - m].name], r.undos[i - n - m].args))
  {
  }

  lemma ChecksMatchIff(reg: Registry, s: VarStore, r: Rule)
    requires Registered(reg, r)
    ensures (forall i :: 0 <= i < |Checks(reg, r)| ==> Matches(s, Checks(reg, r)[i])) <==> RuleFits(reg, s, r)
  {
    hide Matches, Fits, Checks;
    var cs, n, m := Checks(reg, r), |r.conditions|, |r.actions|;
    ChecksAt(reg, r);
    forall i | 0 <= i < |cs| ensures Matches(s, cs[i]) <==> Fits(s, cs[i].prototype, cs[i].args) {
      MatchesIff(s, cs[i].prototype, cs[i].args);
    }
    if forall i :: 0 <= i < |cs| ==> Matches(s, cs[i]) {
      forall i | 0 <= i < m ensures Fits(s, reg.actions[r.actions[i].name], r.actions[i].args) {
        assert Matches(s, cs[n + i]);
      }
      forall i | 0 <= i < |r.undos| ensures Fits(s, reg.actions[r.undos[i].name], r.undos[i].args) {
        assert Matches(s, cs[n + m + i]);
      }
    }
  }

  /**
    validate_rule accepts a rule of registered types if and only if it has a name that no
    loaded rule has, a condition, an action or an undo, and arguments that fit throughout.
   */
  lemma ValidIff(reg: Registry, s: State, r: Rule)
    requires Registered(reg, r)
    ensures Validate(reg, s, r) == RuleValid <==>
            && r.name != "" && (forall i :: 0 <= i < |s.rules| ==> s.rules[i].name != r.name)
            && |r.conditions| > 0 && |r.actions| + |r.undos| > 0
            && RuleFits(reg, s.vars, r)
  {
    hide Matches, Fits, Checks;
    ChecksMatchIff(reg, s.vars, r);
  }

  /** The code of a rejected rule names the first thing wrong with it. */
  lemma RejectionNamesFirstFault(reg: Registry, s: State, r: Rule)
    requires Registered(reg, r)
    ensures var code := Validate(reg, s, r);
            && (code == NoName <==> r.name == "")
            && (code == NameCollision <==> r.name != "" && exists i :: 0 <= i < |s.rules| && s.rules[i].name == r.name)
            && (code == NoConditions ==> |r.conditions| == 0)
            && (code == NoActions ==> |r.conditions| > 0 && |r.actions| + |r.undos| == 0)
            && (code == BadProto ==> |r.conditions| > 0 && |r.actions| + |r.undos| > 0 && !RuleFits(reg, s.vars, r))
  {
    hide Matches, Fits, Checks;
    ChecksMatchIff(reg, s.vars, r);
  }

  /**
    Applying a rule loads it, at the end, if and only if its known parts make a valid rule;
    otherwise the rules stay as they are.
   */
  lemma AppliedIff(reg: Registry, s: State, name: string, fns: PolicyParser.RuleFns)
    ensures var r, t := Built(reg, s, name, fns), Apply(reg, s, name, fns);
            && r.name == name && Registered(reg, r)
            && (t.rules == s.rules + [r] <==>
                && name != "" && (forall i :: 0 <= i < |s.rules| ==> s.rules[i].name != name)
                && |r.conditions| > 0 && |r.actions| + |r.undos| > 0 && RuleFits(reg, s.vars, r))
            && (t.rules == s.rules + [r] || t.rules == s.rules)
  {
    hide Validate, Register, Unregister, Bump, VarsAfterValidate, KnownConditions, KnownActions, RuleArgs, Fits;
    ValidIff(reg, s, Built(reg, s, name, fns));
  }

  /** Which calls of a parsed rule are kept: those of registered types, all of them, in order. */
  lemma {:induction false} KnownConditionsAppend(reg: Registry, a: seq<Fn>, b: seq<Fn>)
    ensures KnownConditions(reg, a + b) == KnownConditions(reg, a) + KnownConditions(reg, b)
  {
    if a == [] {
      assert a + b == b;
    } else {
      assert (a + b)[1..] == a[1..] + b;
      KnownConditionsAppend(reg, a[1..], b);
    }
  }

  lemma {:induction false} KnownActionsAppend(reg: Registry, a: seq<Fn>, b: seq<Fn>)
    ensures KnownActions(reg, a + b) == KnownActions(reg, a) + KnownActions(reg, b)
  {
    if a == [] {
      assert a + b == b;
    } else {
      assert (a + b)[1..] == a[1..] + b;
      KnownActionsAppend(reg, a[1..], b);
    }
  }

  lemma KnownOne(reg: Registry, f: Fn)
    ensures KnownConditions(reg, [f]) == if f.name in reg.conditions then [Call(f.name, !f.plain, f.args)] else []
    ensures KnownActions(reg, [f]) == if f.name in reg.actions then [Call(f.name, false, f.args)] else []
  {
    assert [f][1..] == [];
    assert KnownConditions(reg, []) == [] && KnownActions(reg, []) == [];
  }

  /**
    Type soundness over runs: whatever rules are applied and deleted and whatever
    variables are defined, overwritten and removed, every argument of every loaded
    rule still resolves to a value of the kind that its type's prototype asks for.
   */
  lemma TypeSoundOverRuns(reg: Registry, s: State, ops: seq<Op>, k: nat)
    requires Init(s) && forall i :: 0 <= i < |ops| ==> WellFormedOp(ops[i])
    requires k < |RunOps(reg, s, ops).rules|
    ensures RuleFits(reg, RunOps(reg, s, ops).vars, RunOps(reg, s, ops).rules[k])
  {
    hide RunOps, Init, WellFormedOp, Checks, Matches, RuleFits;
    RunInv(reg, s, ops);
    var t := RunOps(reg, s, ops);
    assert RuleSound(reg, t.vars, t.rules[k]);
    assert forall i :: 0 <= i < |Checks(reg, t.rules[k])| ==> Checks(reg, t.rules[k])[i] in Checks(reg, t.rules[k]);
    ChecksMatchIff(reg, t.vars, t.rules[k]);
  }
}
