/**
  Printing rules: argument text (xcpmd/src/rules.c), the JSON tree a rule is stored
  as, and the parseable strings rebuilt from that tree (xcpmd/src/db-helper.c).
  The JSON library is taken to be lossless, so a document is its tree.
 */
module PolicyPrinter {
  import opened Options
  import opened PolicyTypes
  import opened PolicyParser

  // ---------------------------------------------------------------------
  // Arguments and calls as text
  // ---------------------------------------------------------------------

  function Decimal(n: nat): string {
    if n < 10 then [(n + '0' as int) as char]
    else Decimal(n / 10) + [(n % 10 + '0' as int) as char]
  }

  function IntText(i: int): string {
    if i < 0 then "-" + Decimal(-i) else Decimal(i)
  }

  /** The last w digits of n. */
  function Padded(n: nat, w: nat): (s: string)
    ensures |s| == w
  {
    if w == 0 then "" else Padded(n / 10, w - 1) + [(n % 10 + '0' as int) as char]
  }

  /** The whole and the fractional digits of n millionths. */
  function Whole(n: nat): string {
    Decimal(n / 1000000)
  }

  function Fraction(n: nat): string {
    Padded(n % 1000000, 6)
  }

  /** k millionths, with six decimals. */
  function MicrosText(k: int): string {
    if k < 0 then "-" + Whole(-k) + "." + Fraction(-k) else Whole(k) + "." + Fraction(k)
  }

  /** arg_to_string; a float is printed with six decimals. */
  function ArgText(a: Arg): string {
    match a
    case StrArg(s) => "\"" + s + "\""
    case IntArg(i) => IntText(i)
    case BoolArg(b) => if b then "t" else "f"
    case FloatArg(x) => MicrosText(Micros(x))
    case VarArg(name) => "$" + name
  }

  function ArgsText(args: seq<Arg>): string {
    if args == [] then ""
    else if |args| == 1 then ArgText(args[0])
    else ArgText(args[0]) + " " + ArgsText(args[1..])
  }

  function CallText(c: Call): string {
    (if c.inverted then "!" else "") + c.name + "(" + ArgsText(c.args) + ")"
  }

  function CallsText(cs: seq<Call>): string {
    if cs == [] then ""
    else if |cs| == 1 then CallText(cs[0])
    else CallText(cs[0]) + " " + CallsText(cs[1..])
  }

  // ---------------------------------------------------------------------
  // A rule as a JSON tree
  // ---------------------------------------------------------------------

  datatype Json = JString(s: string) | JObject(fields: seq<(string, Json)>)

  /** The parts of a rule that are stored; its name is the key it is stored under. */
  datatype RuleCalls = RuleCalls(conditions: seq<Call>, actions: seq<Call>, undos: seq<Call>)

  /** What storing and reading makes of a rule: its floats keep six decimals. */
  function RoundedRule(r: RuleCalls): RuleCalls {
    RuleCalls(RoundedCalls(r.conditions), RoundedCalls(r.actions), RoundedCalls(r.undos))
  }

  /** Only conditions are inverted. */
  ghost predicate ActionsPlain(r: RuleCalls) {
    && (forall i :: 0 <= i < |r.actions| ==> !r.actions[i].inverted)
    && (forall i :: 0 <= i < |r.undos| ==> !r.undos[i].inverted)
  }

  /** What a loaded rule looks like: names and arguments that text can carry. */
  ghost predicate Storable(r: RuleCalls) {
    WritableCalls(r.conditions) && WritableCalls(r.actions) && WritableCalls(r.undos) && ActionsPlain(r)
  }

  function ArgFields(args: seq<Arg>): (f: seq<(string, Json)>)
    ensures |f| == |args|
    ensures forall i :: 0 <= i < |f| ==> f[i] == (Decimal(i), JString(ArgText(args[i])))
  {
    seq(|args|, i requires 0 <= i < |args| => (Decimal(i), JString(ArgText(args[i]))))
  }

  function ArgsJson(args: seq<Arg>): Json {
    if args == [] then JString("") else JObject(ArgFields(args))
  }

  function CallJson(c: Call, isCondition: bool): Json {
    var inverter := if isCondition then [("is_inverted", JString(if c.inverted then "true" else "false"))] else [];
    JObject([("type", JString(c.name))] + inverter + [("args", ArgsJson(c.args))])
  }

  function CallFields(cs: seq<Call>, isCondition: bool): (f: seq<(string, Json)>)
    ensures |f| == |cs|
    ensures forall i :: 0 <= i < |f| ==> f[i] == (Decimal(i), CallJson(cs[i], isCondition))
  {
    seq(|cs|, i requires 0 <= i < |cs| => (Decimal(i), CallJson(cs[i], isCondition)))
  }

  function RuleJson(r: RuleCalls): Json {
    JObject([
      ("conditions", JObject(CallFields(r.conditions, true))),
      ("actions", JObject(CallFields(r.actions, false))),
      ("undos", if r.undos == [] then JString("") else JObject(CallFields(r.undos, false)))])
  }

  lemma ArgFieldsSnoc(args: seq<Arg>, i: nat)
    requires i < |args|
    ensures ArgFields(args[..i + 1]) == ArgFields(args[..i]) + [(Decimal(i), JString(ArgText(args[i])))]
  {
    hide ArgText, Decimal;
  }

  lemma CallFieldsSnoc(cs: seq<Call>, isCondition: bool, i: nat)
    requires i < |cs|
    ensures CallFields(cs[..i + 1], isCondition) ==
            CallFields(cs[..i], isCondition) + [(Decimal(i), CallJson(cs[i], isCondition))]
  {
    hide CallJson, Decimal;
  }

  /** The loop that numbers and prints the arguments of one call. */
  method WriteArgs(args: seq<Arg>) returns (j: Json)
    ensures j == ArgsJson(args)
  {
    hide ArgText, Decimal, ArgFields;
    if args == [] {
      return JString("");
    }
    var fields: seq<(string, Json)> := [];
    for i := 0 to |args|
      invariant fields == ArgFields(args[..i])
    {
      ArgFieldsSnoc(args, i);
      fields := fields + [(Decimal(i), JString(ArgText(args[i])))];
    }
    assert args[..|args|] == args;
    j := JObject(fields);
  }

  method WriteCalls(cs: seq<Call>, isCondition: bool) returns (fields: seq<(string, Json)>)
    ensures fields == CallFields(cs, isCondition)
  {
    hide ArgsJson, Decimal, CallFields;
    fields := [];
    for i := 0 to |cs|
      invariant fields == CallFields(cs[..i], isCondition)
    {
      CallFieldsSnoc(cs, isCondition, i);
      var args := WriteArgs(cs[i].args);
      var inverter := [];
      if isCondition {
        inverter := [("is_inverted", JString(if cs[i].inverted then "true" else "false"))];
      }
      var entry := JObject([("type", JString(cs[i].name))] + inverter + [("args", args)]);
      assert entry == CallJson(cs[i], isCondition);
      fields := fields + [(Decimal(i), entry)];
    }
    assert cs[..|cs|] == cs;
  }

  /** rule_to_json. */
  method RuleToJson(r: RuleCalls) returns (j: Json)
    ensures j == RuleJson(r)
  {
    var conditions := WriteCalls(r.conditions, true);
    var actions := WriteCalls(r.actions, false);
    var undos := JString("");
    if r.undos != [] {
      var fields := WriteCalls(r.undos, false);
      undos := JObject(fields);
    }
    j := JObject([("conditions", JObject(conditions)), ("actions", JObject(actions)), ("undos", undos)]);
  }

  // ---------------------------------------------------------------------
  // From the tree back to parseable text
  // ---------------------------------------------------------------------

  /** yajl_tree_get with a one-element path. */
  function Get(j: Json, key: string): Option<Json> {
    if j.JString? then None else Lookup(j.fields, key)
  }

  function Lookup(fields: seq<(string, Json)>, key: string): Option<Json> {
    if fields == [] then None
    else if fields[0].0 == key then Some(fields[0].1)
    else Lookup(fields[1..], key)
  }

  /** The arguments of one call, separated by blanks; None if one is not a string. */
  function ReadArgFields(fields: seq<(string, Json)>): Option<string> {
    if fields == [] then Some("")
    else if fields[0].1.JObject? then None
    else if |fields| == 1 then Some(fields[0].1.s)
    else
      match ReadArgFields(fields[1..])
      case Some(rest) => Some(fields[0].1.s + " " + rest)
      case None => None
  }

  function ReadArgs(j: Option<Json>): Option<string> {
    match j
    case Some(JString(s)) => if s == "" then Some("") else None
    case Some(JObject(fields)) => ReadArgFields(fields)
    case None => None
  }

  /** One call; None if its inverter (for a condition), its type or its arguments are missing or malformed. */
  function ReadCall(j: Json, isCondition: bool): Option<string> {
    var inverted := Get(j, "is_inverted");
    if isCondition && !(inverted.Some? && inverted.value.JString?) then None else
    var prefix := if isCondition && inverted.value.s == "true" then "!" else "";
    var kind := Get(j, "type");
    if !(kind.Some? && kind.value.JString?) then None else
    match ReadArgs(Get(j, "args"))
    case Some(args) => Some(prefix + kind.value.s + "(" + args + ")")
    case None => None
  }

  /** The calls, separated by blanks; an entry that is not an object is skipped. */
  function ReadCalls(fields: seq<(string, Json)>, isCondition: bool): Option<string> {
    if fields == [] then Some("") else
    match ReadCalls(fields[1..], isCondition)
    case None => None
    case Some(rest) =>
      if fields[0].1.JString? then Some(rest) else
      match ReadCall(fields[0].1, isCondition)
      case None => None
      case Some(call) => Some(if |fields| == 1 then call else call + " " + rest)
  }

  function ReadUndos(j: Option<Json>): Option<string> {
    match j
    case Some(JObject(fields)) => ReadCalls(fields, false)
    case Some(JString(s)) => if s == "" then Some("") else None
    case None => None
  }

  /** json_rule_to_parseable, for a tree that is a rule object. */
  function RuleTextOf(j: Json): Option<RuleText> {
    var conditions, actions := Get(j, "conditions"), Get(j, "actions");
    if !(conditions.Some? && conditions.value.JObject?) then None
    else if !(actions.Some? && actions.value.JObject?) then None
    else
      var c, a := ReadCalls(conditions.value.fields, true), ReadCalls(actions.value.fields, false);
      var u := ReadUndos(Get(j, "undos"));
      if c.Some? && a.Some? && u.Some? then Some(RuleText(c.value, a.value, u.value)) else None
  }

  function Prepend(str: string, o: Option<string>): Option<string> {
    match o
    case Some(rest) => Some(str + rest)
    case None => None
  }

  /** The loop that appends one call after another. */
  method AppendCalls(fields: seq<(string, Json)>, isCondition: bool) returns (r: Option<string>)
    ensures r == ReadCalls(fields, isCondition)
  {
    var str := "";
    ghost var all := ReadCalls(fields, isCondition);
    assert fields[0..] == fields && (all.Some? ==> "" + all.value == all.value);
    for i := 0 to |fields|
      invariant ReadCalls(fields, isCondition) == Prepend(str, ReadCalls(fields[i..], isCondition))
    {
      assert fields[i..][1..] == fields[i + 1..] && fields[i..][0] == fields[i];
      ghost var before, rest := str, ReadCalls(fields[i + 1..], isCondition);
      if fields[i].1.JObject? {
        var call := ReadCall(fields[i].1, isCondition);
        if call.None? {
          return None;
        }
        str := str + (if i == |fields| - 1 then call.value else call.value + " ");
        if rest.Some? {
          assert before + (call.value + " " + rest.value) == before + (call.value + " ") + rest.value;
          assert before + call.value == before + call.value + "";
        }
      }
    }
    assert str + "" == str;
    r := Some(str);
  }

  /** json_rule_to_parseable: a missing or malformed part makes the whole rule unreadable. */
  method JsonRuleToParseable(j: Json) returns (r: Option<RuleText>)
    ensures r == RuleTextOf(j)
  {
    var conditions, actions, undos := Get(j, "conditions"), Get(j, "actions"), Get(j, "undos");
    if !(conditions.Some? && conditions.value.JObject?) {
      return None;
    }
    var c := AppendCalls(conditions.value.fields, true);
    if c.None? || !(actions.Some? && actions.value.JObject?) {
      return None;
    }
    var a := AppendCalls(actions.value.fields, false);
    if a.None? {
      return None;
    }
    var u := ReadUndos(undos);
    if undos.Some? && undos.value.JObject? {
      u := AppendCalls(undos.value.fields, false);
    }
    if u.None? {
      return None;
    }
    r := Some(RuleText(c.value, a.value, u.value));
  }

  // ---------------------------------------------------------------------
  // Which trees can be read
  // ---------------------------------------------------------------------

  predicate IsText(j: Option<Json>) {
    j.Some? && j.value.JString?
  }

  /** The empty string, or an object whose members are all strings. */
  ghost predicate ArgsShape(j: Option<Json>) {
    j.Some? && if j.value.JString? then j.value.s == ""
               else forall i :: 0 <= i < |j.value.fields| ==> j.value.fields[i].1.JString?
  }

  ghost predicate CallShape(j: Json, isCondition: bool) {
    IsText(Get(j, "type")) && (isCondition ==> IsText(Get(j, "is_inverted"))) && ArgsShape(Get(j, "args"))
  }

  /** Members that are objects must have the shape of a call; others do not matter. */
  ghost predicate CallsShape(fields: seq<(string, Json)>, isCondition: bool) {
    forall i :: 0 <= i < |fields| && fields[i].1.JObject? ==> CallShape(fields[i].1, isCondition)
  }

  ghost predicate RuleShape(j: Json) {
    var c, a, u := Get(j, "conditions"), Get(j, "actions"), Get(j, "undos");
    && c.Some? && c.value.JObject? && CallsShape(c.value.fields, true)
    && a.Some? && a.value.JObject? && CallsShape(a.value.fields, false)
    && u.Some? && if u.value.JString? then u.value.s == "" else CallsShape(u.value.fields, false)
  }

  lemma {:induction false} ArgsReadable(fields: seq<(string, Json)>)
    ensures ReadArgFields(fields).Some? <==> forall i :: 0 <= i < |fields| ==> fields[i].1.JString?
  {
    if fields != [] {
      ArgsReadable(fields[1..]);
      assert forall i :: 0 < i < |fields| ==> fields[i] == fields[1..][i - 1];
    }
  }

  lemma CallReadable(j: Json, isCondition: bool)
    ensures ReadCall(j, isCondition).Some? <==> CallShape(j, isCondition)
  {
    hide Get, ReadArgFields;
    var args := Get(j, "args");
    if args.Some? && args.value.JObject? {
      ArgsReadable(args.value.fields);
    }
  }

  lemma {:induction false} CallsReadable(fields: seq<(string, Json)>, isCondition: bool)
    ensures ReadCalls(fields, isCondition).Some? <==> CallsShape(fields, isCondition)
  {
    hide ReadCall, CallShape;
    if fields != [] {
      CallsReadable(fields[1..], isCondition);
      CallReadable(fields[0].1, isCondition);
      assert forall i :: 0 < i < |fields| ==> fields[i] == fields[1..][i - 1];
      assert forall i :: 0 <= i < |fields[1..]| ==> fields[1..][i] == fields[i + 1];
    }
  }

  /** json_rule_to_parseable reads exactly the trees that have the shape of a rule. */
  lemma ReadableIff(j: Json)
    ensures RuleTextOf(j).Some? <==> RuleShape(j)
  {
    hide Get, ReadCalls, CallsShape;
    var c, a, u := Get(j, "conditions"), Get(j, "actions"), Get(j, "undos");
    if c.Some? && c.value.JObject? {
      CallsReadable(c.value.fields, true);
    }
    if a.Some? && a.value.JObject? {
      CallsReadable(a.value.fields, false);
    }
    if u.Some? && u.value.JObject? {
      CallsReadable(u.value.fields, false);
    }
  }

  /** The tree of one rule, spelled out. */
  lemma StoredTree()
    ensures RuleJson(RuleCalls([Call("c", true, [IntArg(7), BoolArg(true)])], [Call("a", false, [StrArg("x")])], [])) ==
            JObject([
              ("conditions", JObject([
                ("0", JObject([
                  ("type", JString("c")), ("is_inverted", JString("true")),
                  ("args", JObject([("0", JString("7")), ("1", JString("t"))]))]))])),
              ("actions", JObject([
                ("0", JObject([("type", JString("a")), ("args", JObject([("0", JString("\"x\""))]))]))])),
              ("undos", JString(""))])
  {
    var c, a := Call("c", true, [IntArg(7), BoolArg(true)]), Call("a", false, [StrArg("x")]);
    assert Decimal(0) == "0" && Decimal(1) == "1" && Decimal(7) == "7";
    assert ArgFields(c.args) == [("0", JString("7")), ("1", JString("t"))];
    assert ArgText(StrArg("x")) == "\"x\"";
    assert ArgFields(a.args) == [("0", JString("\"x\""))];
    assert CallJson(c, true).fields ==
           [("type", JString("c")), ("is_inverted", JString("true")), ("args", JObject(ArgFields(c.args)))];
    assert CallJson(a, false).fields == [("type", JString("a")), ("args", JObject(ArgFields(a.args)))];
    assert CallFields([c], true) == [("0", CallJson(c, true))];
    assert CallFields([a], false) == [("0", CallJson(a, false))];
  }

  lemma {:induction false} ReadArgFieldsInverts(args: seq<Arg>, fields: seq<(string, Json)>)
    requires |fields| == |args|
    requires forall i :: 0 <= i < |args| ==> fields[i].1 == JString(ArgText(args[i]))
    ensures ReadArgFields(fields) == Some(ArgsText(args))
  {
    if |args| > 1 {
      ReadArgFieldsInverts(args[1..], fields[1..]);
    }
  }

  lemma ReadCallInverts(c: Call, isCondition: bool)
    requires !isCondition ==> !c.inverted
    ensures ReadCall(CallJson(c, isCondition), isCondition) == Some(CallText(c))
  {
    var j := CallJson(c, isCondition);
    assert "type" != "is_inverted" && "type" != "args" && "is_inverted" != "args" && "is_inverted" != "type";
    assert Get(j, "type") == Some(JString(c.name));
    var rest := j.fields[1..];
    if isCondition {
      assert rest == [("is_inverted", JString(if c.inverted then "true" else "false")), ("args", ArgsJson(c.args))];
      assert Get(j, "is_inverted") == Lookup(rest, "is_inverted") == Some(rest[0].1);
      assert rest[1..] == [("args", ArgsJson(c.args))];
      assert Get(j, "args") == Lookup(rest, "args") == Lookup(rest[1..], "args");
    } else {
      assert rest == [("args", ArgsJson(c.args))];
      assert Get(j, "args") == Lookup(rest, "args");
    }
    assert Get(j, "args") == Some(ArgsJson(c.args));
    if c.args != [] {
      ReadArgFieldsInverts(c.args, ArgFields(c.args));
    }
    assert ReadArgs(Get(j, "args")) == Some(ArgsText(c.args));
  }

  lemma {:induction false} ReadCallsInverts(cs: seq<Call>, isCondition: bool, fields: seq<(string, Json)>)
    requires forall i :: 0 <= i < |cs| ==> !isCondition ==> !cs[i].inverted
    requires |fields| == |cs|
    requires forall i :: 0 <= i < |cs| ==> fields[i].1 == CallJson(cs[i], isCondition)
    ensures ReadCalls(fields, isCondition) == Some(CallsText(cs))
  {
    if cs != [] {
      ReadCallsInverts(cs[1..], isCondition, fields[1..]);
      ReadCallInverts(cs[0], isCondition);
    }
  }

  lemma RuleFieldsFound(c: Json, a: Json, u: Json)
    ensures var j := JObject([("conditions", c), ("actions", a), ("undos", u)]);
            Get(j, "conditions") == Some(c) && Get(j, "actions") == Some(a) && Get(j, "undos") == Some(u)
  {
    var j := JObject([("conditions", c), ("actions", a), ("undos", u)]);
    assert "conditions" != "actions" && "conditions" != "undos" && "actions" != "undos";
    assert j.fields[1..] == [("actions", a), ("undos", u)];
    assert j.fields[1..][1..] == [("undos", u)];
    assert Lookup(j.fields, "actions") == Lookup(j.fields[1..], "actions");
    assert Lookup(j.fields, "undos") == Lookup(j.fields[1..], "undos") == Lookup(j.fields[1..][1..], "undos");
  }

  lemma RuleTextFound(c: seq<(string, Json)>, a: seq<(string, Json)>, u: Json, t: RuleText)
    requires ReadCalls(c, true) == Some(t.conditions) && ReadCalls(a, false) == Some(t.actions)
    requires ReadUndos(Some(u)) == Some(t.undos)
    ensures RuleTextOf(JObject([("conditions", JObject(c)), ("actions", JObject(a)), ("undos", u)])) == Some(t)
  {
    RuleFieldsFound(JObject(c), JObject(a), u);
  }

  function TextOf(r: RuleCalls): RuleText {
    RuleText(CallsText(r.conditions), CallsText(r.actions), CallsText(r.undos))
  }

  /** The stored tree of a rule reads back as the rule's text. */
  lemma JsonRoundTrip(r: RuleCalls)
    requires ActionsPlain(r)
    ensures RuleTextOf(RuleJson(r)) == Some(TextOf(r))
  {
    var conditions, actions := CallFields(r.conditions, true), CallFields(r.actions, false);
    var undos := if r.undos == [] then JString("") else JObject(CallFields(r.undos, false));
    ReadCallsInverts(r.conditions, true, conditions);
    ReadCallsInverts(r.actions, false, actions);
    ReadCallsInverts(r.undos, false, CallFields(r.undos, false));
    RuleTextFound(conditions, actions, undos, TextOf(r));
  }
}
