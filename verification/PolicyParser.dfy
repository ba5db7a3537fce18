/**
  The policy parser (xcpmd/src/parser.c): a 13-state machine that reads up to three
  chained strings (conditions, actions, undo actions), one string of variable
  definitions, or a single argument.
 */
module PolicyParser {
  import opened Options
  import opened PolicyTypes

  datatype FsmState =
    | Start | InvertFn | AccumName | BeginAccumArg | AccumVar | AccumInt | BeginAccumFloat
    | AccumFloat | AccumStr | EndAccumStr | AccumBool | AcceptFn | AcceptRule

  /** What the current string is parsed as. */
  datatype Target = ForArg | ForVarMap | ForConditions | ForActions | ForUndos | Undetermined

  datatype ArgType = NoType | TypeInt | TypeFloat | TypeStr | TypeBool | TypeVar

  datatype Error = NoError | FsmError | BoolError | VarMissing | OverlappingVars | InvalidVarType | VarRejected

  /** The string being parsed and the cursor into it, and a rule's strings still to be loaded. */
  datatype Input = Input(str: string, pos: nat, actionsStr: string, undosStr: string)

  /** The call being accumulated. */
  datatype Accum = Accum(name: string, arg: string, argType: ArgType, args: seq<Arg>, plain: bool)

  /** The calls accepted so far. */
  datatype Lists = Lists(conditions: seq<Fn>, actions: seq<Fn>, undos: seq<Fn>, parsed: Option<Fn>)

  /** A variable that a parse defined. */
  datatype VarDef = VarDef(name: string, value: Arg)

  /** The variables that look-up finds, with their type letter, and those this parse defined, in order. */
  datatype Vars = Vars(known: map<string, char>, defined: seq<VarDef>)

  /** struct parse_data. */
  datatype Machine = Machine(
    state: FsmState, input: Input, target: Target, acc: Accum, lists: Lists, vars: Vars,
    finished: bool, error: Error)

  /** A C string holds no NUL before its end. */
  predicate IsCString(s: string) {
    forall i :: 0 <= i < |s| ==> s[i] != '\0'
  }

  predicate ValidInput(i: Input) {
    i.pos <= |i.str| && IsCString(i.str) && IsCString(i.actionsStr) && IsCString(i.undosStr)
  }

  predicate Valid(m: Machine) {
    ValidInput(m.input)
  }

  /** The character under the cursor; the terminator at the end. */
  function Current(i: Input): char
    requires ValidInput(i)
  {
    if i.pos < |i.str| then i.str[i.pos] else '\0'
  }

  // ---------------------------------------------------------------------
  // Actions
  // ---------------------------------------------------------------------

  function DigitValue(c: char): int {
    c as int - '0' as int
  }

  function ParseNat(s: string): int {
    if s == "" then 0 else 10 * ParseNat(s[..|s| - 1]) + DigitValue(s[|s| - 1])
  }

  function ParseInt(s: string): int {
    if s != "" && s[0] == '-' then -ParseNat(s[1..]) else ParseNat(s)
  }

  function Pow10(n: nat): (p: nat)
    ensures p > 0
  {
    if n == 0 then 1 else 10 * Pow10(n - 1)
  }

  /** Where the decimal point is; past the end if there is none. */
  function Point(s: string): (p: nat)
    ensures p <= |s|
    ensures p < |s| ==> s[p] == '.'
  {
    if s == "" || s[0] == '.' then 0 else 1 + Point(s[1..])
  }

  function ParseDecimal(s: string): real {
    var p := Point(s);
    if p == |s| then ParseNat(s) as real
    else ParseNat(s[..p] + s[p + 1..]) as real / Pow10(|s| - p - 1) as real
  }

  /** The number that a float literal denotes. */
  function ParseFloat(s: string): real {
    if s != "" && s[0] == '-' then -ParseDecimal(s[1..]) else ParseDecimal(s)
  }

  /** Storing a long in an int keeps its low 32 bits. */
  function ToInt32(v: int): (r: int)
    ensures IsInt32(r)
    ensures IsInt32(v) ==> r == v
  {
    (v + 0x8000_0000) % 0x1_0000_0000 - 0x8000_0000
  }

  function Fail(m: Machine, e: Error): Machine {
    m.(error := e, finished := true)
  }

  function KeepArg(m: Machine, a: Arg): Machine {
    m.(acc := m.acc.(args := m.acc.args + [a], arg := ""))
  }

  /** action_acceptArg: converts the accumulated text; an empty one is dropped. */
  function AcceptArg(m: Machine): (n: Machine)
    ensures n.input == m.input && n.target == m.target
  {
    var text := m.acc.arg;
    if text == "" then m else
    match m.acc.argType
    case TypeInt => KeepArg(m, IntArg(ToInt32(ParseInt(text))))
    case TypeFloat => KeepArg(m, FloatArg(ParseFloat(text)))
    case TypeStr => KeepArg(m, StrArg(text))
    case TypeBool =>
      if text[0] == 't' then KeepArg(m, BoolArg(true))
      else if text[0] == 'f' then KeepArg(m, BoolArg(false))
      else Fail(m, BoolError)
    case TypeVar => if text in m.vars.known then KeepArg(m, VarArg(text)) else Fail(m, VarMissing)
    case NoType => Fail(m, FsmError)
  }

  function ResetFn(m: Machine): Machine {
    m.(acc := m.acc.(args := [], name := "", plain := true))
  }

  /** Appends the call to the list of the target; an action's inverter is recorded, an undo's is not. */
  function AddFn(l: Lists, t: Target, name: string, args: seq<Arg>, plain: bool): Lists {
    match t
    case ForArg => l.(parsed := Some(Fn(name, args, false)))
    case ForConditions => l.(conditions := l.conditions + [Fn(name, args, plain)])
    case ForActions => l.(actions := l.actions + [Fn(name, args, plain)])
    case ForUndos => l.(undos := l.undos + [Fn(name, args, false)])
    case ForVarMap | Undetermined => l
  }

  /** Defines a variable: refused if this parse has defined it already or if its type would change. */
  function DefineVar(m: Machine, name: string, value: Arg): Machine {
    var v := m.vars;
    if (exists i :: 0 <= i < |v.defined| && v.defined[i].name == name)
       || (name in v.known && v.known[name] != TypeLetter(value)) then
      m.(error := VarRejected)
    else
      m.(error := NoError, vars := Vars(v.known[name := TypeLetter(value)], v.defined + [VarDef(name, value)]))
  }

  /** action_acceptFn: accepts the last argument, then the call. */
  function AcceptCall(m0: Machine): (n: Machine)
    ensures n.input == m0.input && n.target == m0.target
  {
    var m := AcceptArg(m0);
    var args := m.acc.args;
    if m.acc.name == "" then m else
    match m.target
    case ForArg | ForConditions | ForActions | ForUndos =>
      ResetFn(m.(lists := AddFn(m.lists, m.target, m.acc.name, args, m.acc.plain)))
    case ForVarMap =>
      if args == [] then Fail(m, VarMissing)
      else if |args| > 1 then Fail(m, OverlappingVars)
      else if args[0].VarArg? then Fail(m, InvalidVarType)
      else ResetFn(DefineVar(m, m.acc.name, args[0]))
    case Undetermined => Fail(m, FsmError)
  }

  /** load_parse_string. */
  function Load(m: Machine, s: string): Machine {
    m.(input := m.input.(str := s, pos := 0), acc := m.acc.(name := "", arg := ""))
  }

  /** action_acceptFns: moves on to the next string of a rule, or finishes. */
  function AcceptCalls(m0: Machine): (n: Machine)
    ensures Valid(m0) ==> Valid(n)
    ensures n.finished || StringsLeft(n.target) < StringsLeft(m0.target)
  {
    var m := AcceptCall(m0);
    match m.target
    case ForConditions => Load(m.(target := ForActions), m.input.actionsStr)
    case ForActions => Load(m.(target := ForUndos), m.input.undosStr)
    case ForArg | ForVarMap | ForUndos => m.(target := Undetermined, finished := true)
    case Undetermined => Fail(m, FsmError)
  }

  // ---------------------------------------------------------------------
  // Transitions
  // ---------------------------------------------------------------------

  predicate IsTrue(c: char) {
    c == 't' || c == 'T' || c == 'y' || c == 'Y'
  }

  predicate IsFalse(c: char) {
    c == 'f' || c == 'F' || c == 'n' || c == 'N'
  }

  /** The cursor moves before the action runs, and never past the terminator. */
  function Moved(i: Input): Input {
    if i.pos < |i.str| then i.(pos := i.pos + 1) else i
  }

  function ToName(m: Machine, c: char): Machine {
    m.(acc := m.acc.(name := m.acc.name + [c]), state := AccumName)
  }

  function ToArg(m: Machine, c: char, state: FsmState): Machine {
    m.(acc := m.acc.(arg := m.acc.arg + [c]), state := state)
  }

  /** Establishes the type of the argument that begins. */
  function Begin(m: Machine, t: ArgType): Machine {
    m.(acc := m.acc.(argType := t))
  }

  /** The edge taken on the current character, if there is one. */
  function Step(m0: Machine): (r: Option<Machine>)
    requires Valid(m0)
  {
    var c, m := Current(m0.input), m0.(input := Moved(m0.input));
    match m.state
    case Start =>
      if IsAlphanumeric_(c) then Some(ToName(m, c))
      else if c == '!' then Some(m.(acc := m.acc.(plain := false), state := InvertFn))
      else if c == ' ' then Some(m)
      else if c == '\0' || c == '\n' then Some(AcceptCalls(m).(state := AcceptRule))
      else None
    case InvertFn =>
      if IsAlphanumeric_(c) then Some(ToName(m, c)) else None
    case AccumName =>
      if IsAlphanumeric_(c) then Some(ToName(m, c))
      else if c == '(' then Some(m.(state := BeginAccumArg))
      else None
    case BeginAccumArg =>
      if c == '$' then Some(Begin(m, TypeVar).(state := AccumVar))
      else if IsDigit(c) || c == '-' then Some(ToArg(Begin(m, TypeInt), c, AccumInt))
      else if c == '"' then Some(Begin(m, TypeStr).(state := AccumStr))
      else if IsTrue(c) then Some(ToArg(Begin(m, TypeBool), 't', AccumBool))
      else if IsFalse(c) then Some(ToArg(Begin(m, TypeBool), 'f', AccumBool))
      else if c == ')' then Some(AcceptCall(m).(state := AcceptFn))
      else None
    case AccumVar =>
      if IsAlphanumeric_(c) then Some(ToArg(m, c, AccumVar)) else EndArg(m, c)
    case AccumInt =>
      if IsDigit(c) then Some(ToArg(m, c, AccumInt))
      else if c == '.' then Some(ToArg(Begin(m, TypeFloat), c, BeginAccumFloat))
      else EndArg(m, c)
    case BeginAccumFloat =>
      if IsDigit(c) then Some(ToArg(m, c, AccumFloat))
      else if c == ')' then Some(AcceptCall(m).(state := AcceptFn))
      else None
    case AccumFloat =>
      if IsDigit(c) then Some(ToArg(m, c, AccumFloat)) else EndArg(m, c)
    case AccumStr =>
      if c != '"' && c != '\0' then Some(ToArg(m, c, AccumStr)) else Some(m.(state := EndAccumStr))
    case AccumBool => EndArg(m, c)
    case EndAccumStr => EndArg(m, c)
    case AcceptFn =>
      if c == ' ' then Some(m.(state := Start))
      else if c == '\0' || c == '\n' then Some(AcceptCalls(m).(state := AcceptRule))
      else None
    case AcceptRule => None
  }

  /** After an argument: a space starts the next one, a parenthesis closes the call. */
  function EndArg(m: Machine, c: char): Option<Machine> {
    if c == ' ' then Some(AcceptArg(m).(state := BeginAccumArg))
    else if c == ')' then Some(AcceptCall(m).(state := AcceptFn))
    else None
  }

  // ---------------------------------------------------------------------
  // The main loop, and why it stops
  // ---------------------------------------------------------------------

  function StringsLeft(t: Target): nat {
    match t
    case ForConditions => 3
    case ForActions => 2
    case ForUndos | ForArg | ForVarMap => 1
    case Undetermined => 0
  }

  /** Orders the states that can follow each other without consuming a character. */
  function Rank(s: FsmState): nat {
    match s
    case AccumStr | AcceptRule => 1
    case _ => 0
  }

  /**
    Every edge keeps the cursor within the string and decreases, lexicographically,
    whether parsing goes on, the strings left, the characters left and the state's rank.
   */
  lemma StepProgress(m: Machine)
    requires Valid(m) && !m.finished && Step(m).Some?
    ensures Advances(m, Step(m).value)
  {
    match m.state
    case AccumVar | AccumInt | AccumFloat | AccumBool | EndAccumStr => ArgProgress(m);
    case Start | AcceptFn => CallsProgress(m);
    case _ => CallProgress(m);
  }

  ghost predicate Advances(m: Machine, n: Machine) {
    && Valid(n)
    && (n.finished
        || StringsLeft(n.target) < StringsLeft(m.target)
        || (n.target == m.target && n.input.str == m.input.str
            && (n.input.pos == m.input.pos + 1
                || (n.input.pos == m.input.pos == |m.input.str| && Rank(n.state) < Rank(m.state)))))
  }

  lemma ArgProgress(m: Machine)
    requires Valid(m) && !m.finished && Step(m).Some?
    requires m.state in {AccumVar, AccumInt, AccumFloat, AccumBool, EndAccumStr}
    ensures Advances(m, Step(m).value)
  {
    assert Current(m.input) != '\0';
  }

  lemma CallsProgress(m: Machine)
    requires Valid(m) && !m.finished && Step(m).Some?
    requires m.state in {Start, AcceptFn}
    ensures Advances(m, Step(m).value)
  {
    assert ValidInput(Moved(m.input));
  }

  lemma CallProgress(m: Machine)
    requires Valid(m) && !m.finished && Step(m).Some?
    requires m.state in {InvertFn, AccumName, BeginAccumArg, BeginAccumFloat, AccumStr}
    ensures Advances(m, Step(m).value)
  {
    assert ValidInput(Moved(m.input));
  }

  datatype Outcome = Outcome(ok: bool, m: Machine)

  /** parse(): runs the machine to its verdict. */
  function Run(m: Machine): (r: Outcome)
    requires Valid(m)
    ensures Valid(r.m)
    decreases if m.finished then 0 else 1, StringsLeft(m.target), |m.input.str| - m.input.pos, Rank(m.state)
  {
    if m.state == AcceptRule then
      if m.finished then Outcome(m.error == NoError, m.(state := Start)) else Run(m.(state := Start))
    else if m.finished then Outcome(false, m)
    else
      match Step(m)
      case Some(n) => StepProgress(m); Run(n)
      case None => Outcome(false, m.(error := FsmError))
  }

  class Parser {
    var m: Machine

    constructor (start: Machine)
      ensures m == start
    {
      m := start;
    }

    /** The loop halts on every input, with the cursor never past the end of the current string. */
    method Parse() returns (ok: bool)
      requires Valid(m) && !m.finished
      modifies this
      ensures Valid(m)
      ensures Outcome(ok, m) == Run(old(m))
    {
      while !m.finished
        invariant Valid(m) && Run(m) == Run(old(m))
        invariant m.finished ==> m.state == AcceptRule
        decreases if m.finished then 0 else 1, StringsLeft(m.target), |m.input.str| - m.input.pos, Rank(m.state)
      {
        if m.state == AcceptRule {
          m := m.(state := Start);
        } else {
          var next := Step(m);
          if next.None? {
            m := m.(error := FsmError);
            return false;
          }
          StepProgress(m);
          m := next.value;
          if m.finished && m.state != AcceptRule {
            return false;
          }
        }
      }
      ok := m.error == NoError;
      m := m.(state := Start);
    }
  }

  // ---------------------------------------------------------------------
  // Entry points
  // ---------------------------------------------------------------------

  function Fresh(str: string, actions: string, undos: string, target: Target, known: map<string, char>): Machine {
    Machine(Start, Input(str, 0, actions, undos), target, Accum("", "", NoType, [], true),
            Lists([], [], [], None), Vars(known, []), false, NoError)
  }

  datatype RuleText = RuleText(conditions: string, actions: string, undos: string)
  datatype RuleFns = RuleFns(conditions: seq<Fn>, actions: seq<Fn>, undos: seq<Fn>)

  /** The three call lists of a rule, if its text parses and its variables are known. */
  function ParseRule(t: RuleText, known: map<string, char>): Option<RuleFns>
    requires IsCString(t.conditions) && IsCString(t.actions) && IsCString(t.undos)
  {
    var r := Run(Fresh(t.conditions, t.actions, t.undos, ForConditions, known));
    if r.ok then Some(RuleFns(r.m.lists.conditions, r.m.lists.actions, r.m.lists.undos)) else None
  }

  /** What parse_arg gives; without a call, or for one without arguments, it follows a null pointer. */
  datatype ParsedArg = Value(arg: Arg) | Refused | NullList

  /** parse_arg: the value in a string of the form name(value). */
  function ParseArg(text: string, known: map<string, char>): ParsedArg
    requires IsCString(text)
  {
    var r := Run(Fresh(text, "", "", ForArg, known));
    var parsed := r.m.lists.parsed;
    if !r.ok then Refused
    else if parsed.None? || parsed.value.args == [] then NullList
    else Value(parsed.value.args[0])
  }
}
