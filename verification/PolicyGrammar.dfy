/**
  The language of policy text, written down as a simple recursive reader, and the proof
  that the state machine of xcpmd/src/parser.c reads exactly that language: on every
  input the two agree, on what is accepted and on every call, inverter and argument.
 */
module PolicyGrammar {
  import opened Options
  import opened PolicyTypes
  import opened PolicyParser
  import opened PolicyPrinter
  import opened PolicyRoundTrip

  // ---------------------------------------------------------------------
  // The language
  // ---------------------------------------------------------------------

  /** How many name characters the text begins with. */
  function NameLength(s: string): (n: nat)
    ensures n <= |s| && forall i :: 0 <= i < n ==> IsAlphanumeric_(s[i])
    ensures n < |s| ==> !IsAlphanumeric_(s[n])
  {
    if s == "" || !IsAlphanumeric_(s[0]) then 0 else 1 + NameLength(s[1..])
  }

  /** How many digits. */
  function DigitsLength(s: string): (n: nat)
    ensures n <= |s| && forall i :: 0 <= i < n ==> IsDigit(s[i])
    ensures n < |s| ==> !IsDigit(s[n])
  {
    if s == "" || !IsDigit(s[0]) then 0 else 1 + DigitsLength(s[1..])
  }

  /** How many characters before the next double quote. */
  function QuotedLength(s: string): (n: nat)
    ensures n <= |s| && forall i :: 0 <= i < n ==> s[i] != '"'
    ensures n < |s| ==> s[n] == '"'
  {
    if s == "" || s[0] == '"' then 0 else 1 + QuotedLength(s[1..])
  }

  /** What a literal at the head of the text gives, if anything, and the text after it. */
  datatype Literal = Literal(args: seq<Arg>, rest: string)

  function ReadVariable(s: string, known: map<string, char>): Option<Literal> {
    var n := NameLength(s);
    if n == 0 then Some(Literal([], s))
    else if s[..n] in known then Some(Literal([VarArg(s[..n])], s[n..]))
    else None
  }

  // s begins with a digit or a minus sign.
  function ReadNumber(s: string): Option<Literal>
    requires s != ""
  {
    var n := 1 + DigitsLength(s[1..]);
    if n < |s| && s[n] == '.' then
      var end := n + 1 + DigitsLength(s[n + 1..]);
      if end == n + 1 && !(end < |s| && s[end] == ')') then None
      else Some(Literal([FloatArg(ParseFloat(s[..end]))], s[end..]))
    else Some(Literal([IntArg(ToInt32(ParseInt(s[..n])))], s[n..]))
  }

  // s follows an opening quote.
  function ReadQuoted(s: string): Option<Literal> {
    var n := QuotedLength(s);
    if n == |s| then None
    else Some(Literal(if n == 0 then [] else [StrArg(s[..n])], s[n + 1..]))
  }

  function ReadLiteral(s: string, known: map<string, char>): (r: Option<Literal>)
    requires s != ""
    ensures r.Some? ==> |r.value.rest| < |s|
  {
    if s[0] == '$' then ReadVariable(s[1..], known)
    else if s[0] == '-' || IsDigit(s[0]) then ReadNumber(s)
    else if s[0] == '"' then ReadQuoted(s[1..])
    else if s[0] in {'t', 'T', 'y', 'Y'} then Some(Literal([BoolArg(true)], s[1..]))
    else if s[0] in {'f', 'F', 'n', 'N'} then Some(Literal([BoolArg(false)], s[1..]))
    else None
  }

  /** Arguments, each followed by one blank or by the closing parenthesis. */
  function ReadArgList(s: string, known: map<string, char>): (r: Option<Literal>)
    ensures r.Some? ==> |r.value.rest| < |s|
    decreases |s|
  {
    if s == "" then None
    else if s[0] == ')' then Some(Literal([], s[1..]))
    else
      match ReadLiteral(s, known)
      case None => None
      case Some(l) =>
        if l.rest == "" then None
        else if l.rest[0] == ')' then Some(Literal(l.args, l.rest[1..]))
        else if l.rest[0] == ' ' then
          match ReadArgList(l.rest[1..], known)
          case Some(more) => Some(Literal(l.args + more.args, more.rest))
          case None => None
        else None
  }

  datatype OneCall = OneCall(fn: Fn, rest: string)

  function ReadNamed(s: string, known: map<string, char>, plain: bool): (r: Option<OneCall>)
    ensures r.Some? ==> |r.value.rest| < |s|
  {
    var n := NameLength(s);
    if n == 0 || n == |s| || s[n] != '(' then None else
    match ReadArgList(s[n + 1..], known)
    case Some(l) => Some(OneCall(Fn(s[..n], l.args, plain), l.rest))
    case None => None
  }

  /** A call: perhaps an inverter, a name and an argument list in parentheses. */
  function ReadOneCall(s: string, known: map<string, char>): (r: Option<OneCall>)
    ensures r.Some? ==> |r.value.rest| < |s|
  {
    if s != "" && s[0] == '!' then ReadNamed(s[1..], known, false) else ReadNamed(s, known, true)
  }

  predicate LineEnds(s: string) {
    s == "" || s[0] == '\n'
  }

  /** Calls separated by blanks, up to the end of the line. */
  function ReadLine(s: string, known: map<string, char>): Option<seq<Fn>>
    decreases |s|
  {
    if LineEnds(s) then Some([])
    else if s[0] == ' ' then ReadLine(s[1..], known)
    else
      match ReadOneCall(s, known)
      case None => None
      case Some(c) =>
        if LineEnds(c.rest) then Some([c.fn])
        else if c.rest[0] == ' ' then
          match ReadLine(c.rest[1..], known)
          case Some(more) => Some([c.fn] + more)
          case None => None
        else None
  }

  function Unmarked(fs: seq<Fn>): seq<Fn> {
    seq(|fs|, i requires 0 <= i < |fs| => fs[i].(plain := false))
  }

  /** A rule is three lines; an undo's inverter is not recorded. */
  function ReadRule(t: RuleText, known: map<string, char>): Option<RuleFns> {
    match (ReadLine(t.conditions, known), ReadLine(t.actions, known), ReadLine(t.undos, known))
    case (Some(c), Some(a), Some(u)) => Some(RuleFns(c, a, Unmarked(u)))
    case _ => None
  }

  // ---------------------------------------------------------------------
  // Steps of the machine
  // ---------------------------------------------------------------------

  function Rest(i: Input): string
    requires ValidInput(i)
  {
    i.str[i.pos..]
  }

  lemma RestAhead(i: Input, n: nat)
    requires ValidInput(i) && n <= |Rest(i)|
    ensures Ahead(i, Rest(i)[..n]) && ValidInput(Past(i, n)) && Rest(Past(i, n)) == Rest(i)[n..]
  {
  }

  lemma RestFirst(i: Input)
    requires ValidInput(i)
    ensures Current(i) == if Rest(i) == "" then '\0' else Rest(i)[0]
    ensures Rest(i) != "" ==> Rest(i)[0] != '\0' && Moved(i) == Past(i, 1) && Rest(Past(i, 1)) == Rest(i)[1..]
    ensures Rest(i) == "" ==> Moved(i) == i
  {
  }

  lemma RestNoNul(i: Input)
    requires ValidInput(i)
    ensures forall j :: 0 <= j < |Rest(i)| ==> Rest(i)[j] != '\0'
  {
  }

  lemma Stuck(m: Machine)
    requires Valid(m) && !m.finished && m.state != AcceptRule && Step(m).None?
    ensures !Run(m).ok
  {
    hide Step;
  }

  lemma Failed(m: Machine)
    requires Valid(m) && m.finished && m.state != AcceptRule
    ensures !Run(m).ok
  {
    hide Step;
  }

  /** Apart from the cursor, the state and the argument accumulator, n is m. */
  ghost predicate SameCall(m: Machine, n: Machine) {
    n == m.(input := n.input, state := n.state, acc := m.acc.(arg := n.acc.arg, argType := n.acc.argType))
    && n.input == m.input.(pos := n.input.pos)
  }

  /** The character would prolong the literal. */
  predicate Goes(state: FsmState, c: char) {
    match state
    case AccumVar => IsAlphanumeric_(c)
    case AccumInt => IsDigit(c) || c == '.'
    case AccumFloat => IsDigit(c)
    case _ => false
  }

  /** A literal has been read: accepting it keeps exactly its arguments. */
  ghost predicate HasLiteral(m: Machine, n: Machine, l: Literal) {
    && Valid(n) && !n.finished && SameCall(m, n) && Rest(n.input) == l.rest
    && n.state in {AccumVar, AccumInt, BeginAccumFloat, AccumFloat, EndAccumStr, AccumBool}
    && (n.state == BeginAccumFloat ==> l.rest != "" && l.rest[0] == ')')
    && (l.rest != "" ==> !Goes(n.state, l.rest[0]))
    && forall i :: var k := n.(input := i);
                   AcceptArg(k) == k.(acc := k.acc.(arg := "", args := m.acc.args + l.args))
  }

  // ---------------------------------------------------------------------
  // Literals
  // ---------------------------------------------------------------------

  ghost predicate Collects(m: Machine) {
    AtArg(m) && Valid(m) && m.acc.name != ""
  }

  lemma VariableMeans(m: Machine) returns (n: Machine)
    requires Collects(m) && Rest(m.input) != "" && Rest(m.input)[0] == '$'
    ensures match ReadVariable(Rest(m.input)[1..], m.vars.known)
            case Some(l) => HasLiteral(m, n, l) && Run(m) == Run(n)
            case None => !Run(m).ok
  {
    hide Run, Step, AcceptArg, NameLength, Rest;
    var s := Rest(m.input)[1..];
    var k := NameLength(s);
    n := NameOfVariable(m, s, k);
    if k == 0 {
      assert s[..0] == "" && s[0..] == s;
      EmptyAccepted(m, n);
    } else if s[..k] in m.vars.known {
      VarAccepted(m, n);
    } else {
      UnknownFails(n);
    }
  }

  lemma NameOfVariable(m: Machine, s: string, k: nat) returns (n: Machine)
    requires Collects(m) && Rest(m.input) != "" && Rest(m.input)[0] == '$' && s == Rest(m.input)[1..] && k == NameLength(s)
    ensures n == Go(m, k + 1, AccumVar, m.acc.(argType := TypeVar, arg := s[..k])) && Valid(n) && Rest(n.input) == s[k..]
    ensures Run(m) == Run(n)
  {
    hide Run, Step, NameLength;
    RestAhead(m.input, 1);
    assert Rest(m.input)[..1] == "$";
    DollarEdge(m);
    var d := Go(m, 1, AccumVar, m.acc.(argType := TypeVar));
    RestAhead(d.input, k);
    ArgRun(d, s[..k]);
    n := Go(m, k + 1, AccumVar, m.acc.(argType := TypeVar, arg := s[..k]));
    assert d.acc.arg + s[..k] == s[..k];
  }

  lemma EmptyAccepted(m: Machine, n: Machine)
    requires SameCall(m, n) && n.acc.arg == "" && m.acc.arg == ""
    ensures forall i :: var k := n.(input := i); AcceptArg(k) == k.(acc := k.acc.(arg := "", args := m.acc.args + []))
  {
    assert m.acc.args + [] == m.acc.args;
  }

  lemma VarAccepted(m: Machine, n: Machine)
    requires SameCall(m, n) && n.acc.arg != "" && n.acc.argType == TypeVar && n.acc.arg in n.vars.known
    ensures forall i :: var k := n.(input := i);
                        AcceptArg(k) == k.(acc := k.acc.(arg := "", args := m.acc.args + [VarArg(n.acc.arg)]))
  {
  }

  // An unknown variable ends the parse, whatever follows it.
  lemma UnknownFails(n: Machine)
    requires Valid(n) && !n.finished && n.state == AccumVar && n.acc.argType == TypeVar
    requires n.acc.arg != "" && n.acc.arg !in n.vars.known
    requires Rest(n.input) == "" || !IsAlphanumeric_(Rest(n.input)[0])
    ensures !Run(n).ok
  {
    hide Run;
    RestFirst(n.input);
    var c := Current(n.input);
    if c == ' ' || c == ')' {
      var k := Step(n).value;
      Once(n, k);
      Failed(k);
    } else {
      Stuck(n);
    }
  }

  lemma NumberMeans(m: Machine) returns (n: Machine)
    requires Collects(m) && Rest(m.input) != "" && (Rest(m.input)[0] == '-' || IsDigit(Rest(m.input)[0]))
    ensures match ReadNumber(Rest(m.input))
            case Some(l) => HasLiteral(m, n, l) && Run(m) == Run(n)
            case None => !Run(m).ok
  {
    hide Run, Step, HasLiteral, ParseFloat, ParseInt, ToInt32, Goes, DigitsLength, Rest;
    var s := Rest(m.input);
    var k := 1 + DigitsLength(s[1..]);
    n := DigitsMean(m, s, k);
    assert k < |s| ==> s[k] == s[1..][k - 1];
    if k < |s| && s[k] == '.' {
      n := PointMeans(m, n, s, k);
    } else {
      IntRead(m, n, s, k);
    }
  }

  lemma DigitsMean(m: Machine, s: string, k: nat) returns (n: Machine)
    requires Collects(m) && s == Rest(m.input) != "" && (s[0] == '-' || IsDigit(s[0])) && k == 1 + DigitsLength(s[1..])
    ensures n == Go(m, k, AccumInt, m.acc.(argType := TypeInt, arg := s[..k])) && Valid(n) && Rest(n.input) == s[k..]
    ensures Run(m) == Run(n)
  {
    hide Run, Step, DigitsLength;
    RestAhead(m.input, k);
    assert forall i :: 1 <= i < k ==> s[..k][i] == s[1..][i - 1];
    ReadDigits(m, s[..k]);
    n := Go(m, k, AccumInt, m.acc.(argType := TypeInt, arg := s[..k]));
  }

  lemma IntRead(m: Machine, n: Machine, s: string, k: nat)
    requires Collects(m) && Rest(m.input) == s && 0 < k <= |s| && (k < |s| ==> !IsDigit(s[k]) && s[k] != '.')
    requires n == Go(m, k, AccumInt, m.acc.(argType := TypeInt, arg := s[..k])) && Valid(n) && Rest(n.input) == s[k..]
    ensures HasLiteral(m, n, Literal([IntArg(ToInt32(ParseInt(s[..k])))], s[k..]))
  {
    hide AcceptArg, ParseInt, ToInt32;
    IntAccepted(m, n);
  }

  lemma IntAccepted(m: Machine, n: Machine)
    requires SameCall(m, n) && n.acc.arg != "" && n.acc.argType == TypeInt
    ensures forall i :: var k := n.(input := i);
                        AcceptArg(k) ==
                        k.(acc := k.acc.(arg := "", args := m.acc.args + [IntArg(ToInt32(ParseInt(n.acc.arg)))]))
  {
    hide ParseInt, ToInt32;
  }

  lemma FloatAccepted(m: Machine, n: Machine)
    requires SameCall(m, n) && n.acc.arg != "" && n.acc.argType == TypeFloat
    ensures forall i :: var k := n.(input := i);
                        AcceptArg(k) == k.(acc := k.acc.(arg := "", args := m.acc.args + [FloatArg(ParseFloat(n.acc.arg))]))
  {
    hide ParseFloat;
  }

  lemma FloatRead(m: Machine, n: Machine, text: string, rest: string)
    requires Collects(m) && Valid(n) && !n.finished && SameCall(m, n) && Rest(n.input) == rest
    requires n.acc.arg == text != "" && n.acc.argType == TypeFloat
    requires (n.state == AccumFloat && (rest != "" ==> !IsDigit(rest[0])))
             || (n.state == BeginAccumFloat && rest != "" && rest[0] == ')')
    ensures HasLiteral(m, n, Literal([FloatArg(ParseFloat(text))], rest))
  {
    hide AcceptArg, ParseFloat;
    FloatAccepted(m, n);
  }

  lemma PointMeans(m: Machine, d: Machine, s: string, k: nat) returns (n: Machine)
    requires Collects(m) && Rest(m.input) == s && 0 < k < |s| && s[k] == '.'
    requires d == Go(m, k, AccumInt, m.acc.(argType := TypeInt, arg := s[..k])) && Valid(d) && Rest(d.input) == s[k..]
    ensures var end := k + 1 + DigitsLength(s[k + 1..]);
            if end == k + 1 && !(end < |s| && s[end] == ')') then !Run(d).ok
            else HasLiteral(m, n, Literal([FloatArg(ParseFloat(s[..end]))], s[end..])) && Run(d) == Run(n)
  {
    hide Run, Step, HasLiteral, ParseFloat, DigitsLength, Rest;
    var w := DigitsLength(s[k + 1..]);
    var p := PointStep(d);
    assert s[k..][1..] == s[k + 1..] && s[..k] + "." == s[..k + 1];
    n := p;
    if w > 0 {
      n := FractionMeans(m, p, s, k + 1, w);
    } else if k + 1 < |s| && s[k + 1] == ')' {
      FloatRead(m, p, s[..k + 1], s[k + 1..]);
    } else {
      NoFraction(p);
    }
  }

  lemma PointStep(d: Machine) returns (p: Machine)
    requires Valid(d) && !d.finished && d.state == AccumInt && Rest(d.input) != "" && Rest(d.input)[0] == '.'
    ensures p == Go(d, 1, BeginAccumFloat, d.acc.(argType := TypeFloat, arg := d.acc.arg + "."))
    ensures Valid(p) && Rest(p.input) == Rest(d.input)[1..] && Run(d) == Run(p)
  {
    hide Run, Step;
    RestAhead(d.input, 1);
    assert Rest(d.input)[..1] == ".";
    PointEdge(d);
    p := Go(d, 1, BeginAccumFloat, d.acc.(argType := TypeFloat, arg := d.acc.arg + "."));
  }

  lemma FractionMeans(m: Machine, p: Machine, s: string, k: nat, w: nat) returns (n: Machine)
    requires Collects(m) && Valid(p) && !p.finished && p.state == BeginAccumFloat && SameCall(m, p)
    requires 0 < k && k + w <= |s| && w > 0 && w == DigitsLength(s[k..]) && Rest(p.input) == s[k..]
    requires p.acc.arg == s[..k] && p.acc.argType == TypeFloat
    ensures HasLiteral(m, n, Literal([FloatArg(ParseFloat(s[..k + w]))], s[k + w..])) && Run(p) == Run(n)
  {
    hide Run, Step, HasLiteral, ParseFloat, DigitsLength;
    RestAhead(p.input, w);
    ReadFraction(p, s[k..][..w]);
    n := Go(p, w, AccumFloat, p.acc.(arg := p.acc.arg + s[k..][..w]));
    assert s[..k] + s[k..][..w] == s[..k + w];
    assert s[k..][w..] == s[k + w..];
    FloatRead(m, n, s[..k + w], s[k + w..]);
  }

  lemma NoFraction(n: Machine)
    requires Valid(n) && !n.finished && n.state == BeginAccumFloat
    requires Rest(n.input) == "" || (!IsDigit(Rest(n.input)[0]) && Rest(n.input)[0] != ')')
    ensures !Run(n).ok
  {
    hide Run;
    RestFirst(n.input);
    Stuck(n);
  }

  lemma QuotedMeans(m: Machine) returns (n: Machine)
    requires Collects(m) && Rest(m.input) != "" && Rest(m.input)[0] == '"'
    ensures match ReadQuoted(Rest(m.input)[1..])
            case Some(l) => HasLiteral(m, n, l) && Run(m) == Run(n)
            case None => !Run(m).ok
  {
    hide Run, Step, HasLiteral, QuotedLength;
    var s := Rest(m.input)[1..];
    var k := QuotedLength(s);
    n := BodyMeans(m, s, k);
    if k == |s| {
      Unterminated(n);
    } else {
      RestAhead(n.input, 1);
      assert Rest(n.input)[..1] == "\"";
      CloseQuoteEdge(n);
      n := Go(n, 1, EndAccumStr, n.acc);
      assert s[k..][1..] == s[k + 1..];
      QuotedRead(m, n, s[..k], s[k + 1..]);
    }
  }

  lemma BodyMeans(m: Machine, s: string, k: nat) returns (n: Machine)
    requires Collects(m) && Rest(m.input) != "" && Rest(m.input)[0] == '"' && s == Rest(m.input)[1..] && k == QuotedLength(s)
    ensures n == Go(m, k + 1, AccumStr, m.acc.(argType := TypeStr, arg := s[..k])) && Valid(n) && Rest(n.input) == s[k..]
    ensures Run(m) == Run(n)
  {
    hide Run, Step, QuotedLength, Rest;
    var d := QuoteStep(m);
    RestAhead(d.input, k);
    RestNoNul(d.input);
    ArgRun(d, s[..k]);
    n := Go(m, k + 1, AccumStr, m.acc.(argType := TypeStr, arg := s[..k]));
    assert d.acc.arg + s[..k] == s[..k];
  }

  lemma QuoteStep(m: Machine) returns (d: Machine)
    requires Collects(m) && Rest(m.input) != "" && Rest(m.input)[0] == '"'
    ensures d == Go(m, 1, AccumStr, m.acc.(argType := TypeStr))
    ensures Valid(d) && Rest(d.input) == Rest(m.input)[1..] && Run(m) == Run(d)
  {
    hide Run, Step;
    RestAhead(m.input, 1);
    assert Rest(m.input)[..1] == "\"";
    OpenQuoteEdge(m);
    d := Go(m, 1, AccumStr, m.acc.(argType := TypeStr));
  }

  lemma QuotedRead(m: Machine, n: Machine, text: string, rest: string)
    requires Collects(m) && Valid(n) && !n.finished && SameCall(m, n) && Rest(n.input) == rest
    requires n.state == EndAccumStr && n.acc.arg == text && n.acc.argType == TypeStr
    ensures HasLiteral(m, n, Literal(if text == "" then [] else [StrArg(text)], rest))
  {
    hide AcceptArg;
    if text == "" {
      EmptyAccepted(m, n);
    } else {
      StrAccepted(m, n);
    }
  }

  lemma StrAccepted(m: Machine, n: Machine)
    requires SameCall(m, n) && n.acc.arg != "" && n.acc.argType == TypeStr
    ensures forall i :: var k := n.(input := i);
                        AcceptArg(k) == k.(acc := k.acc.(arg := "", args := m.acc.args + [StrArg(n.acc.arg)]))
  {
  }

  lemma Unterminated(n: Machine)
    requires Valid(n) && !n.finished && n.state == AccumStr && Rest(n.input) == ""
    ensures !Run(n).ok
  {
    hide Run;
    RestFirst(n.input);
    var k := n.(state := EndAccumStr);
    Once(n, k);
    Stuck(k);
  }

  lemma BoolMeans(m: Machine, b: bool) returns (n: Machine)
    requires Collects(m) && Rest(m.input) != ""
    requires Rest(m.input)[0] in if b then {'t', 'T', 'y', 'Y'} else {'f', 'F', 'n', 'N'}
    ensures HasLiteral(m, n, Literal([BoolArg(b)], Rest(m.input)[1..])) && Run(m) == Run(n)
  {
    hide Run;
    RestFirst(m.input);
    n := Go(m, 1, AccumBool, m.acc.(argType := TypeBool, arg := m.acc.arg + if b then "t" else "f"));
    Once(m, n);
  }

  lemma LiteralMeans(m: Machine) returns (n: Machine)
    requires Collects(m) && Rest(m.input) != "" && Rest(m.input)[0] != ')'
    ensures match ReadLiteral(Rest(m.input), m.vars.known)
            case Some(l) => HasLiteral(m, n, l) && Run(m) == Run(n)
            case None => !Run(m).ok
  {
    hide Run, Step, HasLiteral, ReadVariable, ReadNumber, ReadQuoted;
    var c := Rest(m.input)[0];
    n := m;
    if c == '$' {
      n := VariableMeans(m);
    } else if c == '-' || IsDigit(c) {
      n := NumberMeans(m);
    } else if c == '"' {
      n := QuotedMeans(m);
    } else if c in {'t', 'T', 'y', 'Y'} {
      n := BoolMeans(m, true);
    } else if c in {'f', 'F', 'n', 'N'} {
      n := BoolMeans(m, false);
    } else {
      NoLiteral(m);
    }
  }

  lemma NoLiteral(m: Machine)
    requires AtArg(m) && Valid(m)
    requires Rest(m.input) == "" ||
             (Rest(m.input)[0] !in {'$', '-', '"', ')', 't', 'T', 'y', 'Y', 'f', 'F', 'n', 'N'} && !IsDigit(Rest(m.input)[0]))
    ensures !Run(m).ok
  {
    hide Run;
    RestFirst(m.input);
    Stuck(m);
  }

  // ---------------------------------------------------------------------
  // Argument lists
  // ---------------------------------------------------------------------

  /** Past the closing parenthesis, with these arguments accepted as part of the call. */
  ghost predicate HasCall(m: Machine, n: Machine, args: seq<Arg>, rest: string) {
    && Valid(n) && Rest(n.input) == rest
    && n == AcceptCall(m.(input := m.input.(pos := n.input.pos),
                          acc := m.acc.(args := m.acc.args + args, arg := "", argType := n.acc.argType)))
              .(state := AcceptFn)
  }

  // Accepting a call first accepts what is in the argument accumulator.
  lemma AcceptCallAfterArg(p: Machine, q: Machine)
    requires AcceptArg(p) == p.(acc := q.acc) && q == p.(acc := q.acc, state := q.state) && q.acc.arg == ""
    ensures AcceptCall(p).(state := AcceptFn) == AcceptCall(q).(state := AcceptFn)
    ensures AcceptCall(p).input == p.input && AcceptCall(p).acc.argType == q.acc.argType
  {
  }

  lemma CloseLiteral(m: Machine, k: Machine, l: Literal) returns (n: Machine)
    requires Collects(m) && HasLiteral(m, k, l) && l.rest != "" && l.rest[0] == ')'
    ensures HasCall(m, n, l.args, l.rest[1..]) && Run(k) == Run(n)
  {
    hide Run, AcceptArg, AcceptCall;
    RestFirst(k.input);
    var p := k.(input := Past(k.input, 1));
    var q := m.(input := p.input, acc := p.acc.(arg := "", args := m.acc.args + l.args));
    assert AcceptArg(p) == p.(acc := q.acc);
    AcceptCallAfterArg(p, q);
    n := AcceptCall(p).(state := AcceptFn);
    Once(k, n);
  }

  lemma SpaceLiteral(m: Machine, k: Machine, l: Literal) returns (n: Machine)
    requires Collects(m) && HasLiteral(m, k, l) && l.rest != "" && l.rest[0] == ' '
    ensures Collects(n) && Rest(n.input) == l.rest[1..] && Run(k) == Run(n)
    ensures n == m.(input := m.input.(pos := n.input.pos), acc := n.acc)
    ensures n.acc.name == m.acc.name && n.acc.plain == m.acc.plain && n.acc.args == m.acc.args + l.args
  {
    hide Run, AcceptArg;
    RestFirst(k.input);
    var p := k.(input := Past(k.input, 1));
    assert AcceptArg(p) == p.(acc := p.acc.(arg := "", args := m.acc.args + l.args));
    n := AcceptArg(p).(state := BeginAccumArg);
    Once(k, n);
  }

  lemma OtherLiteral(m: Machine, k: Machine, l: Literal)
    requires HasLiteral(m, k, l) && (l.rest == "" || l.rest[0] !in {' ', ')'})
    ensures !Run(k).ok
  {
    hide Run, AcceptArg;
    RestFirst(k.input);
    Stuck(k);
  }

  lemma CloseAtOnce(m: Machine) returns (n: Machine)
    requires Collects(m) && Rest(m.input) != "" && Rest(m.input)[0] == ')'
    ensures HasCall(m, n, [], Rest(m.input)[1..]) && Run(m) == Run(n)
  {
    hide Run, AcceptCall;
    RestFirst(m.input);
    var p := m.(input := Past(m.input, 1));
    assert m.acc.args + [] == m.acc.args;
    assert AcceptArg(p) == p.(acc := p.acc);
    AcceptCallAfterArg(p, p);
    n := AcceptCall(p).(state := AcceptFn);
    Once(m, n);
  }

  /** From the opening parenthesis on, the machine reads an argument list as the language has it. */
  lemma {:induction false} ArgListMeans(m: Machine) returns (n: Machine)
    requires Collects(m)
    ensures match ReadArgList(Rest(m.input), m.vars.known)
            case Some(l) => HasCall(m, n, l.args, l.rest) && Run(m) == Run(n)
            case None => !Run(m).ok
    decreases |Rest(m.input)|
  {
    hide Run, Step, ReadLiteral, AcceptArg, AcceptCall;
    var s := Rest(m.input);
    n := m;
    if s == "" {
      NoLiteral(m);
    } else if s[0] == ')' {
      n := CloseAtOnce(m);
    } else {
      n := LiteralMeans(m);
      var r := ReadLiteral(s, m.vars.known);
      if r.Some? {
        var l := r.value;
        if l.rest != "" && l.rest[0] == ')' {
          n := CloseLiteral(m, n, l);
        } else if l.rest != "" && l.rest[0] == ' ' {
          n := MoreArgs(m, n, l);
        } else {
          OtherLiteral(m, n, l);
        }
      }
    }
  }

  lemma {:induction false} MoreArgs(m: Machine, k: Machine, l: Literal) returns (n: Machine)
    requires Collects(m) && HasLiteral(m, k, l) && l.rest != "" && l.rest[0] == ' ' && |l.rest| < |Rest(m.input)|
    ensures match ReadArgList(l.rest[1..], m.vars.known)
            case Some(more) => HasCall(m, n, l.args + more.args, more.rest) && Run(k) == Run(n)
            case None => !Run(k).ok
    decreases |l.rest|
  {
    hide Run, Step, ReadArgList, AcceptArg, AcceptCall;
    var p := SpaceLiteral(m, k, l);
    n := ArgListMeans(p);
    var r := ReadArgList(l.rest[1..], m.vars.known);
    if r.Some? {
      assert m.acc.args + l.args + r.value.args == m.acc.args + (l.args + r.value.args);
    }
  }

  // ---------------------------------------------------------------------
  // Calls
  // ---------------------------------------------------------------------

  /** Ready for a call: at the start, or after an inverter. */
  ghost predicate AtCall(m: Machine, plain: bool) {
    && Valid(m) && !m.finished && m.acc == ClearAccum(m.acc.argType).(plain := plain)
    && m.state == if plain then Start else InvertFn
  }

  /** The whole call has been accepted. */
  ghost predicate CallRead(m: Machine, n: Machine, f: Fn, rest: string) {
    && Valid(n) && Rest(n.input) == rest
    && n == AcceptCall(m.(input := m.input.(pos := n.input.pos),
                          acc := Accum(f.name, "", n.acc.argType, f.args, f.plain)))
              .(state := AcceptFn)
  }

  lemma NamedMeans(m: Machine, plain: bool) returns (n: Machine)
    requires AtCall(m, plain)
    requires plain ==> Rest(m.input) != "" && Rest(m.input)[0] !in {'!', ' ', '\n'}
    ensures match ReadNamed(Rest(m.input), m.vars.known, plain)
            case Some(c) => CallRead(m, n, c.fn, c.rest) && Run(m) == Run(n)
            case None => !Run(m).ok
  {
    hide Run, Step, ReadArgList, AcceptCall, NameLength;
    var s := Rest(m.input);
    var k := NameLength(s);
    n := m;
    if k == 0 {
      NoName(m);
    } else {
      n := NameMeans(m, s, k);
      if k == |s| || s[k] != '(' {
        NoParenthesis(n);
      } else {
        n := ParenMeans(n);
        n := ArgListMeans(n);
        var r := ReadArgList(s[k + 1..], m.vars.known);
        if r.Some? {
          assert [] + r.value.args == r.value.args;
          StateIsReplaced(m, n, BeginAccumArg, Fn(s[..k], r.value.args, plain));
        }
      }
    }
  }

  // The state in which a call is accepted does not matter.
  lemma StateIsReplaced(m: Machine, n: Machine, state: FsmState, f: Fn)
    ensures var acc, input := Accum(f.name, "", n.acc.argType, f.args, f.plain), m.input.(pos := n.input.pos);
            AcceptCall(m.(input := input, acc := acc, state := state)).(state := AcceptFn) ==
            AcceptCall(m.(input := input, acc := acc)).(state := AcceptFn)
  {
  }

  lemma NameMeans(m: Machine, s: string, k: nat) returns (n: Machine)
    requires Valid(m) && !m.finished && m.state in {Start, InvertFn} && m.acc.name == ""
    requires s == Rest(m.input) && k == NameLength(s) > 0
    ensures n == Go(m, k, AccumName, m.acc.(name := s[..k])) && Valid(n) && Rest(n.input) == s[k..] && Run(m) == Run(n)
  {
    hide Run, Step, NameLength;
    RestAhead(m.input, k);
    NameRun(m, s[..k]);
    n := Go(m, k, AccumName, m.acc.(name := s[..k]));
    assert "" + s[..k] == s[..k];
  }

  lemma ParenMeans(m: Machine) returns (n: Machine)
    requires Valid(m) && !m.finished && m.state == AccumName && Rest(m.input) != "" && Rest(m.input)[0] == '('
    ensures n == Go(m, 1, BeginAccumArg, m.acc) && Valid(n) && Rest(n.input) == Rest(m.input)[1..] && Run(m) == Run(n)
  {
    hide Run, Step;
    RestAhead(m.input, 1);
    assert Rest(m.input)[..1] == "(";
    ParenEdge(m);
    n := Go(m, 1, BeginAccumArg, m.acc);
  }

  lemma NoName(m: Machine)
    requires Valid(m) && !m.finished && (Rest(m.input) == "" || !IsAlphanumeric_(Rest(m.input)[0]))
    requires m.state == InvertFn ||
             (m.state == Start && Rest(m.input) != "" && Rest(m.input)[0] !in {'!', ' ', '\n'})
    ensures !Run(m).ok
  {
    hide Run;
    RestFirst(m.input);
    Stuck(m);
  }

  lemma NoParenthesis(m: Machine)
    requires Valid(m) && !m.finished && m.state == AccumName
    requires Rest(m.input) == "" || (!IsAlphanumeric_(Rest(m.input)[0]) && Rest(m.input)[0] != '(')
    ensures !Run(m).ok
  {
    hide Run;
    RestFirst(m.input);
    Stuck(m);
  }

  lemma InvertEdge(m: Machine) returns (n: Machine)
    requires AtCall(m, true) && Rest(m.input) != "" && Rest(m.input)[0] == '!'
    ensures AtCall(n, false) && Rest(n.input) == Rest(m.input)[1..] && Run(m) == Run(n)
    ensures n == m.(input := m.input.(pos := n.input.pos), state := InvertFn, acc := n.acc)
  {
    hide Run;
    RestFirst(m.input);
    n := Go(m, 1, InvertFn, m.acc.(plain := false));
    Once(m, n);
  }

  lemma CallMeans(m: Machine) returns (n: Machine)
    requires AtCall(m, true) && Rest(m.input) != "" && Rest(m.input)[0] !in {' ', '\n'}
    ensures match ReadOneCall(Rest(m.input), m.vars.known)
            case Some(c) => CallRead(m, n, c.fn, c.rest) && Run(m) == Run(n)
            case None => !Run(m).ok
  {
    hide Run, Step, ReadNamed, AcceptCall;
    if Rest(m.input)[0] == '!' {
      var p := InvertEdge(m);
      n := NamedMeans(p, false);
      var r := ReadNamed(Rest(p.input), m.vars.known, false);
      if r.Some? {
        StateIsReplaced(m, n, InvertFn, r.value.fn);
      }
    } else {
      n := NamedMeans(m, true);
    }
  }

  // ---------------------------------------------------------------------
  // Lines
  // ---------------------------------------------------------------------

  function AddFns(l: Lists, t: Target, fs: seq<Fn>): Lists
    decreases |fs|
  {
    if fs == [] then l else AddFns(AddFn(l, t, fs[0].name, fs[0].args, fs[0].plain), t, fs[1..])
  }

  /** At the end of a line, with the calls of the line in their list. */
  ghost predicate LineRead(m: Machine, n: Machine, fs: seq<Fn>) {
    && AtLineEnd(n)
    && n == m.(input := m.input.(pos := n.input.pos), state := n.state, acc := n.acc,
               lists := AddFns(m.lists, m.target, fs))
  }

  ghost predicate AtLineEnd(m: Machine) {
    Valid(m) && m.state in {Start, AcceptFn} && Clear(m) && LineEnds(Rest(m.input))
  }

  // In a line of calls an accepted call joins its list and the accumulators are clear.
  lemma Collected(m: Machine, n: Machine, f: Fn, rest: string)
    requires AtCall(m, true) && Collecting(m.target) && f.name != "" && CallRead(m, n, f, rest)
    ensures n == m.(input := m.input.(pos := n.input.pos), state := AcceptFn, acc := n.acc,
                    lists := AddFn(m.lists, m.target, f.name, f.args, f.plain))
    ensures Clear(n)
  {
    hide AddFn;
  }

  lemma BlankStays(m: Machine) returns (n: Machine)
    requires AtCall(m, true) && Rest(m.input) != "" && Rest(m.input)[0] == ' '
    ensures AtCall(n, true) && Rest(n.input) == Rest(m.input)[1..] && Run(m) == Run(n)
    ensures n == m.(input := m.input.(pos := n.input.pos))
  {
    hide Run;
    RestFirst(m.input);
    n := m.(input := Past(m.input, 1));
    Once(m, n);
  }

  lemma NextCallEdge(m: Machine) returns (n: Machine)
    requires Valid(m) && m.state == AcceptFn && Clear(m)
    requires Rest(m.input) != "" && Rest(m.input)[0] == ' '
    ensures AtCall(n, true) && Rest(n.input) == Rest(m.input)[1..] && Run(m) == Run(n)
    ensures n == m.(input := m.input.(pos := n.input.pos), state := Start)
  {
    hide Run;
    RestFirst(m.input);
    n := Go(m, 1, Start, m.acc);
    Once(m, n);
  }

  lemma AfterCallStuck(m: Machine)
    requires Valid(m) && !m.finished && m.state == AcceptFn
    requires Rest(m.input) != "" && Rest(m.input)[0] !in {' ', '\n'}
    ensures !Run(m).ok
  {
    hide Run;
    RestFirst(m.input);
    Stuck(m);
  }

  /** The machine reads a line as the language has it. */
  lemma {:induction false} LineMeans(m: Machine) returns (n: Machine)
    requires AtCall(m, true) && Collecting(m.target)
    ensures match ReadLine(Rest(m.input), m.vars.known)
            case Some(fs) => LineRead(m, n, fs) && Run(m) == Run(n)
            case None => !Run(m).ok
    decreases |Rest(m.input)|
  {
    hide Run, Step, ReadOneCall, AddFn, AcceptCall;
    var s := Rest(m.input);
    n := m;
    if LineEnds(s) {
      assert AddFns(m.lists, m.target, []) == m.lists;
    } else if s[0] == ' ' {
      var p := BlankStays(m);
      n := LineMeans(p);
    } else {
      n := CallMeans(m);
      var r := ReadOneCall(s, m.vars.known);
      if r.Some? {
        var c := r.value;
        CallNamed(s, m.vars.known);
        Collected(m, n, c.fn, c.rest);
        AddOne(m.lists, m.target, c.fn);
        if !LineEnds(c.rest) {
          if c.rest[0] == ' ' {
            n := MoreCalls(m, n, c);
          } else {
            AfterCallStuck(n);
          }
        }
      }
    }
  }

  lemma CallNamed(s: string, known: map<string, char>)
    requires ReadOneCall(s, known).Some?
    ensures IsIdentifier(ReadOneCall(s, known).value.fn.name)
  {
    hide ReadArgList;
  }

  lemma AddOne(l: Lists, t: Target, f: Fn)
    ensures AddFns(l, t, [f]) == AddFn(l, t, f.name, f.args, f.plain)
  {
    hide AddFn;
    assert [f][1..] == [];
  }

  lemma {:induction false} MoreCalls(m: Machine, k: Machine, c: OneCall) returns (n: Machine)
    requires AtCall(m, true) && Collecting(m.target) && CallRead(m, k, c.fn, c.rest) && c.fn.name != ""
    requires c.rest != "" && c.rest[0] == ' ' && |c.rest| < |Rest(m.input)|
    ensures match ReadLine(c.rest[1..], m.vars.known)
            case Some(more) => LineRead(m, n, [c.fn] + more) && Run(k) == Run(n)
            case None => !Run(k).ok
    decreases |c.rest|
  {
    hide Run, Step, ReadLine, AddFn, AcceptCall;
    Collected(m, k, c.fn, c.rest);
    var p := NextCallEdge(k);
    n := LineMeans(p);
    var r := ReadLine(c.rest[1..], m.vars.known);
    if r.Some? {
      assert ([c.fn] + r.value)[1..] == r.value;
    }
  }

  // ---------------------------------------------------------------------
  // Whole texts
  // ---------------------------------------------------------------------

  lemma LineEndEdge(m: Machine)
    requires AtLineEnd(m)
    ensures Step(m) == Some(AcceptCalls(m.(input := Moved(m.input))).(state := AcceptRule))
  {
    hide AcceptCalls;
    RestFirst(m.input);
  }

  lemma NextLine(m: Machine)
    requires AtLineEnd(m) && m.target in {ForConditions, ForActions}
    ensures Valid(NextString(m)) && Run(m) == Run(NextString(m))
  {
    hide Run, Step;
    var n := AcceptCalls(m.(input := Moved(m.input))).(state := AcceptRule);
    LineEndEdge(m);
    Once(m, n);
    Restart(n);
    assert n.(state := Start) == NextString(m);
  }

  lemma LastLine(m: Machine)
    requires AtLineEnd(m) && m.target in {ForUndos, ForArg, ForVarMap}
    ensures Run(m).ok == (m.error == NoError) && Run(m).m.lists == m.lists && Run(m).m.vars == m.vars
  {
    hide Step;
    var n := AcceptCalls(m.(input := Moved(m.input))).(state := AcceptRule);
    LineEndEdge(m);
    Once(m, n);
  }

  lemma {:induction false} ConditionsAdded(l: Lists, fs: seq<Fn>)
    ensures AddFns(l, ForConditions, fs) == l.(conditions := l.conditions + fs)
    decreases |fs|
  {
    if fs == [] {
      assert l.conditions + fs == l.conditions;
    } else {
      var f := fs[0];
      ConditionsAdded(l.(conditions := l.conditions + [f]), fs[1..]);
      assert fs == [f] + fs[1..];
      assert l.conditions + [f] + fs[1..] == l.conditions + fs;
    }
  }

  lemma {:induction false} ActionsAdded(l: Lists, fs: seq<Fn>)
    ensures AddFns(l, ForActions, fs) == l.(actions := l.actions + fs)
    decreases |fs|
  {
    if fs == [] {
      assert l.actions + fs == l.actions;
    } else {
      var f := fs[0];
      ActionsAdded(l.(actions := l.actions + [f]), fs[1..]);
      assert fs == [f] + fs[1..];
      assert l.actions + [f] + fs[1..] == l.actions + fs;
    }
  }

  lemma {:induction false} UndosAdded(l: Lists, fs: seq<Fn>)
    ensures AddFns(l, ForUndos, fs) == l.(undos := l.undos + Unmarked(fs))
    decreases |fs|
  {
    if fs == [] {
      assert l.undos + Unmarked(fs) == l.undos;
    } else {
      var f := fs[0];
      UndosAdded(l.(undos := l.undos + [f.(plain := false)]), fs[1..]);
      assert Unmarked(fs) == [f.(plain := false)] + Unmarked(fs[1..]);
      assert l.undos + [f.(plain := false)] + Unmarked(fs[1..]) == l.undos + Unmarked(fs);
    }
  }

  lemma {:induction false} LastCallAdded(l: Lists, fs: seq<Fn>)
    ensures AddFns(l, ForArg, fs) == if fs == [] then l else l.(parsed := Some(fs[|fs| - 1].(plain := false)))
    decreases |fs|
  {
    if fs != [] {
      LastCallAdded(l.(parsed := Some(fs[0].(plain := false))), fs[1..]);
    }
  }

  lemma ThreeLines(t: RuleText, known: map<string, char>, m: Machine)
    requires IsCString(t.conditions) && IsCString(t.actions) && IsCString(t.undos)
    requires m == Fresh(t.conditions, t.actions, t.undos, ForConditions, known)
    ensures var c, a, u := ReadLine(t.conditions, known), ReadLine(t.actions, known), ReadLine(t.undos, known);
            && (Run(m).ok <==> c.Some? && a.Some? && u.Some?)
            && (Run(m).ok ==>
                  Run(m).m.lists ==
                  AddFns(AddFns(AddFns(m.lists, ForConditions, c.value), ForActions, a.value), ForUndos, u.value))
  {
    hide Run, Step, ReadLine, AddFns;
    assert Rest(m.input) == t.conditions;
    var c := LineMeans(m);
    if ReadLine(t.conditions, known).Some? {
      NextLine(c);
      var n := NextString(c);
      assert Rest(n.input) == t.actions;
      var a := LineMeans(n);
      if ReadLine(t.actions, known).Some? {
        NextLine(a);
        var o := NextString(a);
        assert Rest(o.input) == t.undos;
        var u := LineMeans(o);
        if ReadLine(t.undos, known).Some? {
          LastLine(u);
        }
      }
    }
  }

  /** On every text of a rule, the state machine and the language agree. */
  lemma ParserReadsLanguage(t: RuleText, known: map<string, char>)
    requires IsCString(t.conditions) && IsCString(t.actions) && IsCString(t.undos)
    ensures ParseRule(t, known) == ReadRule(t, known)
  {
    hide Run, ReadLine, AddFns;
    var m := Fresh(t.conditions, t.actions, t.undos, ForConditions, known);
    ThreeLines(t, known, m);
    var c, a, u := ReadLine(t.conditions, known), ReadLine(t.actions, known), ReadLine(t.undos, known);
    if c.Some? && a.Some? && u.Some? {
      var l := AddFns(m.lists, ForConditions, c.value);
      ConditionsAdded(m.lists, c.value);
      ActionsAdded(l, a.value);
      UndosAdded(AddFns(l, ForActions, a.value), u.value);
      assert forall fs: seq<Fn> :: [] + fs == fs;
    }
  }

  /** parse_arg gives the first argument of the last call on the line. */
  lemma ArgReadsLanguage(text: string, known: map<string, char>)
    requires IsCString(text)
    ensures ParseArg(text, known) ==
            match ReadLine(text, known)
            case None => Refused
            case Some(fs) => if fs == [] || fs[|fs| - 1].args == [] then NullList else Value(fs[|fs| - 1].args[0])
  {
    hide Run, Step, ReadLine, AddFns;
    var m := Fresh(text, "", "", ForArg, known);
    assert Rest(m.input) == text;
    var n := LineMeans(m);
    if ReadLine(text, known).Some? {
      var fs := ReadLine(text, known).value;
      LastLine(n);
      LastCallAdded(m.lists, fs);
    }
  }

  // ---------------------------------------------------------------------
  // Variable definitions
  // ---------------------------------------------------------------------

  /** The letter by which the known variables of a kind are marked. */
  function KindLetter(v: Arg): char {
    if v.IntArg? then 'i' else if v.BoolArg? then 'b' else if v.StrArg? then 's' else if v.FloatArg? then 'f' else 'v'
  }

  /** A definition is refused if this text has made it already or if the variable has another type. */
  predicate Refuses(v: Vars, name: string, value: Arg) {
    VarDef(name, value).name in (set d | d in v.defined :: d.name)
    || (name in v.known && v.known[name] != KindLetter(value))
  }

  datatype Definitions = Definitions(vars: Vars, ok: bool)

  /**
    A line of definitions, each a call with one literal argument.  A refused definition
    is passed over, and the verdict is that of the last definition.
   */
  function ReadDefinitions(s: string, v: Vars, ok: bool): Option<Definitions>
    decreases |s|
  {
    if LineEnds(s) then Some(Definitions(v, ok))
    else if s[0] == ' ' then ReadDefinitions(s[1..], v, ok)
    else
      match ReadOneCall(s, v.known)
      case None => None
      case Some(c) =>
        if |c.fn.args| != 1 || c.fn.args[0].VarArg? then None else
        var a := c.fn.args[0];
        var refused := Refuses(v, c.fn.name, a);
        var w := if refused then v
                 else Vars(v.known[c.fn.name := KindLetter(a)], v.defined + [VarDef(c.fn.name, a)]);
        if LineEnds(c.rest) then Some(Definitions(w, !refused))
        else if c.rest[0] == ' ' then ReadDefinitions(c.rest[1..], w, !refused)
        else None
  }

  lemma RefusesIff(m: Machine, name: string, value: Arg)
    ensures DefineVar(m, name, value) ==
            if Refuses(m.vars, name, value) then m.(error := VarRejected)
            else m.(error := NoError,
                    vars := Vars(m.vars.known[name := KindLetter(value)], m.vars.defined + [VarDef(name, value)]))
  {
    var v := m.vars;
    assert TypeLetter(value) == KindLetter(value);
    assert name in (set d | d in v.defined :: d.name) <==> exists i :: 0 <= i < |v.defined| && v.defined[i].name == name;
  }

  /** What accepting a definition makes of the machine, if its argument is one literal. */
  lemma DefinitionRead(m: Machine, n: Machine, f: Fn, rest: string)
    requires AtCall(m, true) && m.target == ForVarMap && f.name != "" && CallRead(m, n, f, rest)
    requires |f.args| == 1 && !f.args[0].VarArg?
    ensures var refused := Refuses(m.vars, f.name, f.args[0]);
            && Clear(n)
            && n == m.(input := m.input.(pos := n.input.pos), state := AcceptFn, acc := n.acc,
                       error := if refused then VarRejected else NoError,
                       vars := if refused then m.vars
                               else Vars(m.vars.known[f.name := KindLetter(f.args[0])],
                                         m.vars.defined + [VarDef(f.name, f.args[0])]))
  {
    hide Refuses, KindLetter, DefineVar;
    var k := m.(input := m.input.(pos := n.input.pos), acc := Accum(f.name, "", n.acc.argType, f.args, f.plain));
    RefusesIff(k, f.name, f.args[0]);
  }

  lemma DefinitionFails(m: Machine, n: Machine, f: Fn, rest: string)
    requires AtCall(m, true) && m.target == ForVarMap && f.name != "" && CallRead(m, n, f, rest)
    requires |f.args| != 1 || f.args[0].VarArg?
    ensures !Run(n).ok
  {
    hide Run, Step, DefineVar;
    Failed(n);
  }

  ghost predicate DefinitionsRead(m: Machine, n: Machine, d: Definitions) {
    && AtLineEnd(n)
    && n == m.(input := m.input.(pos := n.input.pos), state := n.state, acc := n.acc, vars := d.vars, error := n.error)
    && (n.error == NoError <==> d.ok)
  }

  /** The machine reads a line of definitions as the language has it. */
  lemma {:induction false} DefinitionsMean(m: Machine) returns (n: Machine)
    requires AtCall(m, true) && m.target == ForVarMap
    ensures match ReadDefinitions(Rest(m.input), m.vars, m.error == NoError)
            case Some(d) => DefinitionsRead(m, n, d) && Run(m) == Run(n)
            case None => !Run(m).ok
    decreases |Rest(m.input)|
  {
    hide Run, Step, ReadOneCall, AcceptCall, Refuses, KindLetter;
    var s := Rest(m.input);
    n := m;
    if LineEnds(s) {
    } else if s[0] == ' ' {
      var p := BlankStays(m);
      n := DefinitionsMean(p);
    } else {
      n := CallMeans(m);
      var r := ReadOneCall(s, m.vars.known);
      if r.Some? {
        n := AfterDefinition(m, n, r.value);
      }
    }
  }

  lemma {:induction false} AfterDefinition(m: Machine, k: Machine, c: OneCall) returns (n: Machine)
    requires AtCall(m, true) && m.target == ForVarMap && CallRead(m, k, c.fn, c.rest) && Run(m) == Run(k)
    requires var s := Rest(m.input);
             !LineEnds(s) && s[0] != ' ' && ReadOneCall(s, m.vars.known) == Some(c) && |c.rest| < |s|
    ensures match ReadDefinitions(Rest(m.input), m.vars, m.error == NoError)
            case Some(d) => DefinitionsRead(m, n, d) && Run(m) == Run(n)
            case None => !Run(m).ok
    decreases |c.rest|
  {
    hide Run, Step, ReadOneCall, AcceptCall, Refuses, KindLetter;
    n := k;
    assert c.fn.name != "" by { CallNamed(Rest(m.input), m.vars.known); }
    if |c.fn.args| != 1 || c.fn.args[0].VarArg? {
      DefinitionFails(m, k, c.fn, c.rest);
    } else {
      DefinitionRead(m, k, c.fn, c.rest);
      if !LineEnds(c.rest) {
        if c.rest[0] == ' ' {
          var p := NextCallEdge(k);
          n := DefinitionsMean(p);
        } else {
          AfterCallStuck(k);
        }
      }
    }
  }

  /** On every text of variable definitions, the state machine and the language agree. */
  lemma DefinitionsReadLanguage(text: string, known: map<string, char>)
    requires IsCString(text)
    ensures var r := Run(Fresh(text, "", "", ForVarMap, known));
            match ReadDefinitions(text, Vars(known, []), true)
            case Some(d) => r.ok == d.ok && r.m.vars == d.vars
            case None => !r.ok
  {
    hide Run, Step, ReadDefinitions;
    var m := Fresh(text, "", "", ForVarMap, known);
    assert Rest(m.input) == text;
    var n := DefinitionsMean(m);
    if ReadDefinitions(text, Vars(known, []), true).Some? {
      LastLine(n);
    }
  }

  // ---------------------------------------------------------------------
  // Characters and numbers
  // ---------------------------------------------------------------------

  /** Names are made of letters, digits and underscores, by their ASCII codes. */
  lemma NameCharacters(c: char)
    ensures IsDigit(c) <==> 48 <= c as int <= 57
    ensures IsAlphanumeric_(c) <==>
            48 <= c as int <= 57 || 65 <= c as int <= 90 || 97 <= c as int <= 122 || c as int == 95
  {
  }

  /** An integer literal out of range wraps around. */
  lemma IntegerWraps(v: int)
    ensures IsInt32(ToInt32(v)) && (ToInt32(v) - v) % 0x1_0000_0000 == 0
  {
  }
}
