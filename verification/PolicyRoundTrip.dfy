/**
  The parser inverts the printers: whatever a rule or a variable prints as, the state
  machine reads back (xcpmd/src/parser.c, xcpmd/src/db-helper.c, xcpmd/src/rules.c).
 */
module PolicyRoundTrip {
  import opened Options
  import opened PolicyTypes
  import opened PolicyParser
  import opened PolicyPrinter

  // ---------------------------------------------------------------------
  // Integers
  // ---------------------------------------------------------------------

  ghost predicate AllDigits(s: string) {
    s != "" && forall i :: 0 <= i < |s| ==> IsDigit(s[i])
  }

  lemma {:induction false} DecimalInverts(n: nat)
    ensures AllDigits(Decimal(n)) && ParseNat(Decimal(n)) == n
  {
    var d := Decimal(n);
    if n < 10 {
      assert d[..0] == "" && ParseNat("") == 0;
    } else {
      DecimalInverts(n / 10);
      assert d[..|d| - 1] == Decimal(n / 10);
    }
  }

  lemma IntInverts(i: int)
    ensures ParseInt(IntText(i)) == i && IntText(i) != ""
    ensures forall k :: 1 <= k < |IntText(i)| ==> IsDigit(IntText(i)[k])
    ensures IsDigit(IntText(i)[0]) || IntText(i)[0] == '-'
  {
    DecimalInverts(if i < 0 then -i else i);
    if i < 0 {
      assert IntText(i)[1..] == Decimal(-i);
    }
  }

  // ---------------------------------------------------------------------
  // Floats
  // ---------------------------------------------------------------------

  lemma {:induction false} ParseNatAppend(a: string, b: string)
    ensures ParseNat(a + b) == ParseNat(a) * Pow10(|b|) + ParseNat(b)
  {
    if b == "" {
      assert a + b == a;
    } else {
      var last := |b| - 1;
      assert (a + b)[..|a + b| - 1] == a + b[..last];
      ParseNatAppend(a, b[..last]);
      assert ParseNat(a) * Pow10(|b|) == 10 * (ParseNat(a) * Pow10(last));
    }
  }

  lemma {:induction false} PaddedInverts(n: nat, w: nat)
    requires n < Pow10(w)
    ensures ParseNat(Padded(n, w)) == n
    ensures forall i :: 0 <= i < w ==> IsDigit(Padded(n, w)[i])
  {
    if w > 0 {
      PaddedInverts(n / 10, w - 1);
      assert Padded(n, w)[..w - 1] == Padded(n / 10, w - 1);
    }
  }

  lemma {:induction false} PointAfter(a: string, b: string)
    requires forall i :: 0 <= i < |a| ==> a[i] != '.'
    ensures Point(a + "." + b) == |a|
  {
    if a != "" {
      assert (a + "." + b)[1..] == a[1..] + "." + b;
      PointAfter(a[1..], b);
    }
  }

  lemma PartsInvert(n: nat)
    ensures AllDigits(Whole(n)) && AllDigits(Fraction(n)) && |Fraction(n)| == 6
    ensures ParseNat(Whole(n)) == n / 1000000 && ParseNat(Fraction(n)) == n % 1000000
  {
    assert Pow10(6) == 1000000;
    DecimalInverts(n / 1000000);
    PaddedInverts(n % 1000000, 6);
  }

  lemma DecimalDigits(a: string, b: string)
    requires forall i :: 0 <= i < |a| ==> a[i] != '.'
    ensures ParseDecimal(a + "." + b) == ParseNat(a + b) as real / Pow10(|b|) as real
  {
    hide ParseNat, Pow10;
    var s := a + "." + b;
    PointAfter(a, b);
    assert s[..|a|] == a && s[|a| + 1..] == b;
  }

  /** A literal with any number of decimals denotes its digits divided by that power of ten. */
  lemma DecimalValue(a: string, b: string)
    requires forall i :: 0 <= i < |a| ==> a[i] != '.'
    ensures ParseDecimal(a + "." + b) == (ParseNat(a) * Pow10(|b|) + ParseNat(b)) as real / Pow10(|b|) as real
  {
    hide ParseNat, Pow10, ParseDecimal;
    DecimalDigits(a, b);
    ParseNatAppend(a, b);
  }

  /** The same of printed digits: `whole` and the w digits of `fraction`, with or without a sign. */
  lemma FloatLiteral(whole: nat, fraction: nat, w: nat, negative: bool)
    requires fraction < Pow10(w)
    ensures var digits := Decimal(whole) + "." + Padded(fraction, w);
            var value := (whole * Pow10(w) + fraction) as real / Pow10(w) as real;
            ParseFloat(if negative then "-" + digits else digits) == if negative then -value else value
  {
    hide ParseDecimal, ParseNat, Pow10;
    var a, b := Decimal(whole), Padded(fraction, w);
    DecimalInverts(whole);
    PaddedInverts(fraction, w);
    DecimalValue(a, b);
    assert (a + "." + b)[0] == a[0];
    assert ("-" + (a + "." + b))[1..] == a + "." + b;
  }

  /** Digits are read in base ten. */
  lemma LiteralsRead()
    ensures ParseInt("120") == 120 && ParseInt("-9") == -9 && ParseInt("007") == 7
    ensures ParseFloat("0.5") == 0.5 && ParseFloat("-12.25") == -12.25 && ParseFloat("3.") == 3.0
  {
    hide ParseNat, ParseFloat;
    assert ParseNat("120") == 120 && ParseNat("9") == 9 && ParseNat("007") == 7 by { ShortNats(); }
    assert "-9"[1..] == "9";
    ShortFloats();
  }

  lemma ShortNats()
    ensures ParseNat("120") == 120 && ParseNat("9") == 9 && ParseNat("007") == 7
  {
    assert "120"[..2] == "12" && "12"[..1] == "1" && "1"[..0] == "" && "9"[..0] == "";
    assert "007"[..2] == "00" && "00"[..1] == "0" && "0"[..0] == "";
  }

  lemma ShortFloats()
    ensures ParseFloat("0.5") == 0.5 && ParseFloat("-12.25") == -12.25 && ParseFloat("3.") == 3.0
  {
    hide ParseFloat;
    assert Pow10(0) == 1 && Pow10(1) == 10 && Pow10(2) == 100;
    SmallDecimals();
    FloatLiteral(0, 5, 1, false);
    FloatLiteral(12, 25, 2, true);
    FloatLiteral(3, 0, 0, false);
    assert "0" + "." + "5" == "0.5" && "-" + ("12" + "." + "25") == "-12.25" && "3" + "." + "" == "3.";
  }

  lemma SmallDecimals()
    ensures Decimal(0) == "0" && Decimal(12) == "12" && Decimal(3) == "3"
    ensures Padded(5, 1) == "5" && Padded(25, 2) == "25" && Padded(0, 0) == ""
  {
    assert Decimal(1) == "1" && Padded(2, 1) == "2";
    assert Padded(0, 0) == "" && Padded(2, 1) == Padded(0, 0) + "2";
  }

  lemma MicrosDecimals(n: nat)
    ensures ParseDecimal(Whole(n) + "." + Fraction(n)) == FromMicros(n)
  {
    hide ParseDecimal, Whole, Fraction;
    assert Pow10(6) == 1000000;
    PartsInvert(n);
    DecimalValue(Whole(n), Fraction(n));
  }

  /** A printed float reads back as the number of millionths it shows. */
  lemma FloatInverts(k: int)
    ensures ParseFloat(MicrosText(k)) == FromMicros(k)
  {
    hide Whole, Fraction, ParseDecimal;
    var n := if k < 0 then -k else k;
    PartsInvert(n);
    assert Pow10(6) == 1000000;
    MicrosDecimals(n);
    if k < 0 {
      assert MicrosText(k)[1..] == Whole(n) + "." + Fraction(n);
    } else {
      assert MicrosText(k)[0] == Whole(n)[0];
    }
  }

  // ---------------------------------------------------------------------
  // Running over known text
  // ---------------------------------------------------------------------

  /** The next characters are `text`. */
  ghost predicate Ahead(i: Input, text: string) {
    && ValidInput(i)
    && i.pos + |text| <= |i.str| && i.str[i.pos..i.pos + |text|] == text
  }

  function Past(i: Input, n: nat): Input {
    i.(pos := i.pos + n)
  }

  lemma AheadSplit(i: Input, a: string, b: string)
    requires Ahead(i, a + b)
    ensures Ahead(i, a) && Ahead(Past(i, |a|), b)
  {
    var text := i.str[i.pos..i.pos + |a + b|];
    assert text[..|a|] == a && text[|a|..] == b;
    assert i.str[i.pos..i.pos + |a|] == text[..|a|];
    assert i.str[i.pos + |a|..i.pos + |a| + |b|] == text[|a|..];
  }

  lemma AheadFirst(i: Input, text: string)
    requires Ahead(i, text) && text != ""
    ensures Current(i) == text[0] && Moved(i) == Past(i, 1) && Ahead(Past(i, 1), text[1..])
  {
    assert text == [text[0]] + text[1..];
    AheadSplit(i, [text[0]], text[1..]);
    assert i.str[i.pos..i.pos + 1][0] == text[0];
  }

  /** The machine n characters on, in another state and with another accumulator. */
  function Go(m: Machine, n: nat, state: FsmState, acc: Accum): Machine {
    m.(input := Past(m.input, n), state := state, acc := acc)
  }

  lemma Once(m: Machine, n: Machine)
    requires Valid(m) && !m.finished && m.state != AcceptRule && Step(m) == Some(n)
    ensures Valid(n) && Run(m) == Run(n)
  {
    StepProgress(m);
  }

  lemma {:induction false} NameRun(m: Machine, text: string)
    requires m.state in {Start, InvertFn, AccumName} && !m.finished
    requires IsIdentifier(text) && Ahead(m.input, text)
    ensures Run(m) == Run(Go(m, |text|, AccumName, m.acc.(name := m.acc.name + text)))
    decreases |text|
  {
    hide Run;
    AheadFirst(m.input, text);
    var n := Go(m, 1, AccumName, m.acc.(name := m.acc.name + [text[0]]));
    Once(m, n);
    if |text| == 1 {
      assert text == [text[0]];
    } else {
      NameRun(n, text[1..]);
      assert m.acc.name + [text[0]] + text[1..] == m.acc.name + text;
    }
  }

  predicate Stays(state: FsmState, c: char) {
    match state
    case AccumVar => IsAlphanumeric_(c)
    case AccumInt => IsDigit(c)
    case AccumFloat => IsDigit(c)
    case AccumStr => c != '"' && c != '\0'
    case _ => false
  }

  lemma {:induction false} ArgRun(m: Machine, text: string)
    requires !m.finished && Ahead(m.input, text) && forall i :: 0 <= i < |text| ==> Stays(m.state, text[i])
    ensures Run(m) == Run(Go(m, |text|, m.state, m.acc.(arg := m.acc.arg + text)))
    decreases |text|
  {
    hide Run;
    if text == "" {
      assert m.acc.arg + text == m.acc.arg;
    } else {
      AheadFirst(m.input, text);
      var n := Go(m, 1, m.state, m.acc.(arg := m.acc.arg + [text[0]]));
      Once(m, n);
      ArgRun(n, text[1..]);
      assert m.acc.arg + [text[0]] + text[1..] == m.acc.arg + text;
    }
  }

  // ---------------------------------------------------------------------
  // One argument
  // ---------------------------------------------------------------------

  /** The characters that end up in the accumulator. */
  function RawText(a: Arg): string {
    match a
    case StrArg(s) => s
    case VarArg(name) => name
    case IntArg(_) | BoolArg(_) | FloatArg(_) => ArgText(a)
  }

  function TypeOf(a: Arg): ArgType {
    match a
    case IntArg(_) => TypeInt
    case BoolArg(_) => TypeBool
    case StrArg(_) => TypeStr
    case FloatArg(_) => TypeFloat
    case VarArg(_) => TypeVar
  }

  function EndState(a: Arg): FsmState {
    match a
    case IntArg(_) => AccumInt
    case BoolArg(_) => AccumBool
    case StrArg(_) => EndAccumStr
    case FloatArg(_) => AccumFloat
    case VarArg(_) => AccumVar
  }

  function HasRead(m: Machine, a: Arg): Machine {
    Go(m, |ArgText(a)|, EndState(a), m.acc.(arg := RawText(a), argType := TypeOf(a)))
  }

  ghost predicate AtArg(m: Machine) {
    m.state == BeginAccumArg && !m.finished && m.acc.arg == ""
  }

  // Digits with an optional sign, up to where a float's point may follow.
  lemma ReadDigits(m: Machine, text: string)
    requires AtArg(m) && Ahead(m.input, text) && text != "" && (IsDigit(text[0]) || text[0] == '-')
    requires forall k :: 1 <= k < |text| ==> IsDigit(text[k])
    ensures Run(m) == Run(Go(m, |text|, AccumInt, m.acc.(argType := TypeInt, arg := text)))
  {
    hide Run;
    AheadFirst(m.input, text);
    var n := Go(m, 1, AccumInt, m.acc.(argType := TypeInt, arg := m.acc.arg + [text[0]]));
    Once(m, n);
    ArgRun(n, text[1..]);
    assert m.acc.arg + [text[0]] + text[1..] == text;
  }

  lemma ReadInt(m: Machine, i: int)
    requires AtArg(m) && Ahead(m.input, IntText(i))
    ensures Run(m) == Run(HasRead(m, IntArg(i)))
  {
    hide Run, Step;
    IntInverts(i);
    ReadDigits(m, IntText(i));
  }

  lemma PointEdge(m: Machine)
    requires m.state == AccumInt && !m.finished && Ahead(m.input, ".")
    ensures Run(m) == Run(Go(m, 1, BeginAccumFloat, m.acc.(argType := TypeFloat, arg := m.acc.arg + ".")))
  {
    hide Run;
    AheadFirst(m.input, ".");
    Once(m, Go(m, 1, BeginAccumFloat, m.acc.(argType := TypeFloat, arg := m.acc.arg + ".")));
  }

  lemma ReadFraction(m: Machine, text: string)
    requires m.state == BeginAccumFloat && !m.finished && AllDigits(text) && Ahead(m.input, text)
    ensures Run(m) == Run(Go(m, |text|, AccumFloat, m.acc.(arg := m.acc.arg + text)))
  {
    hide Run;
    AheadFirst(m.input, text);
    var n := Go(m, 1, AccumFloat, m.acc.(arg := m.acc.arg + [text[0]]));
    Once(m, n);
    ArgRun(n, text[1..]);
    assert m.acc.arg + [text[0]] + text[1..] == m.acc.arg + text;
  }

  lemma ReadDecimal(m: Machine, whole: string, fraction: string)
    requires AtArg(m) && Ahead(m.input, whole + "." + fraction)
    requires whole != "" && (IsDigit(whole[0]) || whole[0] == '-') && forall k :: 1 <= k < |whole| ==> IsDigit(whole[k])
    requires AllDigits(fraction)
    ensures var text := whole + "." + fraction;
            Run(m) == Run(Go(m, |text|, AccumFloat, m.acc.(argType := TypeFloat, arg := text)))
  {
    hide Run, Step;
    AheadSplit(m.input, whole + ".", fraction);
    AheadSplit(m.input, whole, ".");
    ReadDigits(m, whole);
    var d := Go(m, |whole|, AccumInt, m.acc.(argType := TypeInt, arg := whole));
    PointEdge(d);
    ReadFraction(Go(d, 1, BeginAccumFloat, d.acc.(argType := TypeFloat, arg := whole + ".")), fraction);
  }

  lemma ReadFloat(m: Machine, x: real)
    requires AtArg(m) && Ahead(m.input, ArgText(FloatArg(x)))
    ensures Run(m) == Run(HasRead(m, FloatArg(x)))
  {
    hide Run, Step, Whole, Fraction, Micros, Ahead;
    var k := Micros(x);
    var n := if k < 0 then -k else k;
    PartsInvert(n);
    ReadDecimal(m, if k < 0 then "-" + Whole(n) else Whole(n), Fraction(n));
  }

  lemma ReadBool(m: Machine, b: bool)
    requires AtArg(m) && Ahead(m.input, ArgText(BoolArg(b)))
    ensures Run(m) == Run(HasRead(m, BoolArg(b)))
  {
    hide Run;
    AheadFirst(m.input, ArgText(BoolArg(b)));
    assert m.acc.arg + ArgText(BoolArg(b)) == ArgText(BoolArg(b));
    Once(m, HasRead(m, BoolArg(b)));
  }

  lemma DollarEdge(m: Machine)
    requires AtArg(m) && Ahead(m.input, "$")
    ensures Run(m) == Run(Go(m, 1, AccumVar, m.acc.(argType := TypeVar)))
  {
    hide Run;
    AheadFirst(m.input, "$");
    Once(m, Go(m, 1, AccumVar, m.acc.(argType := TypeVar)));
  }

  lemma ReadVar(m: Machine, name: string)
    requires AtArg(m) && IsIdentifier(name) && Ahead(m.input, "$" + name)
    ensures Run(m) == Run(HasRead(m, VarArg(name)))
  {
    hide Run, Step;
    AheadSplit(m.input, "$", name);
    DollarEdge(m);
    ArgRun(Go(m, 1, AccumVar, m.acc.(argType := TypeVar)), name);
    assert m.acc.arg + name == name;
  }

  lemma OpenQuoteEdge(m: Machine)
    requires AtArg(m) && Ahead(m.input, "\"")
    ensures Run(m) == Run(Go(m, 1, AccumStr, m.acc.(argType := TypeStr)))
  {
    hide Run;
    AheadFirst(m.input, "\"");
    Once(m, Go(m, 1, AccumStr, m.acc.(argType := TypeStr)));
  }

  lemma CloseQuoteEdge(m: Machine)
    requires m.state == AccumStr && !m.finished && Ahead(m.input, "\"")
    ensures Run(m) == Run(Go(m, 1, EndAccumStr, m.acc))
  {
    hide Run;
    AheadFirst(m.input, "\"");
    Once(m, Go(m, 1, EndAccumStr, m.acc));
  }

  lemma StrBody(m: Machine, s: string)
    requires m.state == AccumStr && !m.finished && m.acc.arg == ""
    requires Printable(StrArg(s)) && Ahead(m.input, s + "\"")
    ensures Run(m) == Run(Go(m, |s| + 1, EndAccumStr, m.acc.(arg := s)))
  {
    hide Run, Step;
    AheadSplit(m.input, s, "\"");
    ArgRun(m, s);
    assert m.acc.arg + s == s;
    CloseQuoteEdge(Go(m, |s|, AccumStr, m.acc.(arg := s)));
  }

  lemma ReadStr(m: Machine, s: string)
    requires AtArg(m) && Printable(StrArg(s)) && Ahead(m.input, "\"" + s + "\"")
    ensures Run(m) == Run(HasRead(m, StrArg(s)))
  {
    hide Run, Step;
    assert "\"" + s + "\"" == "\"" + (s + "\"");
    AheadSplit(m.input, "\"", s + "\"");
    OpenQuoteEdge(m);
    StrBody(Go(m, 1, AccumStr, m.acc.(argType := TypeStr)), s);
  }

  /** From the start of an argument, its text is read into the accumulator. */
  lemma ReadArg(m: Machine, a: Arg)
    requires AtArg(m) && Printable(a) && Ahead(m.input, ArgText(a))
    ensures Run(m) == Run(HasRead(m, a))
  {
    hide Run, Step;
    match a
    case IntArg(i) => ReadInt(m, i);
    case BoolArg(b) => ReadBool(m, b);
    case StrArg(s) => ReadStr(m, s);
    case VarArg(name) => ReadVar(m, name);
    case FloatArg(x) => ReadFloat(m, x);
  }

  ghost predicate Known(v: Vars, args: seq<Arg>) {
    forall i :: 0 <= i < |args| ==> args[i].VarArg? ==> args[i].name in v.known
  }

  /** The argument's text is in the accumulator and its end has been reached. */
  ghost predicate Holding(m: Machine, a: Arg) {
    && m.state == EndState(a) && !m.finished && Printable(a)
    && m.acc.arg == RawText(a) && m.acc.argType == TypeOf(a)
    && (a.VarArg? ==> a.name in m.vars.known)
  }

  lemma AcceptRead(m: Machine, a: Arg)
    requires Holding(m, a)
    ensures AcceptArg(m) == KeepArg(m, a)
  {
    match a
    case IntArg(i) => IntInverts(i);
    case FloatArg(x) => FloatInverts(Micros(x));
    case _ =>
  }

  // ---------------------------------------------------------------------
  // One call
  // ---------------------------------------------------------------------

  ghost predicate Collecting(t: Target) {
    t in {ForArg, ForConditions, ForActions, ForUndos}
  }

  function LastType(t: ArgType, args: seq<Arg>): ArgType {
    if args == [] then t else TypeOf(args[|args| - 1])
  }

  function ClearAccum(t: ArgType): Accum {
    Accum("", "", t, [], true)
  }

  /** n characters on, past the closing parenthesis: the call is in its list and the accumulators are clear. */
  function Closed(m: Machine, n: nat, args: seq<Arg>): Machine {
    Go(m, n, AcceptFn, ClearAccum(LastType(m.acc.argType, args)))
      .(lists := AddFn(m.lists, m.target, m.acc.name, m.acc.args + args, m.acc.plain))
  }

  lemma CloseWith(m: Machine, a: Arg)
    requires Holding(m, a) && Collecting(m.target) && m.acc.name != "" && Ahead(m.input, ")")
    ensures Run(m) == Run(Closed(m, 1, [a]))
  {
    hide Run, AcceptArg, Printable, RawText, TypeOf;
    AheadFirst(m.input, ")");
    AcceptRead(m.(input := Past(m.input, 1)), a);
    Once(m, Closed(m, 1, [a]));
  }

  lemma CloseEmpty(m: Machine)
    requires AtArg(m) && Collecting(m.target) && m.acc.name != "" && Ahead(m.input, ")")
    ensures Run(m) == Run(Closed(m, 1, []))
  {
    hide Run;
    AheadFirst(m.input, ")");
    assert m.acc.args + [] == m.acc.args;
    Once(m, Closed(m, 1, []));
  }

  /** After an argument and a blank, the machine is ready for the next argument. */
  function Continued(m: Machine, n: nat, a: Arg): Machine {
    Go(m, n, BeginAccumArg, m.acc.(args := m.acc.args + [a], arg := "", argType := TypeOf(a)))
  }

  lemma ContinueWith(m: Machine, a: Arg)
    requires Holding(m, a) && Ahead(m.input, " ")
    ensures Run(m) == Run(Continued(m, 1, a))
  {
    hide Run;
    AheadFirst(m.input, " ");
    AcceptRead(m.(input := Past(m.input, 1)), a);
    Once(m, Continued(m, 1, a));
  }

  ghost predicate AllPrintable(args: seq<Arg>) {
    forall i :: 0 <= i < |args| ==> Printable(args[i])
  }

  lemma LastArg(m: Machine, a: Arg)
    requires AtArg(m) && m.acc.name != "" && Collecting(m.target)
    requires Printable(a) && Known(m.vars, [a]) && Ahead(m.input, ArgText(a) + ")")
    ensures Run(m) == Run(Closed(m, |ArgText(a)| + 1, [a]))
  {
    hide Run, Step;
    AheadSplit(m.input, ArgText(a), ")");
    ReadArg(m, a);
    assert [a][0] == a;
    CloseWith(HasRead(m, a), a);
  }

  lemma NextArg(m: Machine, a: Arg)
    requires AtArg(m) && Printable(a) && Known(m.vars, [a]) && Ahead(m.input, ArgText(a) + " ")
    ensures Run(m) == Run(Continued(m, |ArgText(a)| + 1, a))
  {
    hide Run, Step;
    AheadSplit(m.input, ArgText(a), " ");
    ReadArg(m, a);
    assert [a][0] == a;
    ContinueWith(HasRead(m, a), a);
  }

  lemma ArgsTextSplit(args: seq<Arg>)
    requires |args| > 1
    ensures ArgsText(args) + ")" == (ArgText(args[0]) + " ") + (ArgsText(args[1..]) + ")")
  {
  }

  lemma ClosedAfter(m: Machine, k: nat, j: nat, args: seq<Arg>)
    requires |args| > 1
    ensures Closed(Continued(m, k, args[0]), j, args[1..]) == Closed(m, k + j, args)
  {
    assert m.acc.args + [args[0]] + args[1..] == m.acc.args + args;
  }

  lemma {:induction false} ArgsRun(m: Machine, args: seq<Arg>)
    requires AtArg(m) && m.acc.name != "" && Collecting(m.target)
    requires AllPrintable(args) && Known(m.vars, args) && Ahead(m.input, ArgsText(args) + ")")
    ensures Run(m) == Run(Closed(m, |ArgsText(args)| + 1, args))
    decreases |args|
  {
    hide Run, Step, Closed, ArgText, Printable;
    if args == [] {
      assert ArgsText(args) + ")" == ")";
      CloseEmpty(m);
    } else if |args| == 1 {
      assert args == [args[0]];
      LastArg(m, args[0]);
    } else {
      ArgsTextSplit(args);
      var first, rest := ArgText(args[0]) + " ", ArgsText(args[1..]) + ")";
      AheadSplit(m.input, first, rest);
      NextArg(m, args[0]);
      ArgsRun(Continued(m, |first|, args[0]), args[1..]);
      ClosedAfter(m, |first|, |rest|, args);
    }
  }

  /** Between calls: nothing accumulated. */
  ghost predicate Clear(m: Machine) {
    !m.finished && m.acc == ClearAccum(m.acc.argType)
  }

  function CallDone(m: Machine, c: Call): Machine {
    Go(m, |CallText(c)|, AcceptFn, ClearAccum(LastType(m.acc.argType, c.args)))
      .(lists := AddFn(m.lists, m.target, c.name, c.args, !c.inverted))
  }

  lemma InverterRun(m: Machine, inverted: bool, text: string)
    requires m.state == Start && Clear(m) && Ahead(m.input, (if inverted then "!" else "") + text)
    ensures var n := if inverted then Go(m, 1, InvertFn, m.acc.(plain := false)) else m;
            Run(m) == Run(n) && Ahead(n.input, text)
  {
    hide Run;
    if inverted {
      AheadFirst(m.input, "!" + text);
      assert ("!" + text)[1..] == text;
      Once(m, Go(m, 1, InvertFn, m.acc.(plain := false)));
    } else {
      assert "" + text == text;
    }
  }

  lemma ParenEdge(m: Machine)
    requires m.state == AccumName && !m.finished && Ahead(m.input, "(")
    ensures Run(m) == Run(Go(m, 1, BeginAccumArg, m.acc))
  {
    hide Run;
    AheadFirst(m.input, "(");
    Once(m, Go(m, 1, BeginAccumArg, m.acc));
  }

  lemma NameAndParen(m: Machine, name: string)
    requires m.state in {Start, InvertFn} && !m.finished && m.acc.name == ""
    requires IsIdentifier(name) && Ahead(m.input, name + "(")
    ensures Run(m) == Run(Go(m, |name| + 1, BeginAccumArg, m.acc.(name := name)))
  {
    hide Run, Step;
    AheadSplit(m.input, name, "(");
    NameRun(m, name);
    assert m.acc.name + name == name;
    ParenEdge(Go(m, |name|, AccumName, m.acc.(name := name)));
  }

  lemma NameAndArgs(m: Machine, name: string, args: seq<Arg>)
    requires m.state in {Start, InvertFn} && !m.finished && Collecting(m.target)
    requires m.acc.name == "" && m.acc.arg == "" && m.acc.args == []
    requires IsIdentifier(name) && AllPrintable(args) && Known(m.vars, args)
    requires Ahead(m.input, (name + "(") + (ArgsText(args) + ")"))
    ensures Run(m) == Run(Closed(m.(acc := m.acc.(name := name)), |name| + |ArgsText(args)| + 2, args))
  {
    hide Run, Step;
    AheadSplit(m.input, name + "(", ArgsText(args) + ")");
    NameAndParen(m, name);
    ArgsRun(Go(m, |name| + 1, BeginAccumArg, m.acc.(name := name)), args);
  }

  function Inverter(c: Call): string {
    if c.inverted then "!" else ""
  }

  function PastInverter(m: Machine, c: Call): Machine {
    if c.inverted then Go(m, 1, InvertFn, m.acc.(plain := false)) else m
  }

  lemma CallTextSplit(c: Call)
    ensures CallText(c) == Inverter(c) + ((c.name + "(") + (ArgsText(c.args) + ")"))
  {
  }

  lemma ClosedIsDone(m: Machine, c: Call)
    requires Clear(m)
    ensures var n := PastInverter(m, c);
            Closed(n.(acc := n.acc.(name := c.name)), |c.name| + |ArgsText(c.args)| + 2, c.args) == CallDone(m, c)
  {
    CallTextSplit(c);
    assert [] + c.args == c.args;
  }

  lemma CallRun(m: Machine, c: Call)
    requires m.state == Start && Clear(m) && Collecting(m.target)
    requires PrintableCall(c) && Known(m.vars, c.args) && Ahead(m.input, CallText(c))
    ensures Run(m) == Run(CallDone(m, c))
  {
    hide Run, Step, CallText, Closed, CallDone;
    CallTextSplit(c);
    InverterRun(m, c.inverted, (c.name + "(") + (ArgsText(c.args) + ")"));
    NameAndArgs(PastInverter(m, c), c.name, c.args);
    ClosedIsDone(m, c);
  }

  // ---------------------------------------------------------------------
  // A whole list of calls
  // ---------------------------------------------------------------------

  ghost predicate CallsKnown(v: Vars, cs: seq<Call>) {
    forall i :: 0 <= i < |cs| ==> Known(v, cs[i].args)
  }

  function AddCalls(l: Lists, t: Target, cs: seq<Call>): Lists
    decreases |cs|
  {
    if cs == [] then l else AddCalls(AddFn(l, t, cs[0].name, cs[0].args, !cs[0].inverted), t, cs[1..])
  }

  function LastCallType(t: ArgType, cs: seq<Call>): ArgType
    decreases |cs|
  {
    if cs == [] then t else LastCallType(LastType(t, cs[0].args), cs[1..])
  }

  /** The state in which a list of calls leaves the machine. */
  function CallsDone(m: Machine, cs: seq<Call>): Machine {
    Go(m, |CallsText(cs)|, if cs == [] then Start else AcceptFn, ClearAccum(LastCallType(m.acc.argType, cs)))
      .(lists := AddCalls(m.lists, m.target, cs))
  }

  lemma BlankEdge(m: Machine)
    requires m.state == AcceptFn && !m.finished && Ahead(m.input, " ")
    ensures Run(m) == Run(Go(m, 1, Start, m.acc))
  {
    hide Run;
    AheadFirst(m.input, " ");
    Once(m, Go(m, 1, Start, m.acc));
  }

  lemma NextCall(m: Machine, c: Call)
    requires m.state == Start && Clear(m) && Collecting(m.target)
    requires PrintableCall(c) && Known(m.vars, c.args) && Ahead(m.input, CallText(c) + " ")
    ensures Run(m) == Run(Go(CallDone(m, c), 1, Start, CallDone(m, c).acc))
  {
    hide Run, Step;
    AheadSplit(m.input, CallText(c), " ");
    CallRun(m, c);
    BlankEdge(CallDone(m, c));
  }

  lemma SingleCall(m: Machine, c: Call, cs: seq<Call>)
    requires cs == [c]
    ensures CallsDone(m, cs) == CallDone(m, c)
  {
    var l, t := AddFn(m.lists, m.target, c.name, c.args, !c.inverted), LastType(m.acc.argType, c.args);
    assert cs[1..] == [];
    assert AddCalls(l, m.target, []) == l && LastCallType(t, []) == t;
  }

  lemma {:induction false} CallsRun(m: Machine, cs: seq<Call>)
    requires m.state == Start && Clear(m) && Collecting(m.target)
    requires PrintableCalls(cs) && CallsKnown(m.vars, cs) && Ahead(m.input, CallsText(cs))
    ensures Run(m) == Run(CallsDone(m, cs))
    decreases |cs|
  {
    hide Run, Step, CallText, PrintableCall, Known, LastType;
    if cs == [] {
      assert CallsDone(m, cs) == m;
    } else if |cs| == 1 {
      CallRun(m, cs[0]);
      SingleCall(m, cs[0], cs);
    } else {
      var c, rest := cs[0], CallsText(cs[1..]);
      assert CallsText(cs) == (CallText(c) + " ") + rest;
      AheadSplit(m.input, CallText(c) + " ", rest);
      NextCall(m, c);
      var n := Go(CallDone(m, c), 1, Start, CallDone(m, c).acc);
      CallsRun(n, cs[1..]);
      assert CallsDone(n, cs[1..]) == CallsDone(m, cs);
    }
  }

  // ---------------------------------------------------------------------
  // The three strings of a rule
  // ---------------------------------------------------------------------

  /** At the end of a string of a rule the machine moves on to the next one. */
  function NextString(m: Machine): Machine {
    var next :=
      if m.target == ForConditions then Load(m.(target := ForActions), m.input.actionsStr)
      else Load(m.(target := ForUndos), m.input.undosStr);
    next.(state := Start)
  }

  ghost predicate AtEnd(m: Machine) {
    Valid(m) && Clear(m) && m.state in {Start, AcceptFn} && m.input.pos == |m.input.str|
  }

  lemma EndEdge(m: Machine)
    requires AtEnd(m)
    ensures Step(m) == Some(AcceptCalls(m).(state := AcceptRule))
  {
    hide AcceptCalls;
    assert Current(m.input) == '\0' && Moved(m.input) == m.input;
  }

  lemma Restart(m: Machine)
    requires Valid(m) && m.state == AcceptRule && !m.finished
    ensures Run(m) == Run(m.(state := Start))
  {
    hide Step;
  }

  lemma EndOfString(m: Machine)
    requires AtEnd(m) && m.target in {ForConditions, ForActions}
    ensures Valid(NextString(m)) && Run(m) == Run(NextString(m))
  {
    hide Run, Step;
    var n := AcceptCalls(m).(state := AcceptRule);
    EndEdge(m);
    Once(m, n);
    Restart(n);
    assert n.(state := Start) == NextString(m);
  }

  lemma EndOfRule(m: Machine)
    requires AtEnd(m) && m.target in {ForUndos, ForArg, ForVarMap}
    ensures Run(m) == Outcome(m.error == NoError, m.(target := Undetermined, finished := true, state := Start))
  {
    EndEdge(m);
    Once(m, AcceptCalls(m).(state := AcceptRule));
  }

  lemma {:induction false} ArgsAreCStrings(args: seq<Arg>)
    requires AllPrintable(args)
    ensures IsCString(ArgsText(args))
  {
    hide ArgText, Printable;
    if args != [] {
      ArgIsCString(args[0]);
      ArgsAreCStrings(args[1..]);
    }
  }

  lemma ArgIsCString(a: Arg)
    requires Printable(a)
    ensures IsCString(ArgText(a))
  {
    hide Decimal, Whole, Fraction, Micros;
    match a
    case IntArg(i) => IntInverts(i);
    case FloatArg(x) =>
      PartsInvert(if Micros(x) < 0 then -Micros(x) else Micros(x));
    case _ =>
  }

  lemma CallIsCString(c: Call)
    requires PrintableCall(c)
    ensures IsCString(CallText(c))
  {
    ArgsAreCStrings(c.args);
  }

  lemma {:induction false} CallsAreCStrings(cs: seq<Call>)
    requires PrintableCalls(cs)
    ensures IsCString(CallsText(cs))
  {
    if cs != [] {
      CallIsCString(cs[0]);
      CallsAreCStrings(cs[1..]);
    }
  }

  /** Reading one whole string of calls. */
  lemma StringRun(m: Machine, cs: seq<Call>)
    requires Valid(m) && m.input.pos == 0 && m.input.str == CallsText(cs)
    requires m.state == Start && Clear(m) && Collecting(m.target)
    requires PrintableCalls(cs) && CallsKnown(m.vars, cs)
    ensures AtEnd(CallsDone(m, cs)) && Run(m) == Run(CallsDone(m, cs))
  {
    hide Run, Step;
    assert m.input.str[0..|m.input.str|] == m.input.str;
    CallsRun(m, cs);
  }

  /** The calls as the parser's lists hold them. */
  function Listed(t: Target, cs: seq<Call>): seq<Fn> {
    seq(|cs|, i requires 0 <= i < |cs| =>
      Fn(cs[i].name, cs[i].args, (t == ForConditions || t == ForActions) && !cs[i].inverted))
  }

  lemma {:induction false} AddCallsLists(l: Lists, t: Target, cs: seq<Call>)
    requires t in {ForConditions, ForActions, ForUndos}
    ensures AddCalls(l, t, cs) ==
            match t {
              case ForConditions => l.(conditions := l.conditions + Listed(t, cs))
              case ForActions => l.(actions := l.actions + Listed(t, cs))
              case _ => l.(undos := l.undos + Listed(t, cs))
            }
    decreases |cs|
  {
    var fs := Listed(t, cs);
    if cs == [] {
      assert l.conditions + fs == l.conditions && l.actions + fs == l.actions && l.undos + fs == l.undos;
    } else {
      AddCallsLists(AddFn(l, t, cs[0].name, cs[0].args, !cs[0].inverted), t, cs[1..]);
      assert fs == [fs[0]] + Listed(t, cs[1..]);
      assert forall x: seq<Fn> :: x + [fs[0]] + Listed(t, cs[1..]) == x + fs;
    }
  }

  /** The call lists that a rule's calls parse to. */
  function FnsOf(r: RuleCalls): RuleFns {
    RuleFns(Listed(ForConditions, r.conditions), Listed(ForActions, r.actions), Listed(ForUndos, r.undos))
  }

  ghost predicate VarsKnown(known: map<string, char>, r: RuleCalls) {
    CallsKnown(Vars(known, []), r.conditions + r.actions + r.undos)
  }

  ghost predicate PrintableRule(r: RuleCalls) {
    PrintableCalls(r.conditions) && PrintableCalls(r.actions) && PrintableCalls(r.undos)
  }

  lemma ThreeStrings(r: RuleCalls, known: map<string, char>, m: Machine)
    requires PrintableRule(r) && VarsKnown(known, r)
    requires IsCString(TextOf(r).conditions) && IsCString(TextOf(r).actions) && IsCString(TextOf(r).undos)
    requires m == Fresh(TextOf(r).conditions, TextOf(r).actions, TextOf(r).undos, ForConditions, known)
    ensures Run(m).ok
    ensures Run(m).m.lists ==
            AddCalls(AddCalls(AddCalls(m.lists, ForConditions, r.conditions), ForActions, r.actions), ForUndos, r.undos)
  {
    hide Run, Step, AddCalls, CallsText, LastCallType, PrintableCall, Known;
    var all := r.conditions + r.actions + r.undos;
    assert forall i :: 0 <= i < |r.conditions| ==> r.conditions[i] == all[i];
    assert forall i :: 0 <= i < |r.actions| ==> r.actions[i] == all[|r.conditions| + i];
    assert forall i :: 0 <= i < |r.undos| ==> r.undos[i] == all[|r.conditions| + |r.actions| + i];
    StringRun(m, r.conditions);
    var n := NextString(CallsDone(m, r.conditions));
    EndOfString(CallsDone(m, r.conditions));
    StringRun(n, r.actions);
    var o := NextString(CallsDone(n, r.actions));
    EndOfString(CallsDone(n, r.actions));
    StringRun(o, r.undos);
    EndOfRule(CallsDone(o, r.undos));
  }

  /**
    The text of a rule parses to exactly its conditions, inverters, actions, undos and
    arguments, in order; inverters of actions are read too.
   */
  lemma TextRoundTrip(r: RuleCalls, known: map<string, char>)
    requires PrintableRule(r) && VarsKnown(known, r)
    ensures var t := TextOf(r);
            && IsCString(t.conditions) && IsCString(t.actions) && IsCString(t.undos)
            && ParseRule(t, known) == Some(FnsOf(r))
  {
    hide Run, Step;
    var t := TextOf(r);
    CallsAreCStrings(r.conditions);
    CallsAreCStrings(r.actions);
    CallsAreCStrings(r.undos);
    var m := Fresh(t.conditions, t.actions, t.undos, ForConditions, known);
    ThreeStrings(r, known, m);
    var l := AddCalls(m.lists, ForConditions, r.conditions);
    AddCallsLists(m.lists, ForConditions, r.conditions);
    AddCallsLists(l, ForActions, r.actions);
    AddCallsLists(AddCalls(l, ForActions, r.actions), ForUndos, r.undos);
    assert forall fs: seq<Fn> :: [] + fs == fs;
  }

  // ---------------------------------------------------------------------
  // A rounded float prints as the float does
  // ---------------------------------------------------------------------

  lemma RoundedText(a: Arg)
    ensures ArgText(Rounded(a)) == ArgText(a)
  {
    if a.FloatArg? {
      MicrosExact(Micros(a.x));
    }
  }

  lemma {:induction false} RoundedArgsText(args: seq<Arg>)
    ensures ArgsText(RoundedArgs(args)) == ArgsText(args)
  {
    hide ArgText, Rounded;
    if args != [] {
      RoundedText(args[0]);
      assert RoundedArgs(args)[1..] == RoundedArgs(args[1..]);
      RoundedArgsText(args[1..]);
    }
  }

  lemma {:induction false} RoundedCallsText(cs: seq<Call>)
    ensures CallsText(RoundedCalls(cs)) == CallsText(cs)
  {
    hide ArgsText;
    if cs != [] {
      RoundedArgsText(cs[0].args);
      assert RoundedCalls(cs)[1..] == RoundedCalls(cs[1..]);
      RoundedCallsText(cs[1..]);
    }
  }

  lemma RoundedPrintable(r: RuleCalls, known: map<string, char>)
    requires Storable(r) && VarsKnown(known, r)
    ensures PrintableRule(RoundedRule(r)) && VarsKnown(known, RoundedRule(r))
  {
    hide Printable;
    var all := r.conditions + r.actions + r.undos;
    var q := RoundedRule(r);
    assert q.conditions + q.actions + q.undos == RoundedCalls(all);
    forall i | 0 <= i < |all| ensures Known(Vars(known, []), RoundedCalls(all)[i].args) {
      assert Known(Vars(known, []), all[i].args);
    }
  }

  /**
    Storing a rule as JSON, turning the JSON back into text and parsing that text yields
    the rule again, with six decimals of its floats.
   */
  lemma RuleRoundTrip(r: RuleCalls, known: map<string, char>)
    requires Storable(r) && VarsKnown(known, r)
    ensures var t := RuleTextOf(RuleJson(r));
            && t.Some?
            && IsCString(t.value.conditions) && IsCString(t.value.actions) && IsCString(t.value.undos)
            && ParseRule(t.value, known) == Some(FnsOf(RoundedRule(r)))
  {
    hide ParseRule, RuleJson, RuleTextOf, CallsText, PrintableRule, VarsKnown, FnsOf, WritableCalls;
    JsonRoundTrip(r);
    RoundedPrintable(r, known);
    RoundedCallsText(r.conditions);
    RoundedCallsText(r.actions);
    RoundedCallsText(r.undos);
    TextRoundTrip(RoundedRule(r), known);
  }

  // ---------------------------------------------------------------------
  // A single variable value
  // ---------------------------------------------------------------------

  /** The DB text of a variable, wrapped in its name, parses back to its value, with six decimals of a float. */
  lemma ValueRoundTrip(name: string, a: Arg, known: map<string, char>)
    requires IsIdentifier(name) && Writable(a) && !a.VarArg?
    ensures var text := name + "(" + ArgText(a) + ")";
            IsCString(text) && ParseArg(text, known) == Value(Rounded(a))
  {
    hide Run, Step, ArgText, Printable;
    var c := Call(name, false, [Rounded(a)]);
    RoundedText(a);
    assert CallText(c) == name + "(" + ArgText(a) + ")";
    CallIsCString(c);
    var m := Fresh(CallText(c), "", "", ForArg, known);
    assert m.input.str[0..|m.input.str|] == m.input.str;
    CallRun(m, c);
    EndOfRule(CallDone(m, c));
  }

  /** The machine after the closing parenthesis of a definition. */
  function Defined(m: Machine, n: nat, name: string, a: Arg): Machine {
    Go(m, n, AcceptFn, ClearAccum(TypeOf(a)))
      .(vars := Vars(m.vars.known[name := TypeLetter(a)], m.vars.defined + [VarDef(name, a)]))
  }

  lemma CloseDefinition(m: Machine, a: Arg)
    requires Holding(m, a) && !a.VarArg? && m.target == ForVarMap && m.error == NoError && Ahead(m.input, ")")
    requires m.acc.name != "" && m.acc.args == [] && m.acc.plain && m.vars.defined == []
    requires m.acc.name in m.vars.known ==> m.vars.known[m.acc.name] == TypeLetter(a)
    ensures Run(m) == Run(Defined(m, 1, m.acc.name, a))
  {
    hide Run, AcceptArg, Printable, RawText, TypeOf;
    AheadFirst(m.input, ")");
    AcceptRead(m.(input := Past(m.input, 1)), a);
    assert [] + [a] == [a];
    Once(m, Defined(m, 1, m.acc.name, a));
  }

  /** The DB text of a variable, parsed as a definition, defines it with the value that parsing it alone gives. */
  lemma EntryDefines(name: string, a: Arg, known: map<string, char>)
    requires IsIdentifier(name) && Writable(a) && !a.VarArg? && (name in known ==> known[name] == TypeLetter(a))
    ensures var text := name + "(" + ArgText(a) + ")";
            && IsCString(text)
            && var r := Run(Fresh(text, "", "", ForVarMap, known));
            r.ok && r.m.vars.defined == [VarDef(name, Rounded(a))]
  {
    hide Run, Step, ArgText, Printable, Micros;
    var b := Rounded(a);
    var text := name + "(" + ArgText(a) + ")";
    ValueRoundTrip(name, a, known);
    RoundedText(a);
    var m := Fresh(text, "", "", ForVarMap, known);
    assert text == (name + "(") + (ArgText(b) + ")");
    assert m.input.str[0..|m.input.str|] == m.input.str;
    AheadSplit(m.input, name + "(", ArgText(b) + ")");
    NameAndParen(m, name);
    var n := Go(m, |name| + 1, BeginAccumArg, m.acc.(name := name));
    AheadSplit(n.input, ArgText(b), ")");
    ReadArg(n, b);
    CloseDefinition(HasRead(n, b), b);
    EndOfRule(Defined(HasRead(n, b), 1, name, b));
  }

  lemma EmptyStringRun(m: Machine, name: string)
    requires m.state == Start && Clear(m) && Collecting(m.target)
    requires IsIdentifier(name) && Ahead(m.input, (name + "(") + "\"\")")
    ensures Run(m) == Run(Go(m, |name| + 4, AcceptFn, ClearAccum(TypeStr))
                            .(lists := AddFn(m.lists, m.target, name, [], true)))
  {
    hide Run;
    AheadSplit(m.input, name + "(", "\"\")");
    NameAndParen(m, name);
    var n := Go(m, |name| + 1, BeginAccumArg, m.acc.(name := name));
    assert "\"\")" == "\"" + ("\"" + ")");
    AheadSplit(n.input, "\"", "\"" + ")");
    OpenQuoteEdge(n);
    var o := Go(n, 1, AccumStr, n.acc.(argType := TypeStr));
    AheadSplit(o.input, "\"", ")");
    CloseQuoteEdge(o);
    var p := Go(o, 1, EndAccumStr, o.acc);
    EmptyStringEnd(p);
    assert p.acc.args + [] == [];
    assert Closed(p, 1, []) == Go(m, |name| + 4, AcceptFn, ClearAccum(TypeStr))
                                 .(lists := AddFn(m.lists, m.target, name, [], true));
  }

  lemma EmptyStringEnd(m: Machine)
    requires m.state == EndAccumStr && !m.finished && m.acc.arg == "" && m.acc.name != ""
    requires Collecting(m.target) && Ahead(m.input, ")")
    ensures Run(m) == Run(Closed(m, 1, []))
  {
    hide Run;
    AheadFirst(m.input, ")");
    assert m.acc.args + [] == m.acc.args;
    Once(m, Closed(m, 1, []));
  }

  /**
    A quoted string comes back from the DB if and only if it is not empty: the parser
    drops an empty argument, so the stored text of an empty string holds no value, and the
    source then reads through a null argument list.
   */
  lemma StringSurvivesIff(name: string, s: string, known: map<string, char>)
    requires IsIdentifier(name) && forall i :: 0 <= i < |s| ==> s[i] != '"' && s[i] != '\0'
    ensures var text := name + "(" + ArgText(StrArg(s)) + ")";
            IsCString(text) && ParseArg(text, known) == if s != "" then Value(StrArg(s)) else NullList
  {
    hide Run, Step;
    if s != "" {
      ValueRoundTrip(name, StrArg(s), known);
    } else {
      var text := name + "(" + ArgText(StrArg(s)) + ")";
      assert text == (name + "(") + "\"\")";
      var m := Fresh(text, "", "", ForArg, known);
      assert m.input.str[0..|m.input.str|] == m.input.str;
      EmptyStringRun(m, name);
      EndOfRule(Go(m, |name| + 4, AcceptFn, ClearAccum(TypeStr)).(lists := AddFn(m.lists, m.target, name, [], true)));
    }
  }
}
