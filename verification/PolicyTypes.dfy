/**
  The data that the policy parser and the policy engine share (xcpmd/src/rules.h and
  the parser's own structures in xcpmd/src/parser.c).
 */
module PolicyTypes {
  /** An argument; a float is taken as the exact number that was written. */
  datatype Arg =
    | IntArg(i: int)
    | BoolArg(b: bool)
    | StrArg(s: string)
    | FloatArg(x: real)
    | VarArg(name: string)

  /** A parsed call; `plain` is false when an inverter preceded the name. */
  datatype Fn = Fn(name: string, args: seq<Arg>, plain: bool)

  /** The type letter of an argument, as prototypes spell it. */
  function TypeLetter(a: Arg): char {
    match a
    case IntArg(_) => 'i'
    case BoolArg(_) => 'b'
    case StrArg(_) => 's'
    case FloatArg(_) => 'f'
    case VarArg(_) => 'v'
  }

  // ---------------------------------------------------------------------
  // Character classes
  // ---------------------------------------------------------------------

  predicate IsDigit(c: char) {
    '0' <= c <= '9'
  }

  predicate IsAlphanumeric_(c: char) {
    c == '_' || 'A' <= c <= 'Z' || 'a' <= c <= 'z' || IsDigit(c)
  }

  /** A non-empty name of letters, digits and underscores. */
  predicate IsIdentifier(s: string) {
    s != "" && forall i :: 0 <= i < |s| ==> IsAlphanumeric_(s[i])
  }

  /** A value of C's 32-bit int. */
  predicate IsInt32(i: int) {
    -0x8000_0000 <= i < 0x8000_0000
  }

  // ---------------------------------------------------------------------
  // Floats
  // ---------------------------------------------------------------------

  /** The nearest whole number of millionths; a tie goes to the even one. */
  function Micros(x: real): int {
    var y := x * 1000000.0;
    var n := y.Floor;
    if y - n as real < 0.5 || (y - n as real == 0.5 && n % 2 == 0) then n else n + 1
  }

  function FromMicros(k: int): real {
    k as real / 1000000.0
  }

  /** Printing keeps six decimals of a float and all of anything else. */
  function Rounded(a: Arg): Arg {
    if a.FloatArg? then FloatArg(FromMicros(Micros(a.x))) else a
  }

  lemma MicrosExact(k: int)
    ensures Micros(FromMicros(k)) == k
  {
    assert FromMicros(k) * 1000000.0 == k as real;
  }

  /** The printed number is the nearest one with six decimals; a tie goes to the even one. */
  lemma MicrosNearest(x: real)
    ensures -0.5 <= x * 1000000.0 - Micros(x) as real <= 0.5
    ensures x * 1000000.0 - Micros(x) as real in {-0.5, 0.5} ==> Micros(x) % 2 == 0
    ensures -0.0000005 <= x - FromMicros(Micros(x)) <= 0.0000005
  {
    var y := x * 1000000.0;
    assert y.Floor as real <= y < y.Floor as real + 1.0;
  }

  lemma RoundedTwice(a: Arg)
    ensures Rounded(Rounded(a)) == Rounded(a)
  {
    if a.FloatArg? {
      MicrosExact(Micros(a.x));
    }
  }

  // ---------------------------------------------------------------------
  // Calls
  // ---------------------------------------------------------------------

  /** The arguments that survive printing. */
  predicate Printable(a: Arg) {
    match a
    case IntArg(i) => IsInt32(i)
    case BoolArg(_) => true
    case StrArg(s) => s != "" && forall i :: 0 <= i < |s| ==> s[i] != '"' && s[i] != '\0'
    case FloatArg(_) => Rounded(a) == a
    case VarArg(name) => IsIdentifier(name)
  }

  /** What an argument of a parsed call can look like: printable once its float is rounded. */
  predicate Writable(a: Arg) {
    Printable(Rounded(a))
  }

  lemma WritableIff(a: Arg)
    ensures Writable(a) <==> a.FloatArg? || Printable(a)
  {
    RoundedTwice(a);
  }

  /** A condition, action or undo of a rule as it is written: its type's name, inverter and arguments. */
  datatype Call = Call(name: string, inverted: bool, args: seq<Arg>)

  predicate PrintableCall(c: Call) {
    IsIdentifier(c.name) && forall i :: 0 <= i < |c.args| ==> Printable(c.args[i])
  }

  predicate PrintableCalls(cs: seq<Call>) {
    forall i :: 0 <= i < |cs| ==> PrintableCall(cs[i])
  }

  predicate WritableCall(c: Call) {
    IsIdentifier(c.name) && forall i :: 0 <= i < |c.args| ==> Writable(c.args[i])
  }

  predicate WritableCalls(cs: seq<Call>) {
    forall i :: 0 <= i < |cs| ==> WritableCall(cs[i])
  }

  function RoundedArgs(args: seq<Arg>): (r: seq<Arg>)
    ensures |r| == |args| && forall i :: 0 <= i < |args| ==> r[i] == Rounded(args[i])
  {
    seq(|args|, i requires 0 <= i < |args| => Rounded(args[i]))
  }

  function RoundedCalls(cs: seq<Call>): (r: seq<Call>)
    ensures |r| == |cs| && forall i :: 0 <= i < |cs| ==> r[i] == cs[i].(args := RoundedArgs(cs[i].args))
  {
    seq(|cs|, i requires 0 <= i < |cs| => cs[i].(args := RoundedArgs(cs[i].args)))
  }
}
