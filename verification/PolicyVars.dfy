/**
  Policy variables: a write-through cache over the DB (xcpmd/src/db-helper.c).
  The DB is a map from a variable's name to its stored text.
 */
module PolicyVars {
  import opened Options
  import opened PolicyTypes
  import opened PolicyParser
  import opened PolicyPrinter
  import opened PolicyRoundTrip

  datatype DbVar = DbVar(name: string, value: Arg, refs: int)
  datatype VarStore = VarStore(cache: seq<DbVar>, db: map<string, string>)

  /** A value the parser can hand over for a variable. */
  predicate IsLiteral(v: Arg) {
    Writable(v) && !v.VarArg?
  }

  // ---------------------------------------------------------------------
  // Reading
  // ---------------------------------------------------------------------

  /** The position of the first cached variable of that name, or -1. */
  function Position(cache: seq<DbVar>, name: string): (i: int)
    ensures -1 <= i < |cache|
    ensures i >= 0 ==> cache[i].name == name
    ensures i < 0 ==> forall j :: 0 <= j < |cache| ==> cache[j].name != name
  {
    if cache == [] then -1
    else if cache[0].name == name then 0
    else
      var k := Position(cache[1..], name);
      if k < 0 then -1 else k + 1
  }

  /** get_db_var: reads and parses the stored text. */
  function ReadDb(db: map<string, string>, name: string): Option<Arg> {
    if name !in db || db[name] == "" then None else
    var text := name + "(" + db[name] + ")";
    if !IsCString(text) then None else
    match ParseArg(text, map[])
    case Value(v) => Some(v)
    case _ => None
  }

  /** lookup_var: the cache after the look-up. */
  function Looked(s: VarStore, name: string): VarStore {
    if Position(s.cache, name) >= 0 then s else
    match ReadDb(s.db, name)
    case Some(v) => s.(cache := s.cache + [DbVar(name, v, 0)])
    case None => s
  }

  /** resolve_var: the value the look-up finds. */
  function Resolve(s: VarStore, name: string): Option<Arg> {
    var i := Position(s.cache, name);
    if i >= 0 then Some(s.cache[i].value) else ReadDb(s.db, name)
  }

  // ---------------------------------------------------------------------
  // Writing
  // ---------------------------------------------------------------------

  /** Why an attempt to define a variable failed, if it did. */
  datatype AddResult = Unchanged | Overwritten | Added | TypeMismatch

  function AddOutcome(s: VarStore, name: string, v: Arg): AddResult {
    match Resolve(s, name)
    case None => Added
    case Some(w) =>
      if TypeLetter(w) != TypeLetter(v) then TypeMismatch else if w == v then Unchanged else Overwritten
  }

  /** add_var: the store afterwards. */
  function AddVar(s0: VarStore, name: string, v: Arg): VarStore {
    var s := Looked(s0, name);
    match AddOutcome(s0, name, v)
    case TypeMismatch | Unchanged => s
    case Added => VarStore(s.cache + [DbVar(name, v, 0)], s.db[name := ArgText(v)])
    case Overwritten =>
      var i := Position(s.cache, name);
      if i < 0 then s else VarStore(s.cache[i := s.cache[i].(value := v)], s.db[name := ArgText(v)])
  }

  predicate CanDelete(s: VarStore, name: string) {
    var i := Position(s.cache, name);
    i >= 0 && s.cache[i].refs <= 0
  }

  /** delete_var: only a cached, unreferenced variable goes, from the cache and from the DB. */
  function DeleteVar(s: VarStore, name: string): VarStore {
    if !CanDelete(s, name) then s else
    var i := Position(s.cache, name);
    VarStore(s.cache[..i] + s.cache[i + 1..], s.db - {name})
  }

  // ---------------------------------------------------------------------
  // Coherence
  // ---------------------------------------------------------------------

  ghost predicate DistinctNames(cache: seq<DbVar>) {
    forall i, j :: 0 <= i < j < |cache| ==> cache[i].name != cache[j].name
  }

  /** Text that xcpmd itself wrote. */
  ghost predicate IsEntry(text: string) {
    exists v :: IsLiteral(v) && ArgText(v) == text
  }

  ghost predicate DbWellFormed(db: map<string, string>) {
    forall n :: n in db ==> IsIdentifier(n) && IsEntry(db[n])
  }

  ghost predicate Coherent(s: VarStore) {
    && DistinctNames(s.cache) && DbWellFormed(s.db)
    && forall i :: 0 <= i < |s.cache| ==>
         var v := s.cache[i];
         IsLiteral(v.value) && v.name in s.db && s.db[v.name] == ArgText(v.value)
  }

  lemma PositionUnique(cache: seq<DbVar>, i: nat)
    requires DistinctNames(cache) && i < |cache|
    ensures Position(cache, cache[i].name) == i
  {
  }

  lemma {:induction false} PositionSnoc(cache: seq<DbVar>, v: DbVar, n: string)
    ensures Position(cache + [v], n) ==
            if Position(cache, n) >= 0 then Position(cache, n) else if v.name == n then |cache| else -1
  {
    if cache == [] {
      assert cache + [v] == [v];
    } else {
      assert (cache + [v])[1..] == cache[1..] + [v];
      PositionSnoc(cache[1..], v, n);
    }
  }

  lemma {:induction false} PositionSame(a: seq<DbVar>, b: seq<DbVar>, n: string)
    requires |a| == |b| && forall i :: 0 <= i < |a| ==> b[i].name == a[i].name
    ensures Position(b, n) == Position(a, n)
  {
    if a != [] {
      PositionSame(a[1..], b[1..], n);
    }
  }

  lemma ReadWritten(db: map<string, string>, name: string, v: Arg)
    requires name in db && IsIdentifier(name) && IsLiteral(v) && db[name] == ArgText(v)
    ensures ReadDb(db, name) == Some(Rounded(v))
  {
    hide ArgText, Writable;
    ValueRoundTrip(name, v, map[]);
    ArgTextNonEmpty(v);
  }

  lemma ArgTextNonEmpty(v: Arg)
    ensures ArgText(v) != ""
  {
    if v.IntArg? {
      IntInverts(v.i);
    }
  }

  /**
    A look-up through the cache finds a name exactly when the DB has it, and finds what
    reading and parsing the entry gives; of a cached float the entry has six decimals.
   */
  lemma CacheAgreesWithDb(s: VarStore, name: string)
    requires Coherent(s)
    ensures name in s.db <==> Resolve(s, name).Some?
    ensures Resolve(s, name).Some? ==>
              var v := Resolve(s, name).value;
              IsLiteral(v) && ArgText(v) == s.db[name] && ReadDb(s.db, name) == Some(Rounded(v))
    ensures Resolve(s, name) == ReadDb(s.db, name)
            || (Position(s.cache, name) >= 0 && Resolve(s, name).value.FloatArg?)
  {
    hide ArgText, Writable, ParseArg;
    if name in s.db {
      var i := Position(s.cache, name);
      var v :| IsLiteral(v) && ArgText(v) == s.db[name];
      ReadWritten(s.db, name, v);
      RoundedLiteral(v);
      RoundedTwice(v);
      if i >= 0 {
        ReadWritten(s.db, name, s.cache[i].value);
      }
    }
  }

  lemma RoundedLiteral(v: Arg)
    requires IsLiteral(v)
    ensures IsLiteral(Rounded(v)) && ArgText(Rounded(v)) == ArgText(v)
  {
    RoundedTwice(v);
    RoundedText(v);
  }

  lemma AppendCoherent(s: VarStore, name: string, v: Arg, refs: int)
    requires Coherent(s) && IsIdentifier(name) && IsLiteral(v) && Position(s.cache, name) < 0
    ensures Coherent(VarStore(s.cache + [DbVar(name, v, refs)], s.db[name := ArgText(v)]))
  {
    hide ArgText, Writable;
    assert IsEntry(ArgText(v));
  }

  lemma OverwriteCoherent(s: VarStore, i: nat, v: Arg)
    requires Coherent(s) && i < |s.cache| && IsLiteral(v)
    ensures Coherent(VarStore(s.cache[i := s.cache[i].(value := v)], s.db[s.cache[i].name := ArgText(v)]))
  {
    hide ArgText, Writable;
    assert IsEntry(ArgText(v));
  }

  lemma LookedCoherent(s: VarStore, name: string)
    requires Coherent(s)
    ensures Coherent(Looked(s, name)) && Looked(s, name).db == s.db
    ensures Resolve(s, name).Some? <==> Position(Looked(s, name).cache, name) >= 0
    ensures forall n :: Resolve(Looked(s, name), n) == Resolve(s, n)
  {
    hide ArgText, ReadDb, IsLiteral;
    CacheAgreesWithDb(s, name);
    if Position(s.cache, name) < 0 && Resolve(s, name).Some? {
      var v := Resolve(s, name).value;
      AppendCoherent(s, name, v, 0);
      assert s.db[name := ArgText(v)] == s.db;
      forall n ensures Resolve(Looked(s, name), n) == Resolve(s, n) {
        PositionSnoc(s.cache, DbVar(name, v, 0), n);
      }
      PositionSnoc(s.cache, DbVar(name, v, 0), name);
    }
  }

  lemma AddCoherent(s: VarStore, name: string, v: Arg)
    requires Coherent(s) && IsIdentifier(name) && IsLiteral(v)
    ensures Coherent(AddVar(s, name, v))
  {
    hide ArgText, ReadDb, Writable;
    LookedCoherent(s, name);
    var t := Looked(s, name);
    match AddOutcome(s, name, v)
    case Added => AppendCoherent(t, name, v, 0);
    case Overwritten => OverwriteCoherent(t, Position(t.cache, name), v);
    case _ =>
  }

  lemma DeleteCoherent(s: VarStore, name: string)
    requires Coherent(s)
    ensures Coherent(DeleteVar(s, name))
  {
    hide ArgText, Writable;
    if CanDelete(s, name) {
      var i := Position(s.cache, name);
      var t := DeleteVar(s, name);
      forall j | 0 <= j < |t.cache|
        ensures t.cache[j] == s.cache[if j < i then j else j + 1] && t.cache[j].name != name
      {
        assert s.cache[if j < i then j else j + 1].name != s.cache[i].name;
      }
    }
  }

  /**
    What an attempt to define a variable does to every name: a type mismatch changes
    neither the DB nor any value; otherwise exactly the one name takes the new value.
   */
  lemma AddVarEffect(s: VarStore, name: string, v: Arg, n: string)
    requires Coherent(s)
    ensures var t := AddVar(s, name, v);
            if AddOutcome(s, name, v) == TypeMismatch then t.db == s.db && Resolve(t, n) == Resolve(s, n)
            else Resolve(t, n) == (if n == name then Some(v) else Resolve(s, n))
  {
    hide ArgText, ParseArg, Coherent;
    LookedCoherent(s, name);
    var t, u := Looked(s, name), AddVar(s, name, v);
    match AddOutcome(s, name, v)
    case Added => PositionSnoc(t.cache, DbVar(name, v, 0), n);
    case Overwritten => PositionSame(t.cache, u.cache, n);
    case _ =>
  }

  /** Two values of the same type, told by their constructors. */
  predicate SameKind(v: Arg, w: Arg) {
    match v
    case IntArg(_) => w.IntArg?
    case BoolArg(_) => w.BoolArg?
    case StrArg(_) => w.StrArg?
    case FloatArg(_) => w.FloatArg?
    case VarArg(_) => w.VarArg?
  }

  /**
    A definition is accepted if and only if the variable is undefined or has a value of the
    same type; then that name has the new value, in the DB too, and nothing else changes.
    A refused definition changes nothing.
   */
  lemma AddVarIff(s: VarStore, name: string, v: Arg)
    requires Coherent(s)
    ensures var t := AddVar(s, name, v);
            var was := Resolve(s, name);
            var accepted := was.None? || SameKind(was.value, v);
            && (Resolve(t, name) == Some(v) <==> accepted)
            && (forall n :: Resolve(t, n) == if n == name && accepted then Some(v) else Resolve(s, n))
            && t.db == if accepted && was != Some(v) then s.db[name := ArgText(v)] else s.db
  {
    hide ArgText, ReadDb, Coherent, Resolve, Looked;
    LookedCoherent(s, name);
    forall n ensures AddOutcome(s, name, v) == TypeMismatch ==> Resolve(AddVar(s, name, v), n) == Resolve(s, n)
             ensures AddOutcome(s, name, v) != TypeMismatch ==>
                       Resolve(AddVar(s, name, v), n) == (if n == name then Some(v) else Resolve(s, n))
    {
      AddVarEffect(s, name, v, n);
    }
  }

  /** Deleting removes exactly that name, and only when it is unreferenced. */
  lemma DeleteVarEffect(s: VarStore, name: string, n: string)
    requires Coherent(s)
    ensures Resolve(DeleteVar(s, name), n) == (if CanDelete(s, name) && n == name then None else Resolve(s, n))
  {
    hide ArgText, ParseArg, IsLiteral, IsEntry;
    if CanDelete(s, name) {
      var i, t := Position(s.cache, name), DeleteVar(s, name);
      assert forall j :: 0 <= j < |t.cache| ==> t.cache[j] == s.cache[if j < i then j else j + 1];
      var p := Position(s.cache, n);
      if n != name && p >= 0 {
        assert t.cache[if p < i then p else p - 1] == s.cache[p];
      }
    }
  }
}
