/**
  Shutting down the dependencies of a VM (xcpmd/src/vm-actions-module.c).

  A depth-first search collects the VMs that the root needs ("jeopardy"), a
  worklist then rescues every one of them that some other VM still needs, and
  whatever remains is shut down.  The dependency graph is arbitrary: it may be
  cyclic and may mention VMs that are not listed.
 */
module VmShutdown {
  import opened Options

  /** One row of the cached master list: a VM's path, state, type and dependencies. */
  datatype Vm = Vm(path: string, state: string, kind: string, deps: seq<string>)

  predicate Halted(vm: Vm) {
    vm.state == "stopping" || vm.state == "stopped"
  }

  // VM paths are object identifiers, so no two rows share one.
  ghost predicate DistinctPaths(vms: seq<Vm>) {
    forall i, j :: 0 <= i < j < |vms| ==> vms[i].path != vms[j].path
  }

  function Find(vms: seq<Vm>, path: string): (r: Option<Vm>)
    ensures r.Some? ==> r.value in vms && r.value.path == path
    ensures r.None? ==> forall vm :: vm in vms ==> vm.path != path
  {
    if vms == [] then None
    else if vms[0].path == path then Some(vms[0])
    else Find(vms[1..], path)
  }

  /** The dependencies of a path; an unlisted VM has none. */
  function DepsOf(vms: seq<Vm>, path: string): seq<string> {
    match Find(vms, path)
    case Some(vm) => vm.deps
    case None => []
  }

  predicate HaltedAt(vms: seq<Vm>, path: string) {
    match Find(vms, path)
    case Some(vm) => Halted(vm)
    case None => false
  }

  lemma FindListed(vms: seq<Vm>, vm: Vm)
    requires DistinctPaths(vms) && vm in vms
    ensures Find(vms, vm.path) == Some(vm)
  {
    var found := Find(vms, vm.path).value;
    var i :| 0 <= i < |vms| && vms[i] == vm;
    var j :| 0 <= j < |vms| && vms[j] == found;
    assert i == j;
  }

  function Elems<T>(s: seq<T>): set<T> {
    set x | x in s
  }

  ghost predicate NoDuplicates<T>(s: seq<T>) {
    forall i, j :: 0 <= i < j < |s| ==> s[i] != s[j]
  }

  // ---------------------------------------------------------------------
  // What the search computes: the least closed set
  // ---------------------------------------------------------------------

  ghost predicate AllIn(s: seq<string>, c: set<string>) {
    forall d :: d in s ==> d in c
  }

  /** Closed under the dependencies of the members that are neither stopping nor stopped. */
  ghost predicate ClosedUnder(vms: seq<Vm>, c: set<string>) {
    forall p :: p in c && !HaltedAt(vms, p) ==> AllIn(DepsOf(vms, p), c)
  }

  /** Holds the root's dependencies, whatever the root's state, and is closed. */
  ghost predicate ClosedFrom(vms: seq<Vm>, root: string, c: set<string>) {
    AllIn(DepsOf(vms, root), c) && ClosedUnder(vms, c)
  }

  /** Every name that occurs as a dependency. */
  function DepNames(vms: seq<Vm>): set<string> {
    set vm, d | vm in vms && d in vm.deps :: d
  }

  /** The intersection of all closed sets: what the root transitively needs. */
  ghost function Needed(vms: seq<Vm>, root: string): set<string> {
    set p | p in DepNames(vms) && forall c: set<string> :: ClosedFrom(vms, root, c) ==> p in c
  }

  /** The intersection of all closed sets is itself closed, hence the least one. */
  lemma NeededIsLeastClosed(vms: seq<Vm>, root: string)
    ensures ClosedFrom(vms, root, Needed(vms, root))
    ensures forall c: set<string> :: ClosedFrom(vms, root, c) ==> Needed(vms, root) <= c
  {
    var n := Needed(vms, root);
    forall p | (p in n && !HaltedAt(vms, p)) || p == root
      ensures AllIn(DepsOf(vms, p), n)
    {
      forall d | d in DepsOf(vms, p) ensures d in n {
        assert Find(vms, p).value in vms;
        forall c: set<string> | ClosedFrom(vms, root, c) ensures d in c {
          assert p in n ==> p in c;
        }
      }
    }
  }

  // ---------------------------------------------------------------------
  // gather_dependencies
  // ---------------------------------------------------------------------

  /** A VM is expanded when it is the root or is neither stopping nor stopped. */
  predicate Expands(vms: seq<Vm>, path: string, isRoot: bool) {
    isRoot || !HaltedAt(vms, path)
  }

  /** A closed set that also covers what is already listed and what `path` would add. */
  ghost predicate Covers(vms: seq<Vm>, c: set<string>, path: string, isRoot: bool, base: seq<string>) {
    && AllIn(base, c)
    && ClosedUnder(vms, c)
    && (Expands(vms, path, isRoot) ==> AllIn(DepsOf(vms, path), c))
  }

  /** Every entry from position `from` on has had its dependencies listed. */
  ghost predicate Explored(vms: seq<Vm>, flat: seq<string>, from: nat) {
    forall k :: from <= k < |flat| && !HaltedAt(vms, flat[k]) ==> AllIn(DepsOf(vms, flat[k]), Elems(flat))
  }

  lemma ElemsGrow(before: seq<string>, after: seq<string>)
    requires before <= after
    ensures Elems(before) <= Elems(after)
  {
    forall x | x in before ensures x in after {
      var i :| 0 <= i < |before| && before[i] == x;
      assert after[i] == x;
    }
  }

  lemma ExploredGrows(vms: seq<Vm>, before: seq<string>, after: seq<string>, from: nat)
    requires before <= after && from <= |before|
    requires Explored(vms, before, from) && Explored(vms, after, |before|)
    ensures Explored(vms, after, from)
  {
    forall k | from <= k < |after| && !HaltedAt(vms, after[k])
      ensures AllIn(DepsOf(vms, after[k]), Elems(after))
    {
      if k < |before| {
        assert after[k] == before[k];
        ElemsGrow(before, after);
      }
    }
  }

  class Gatherer {
    const master: seq<Vm>
    var flat: seq<string>  // the jeopardy list under construction
    var depth: nat         // the function's static recursion counter

    constructor (vms: seq<Vm>)
      ensures master == vms && flat == [] && depth == 0
    {
      master, flat, depth := vms, [], 0;
    }

    /** Lists the dependencies of `path`, then those of each newly listed one, depth first. */
    method Gather(path: string)
      requires DistinctPaths(master) && NoDuplicates(flat)
      modifies this
      ensures depth == old(depth)
      ensures old(flat) <= flat && NoDuplicates(flat)
      ensures Expands(master, path, depth == 0) ==> AllIn(DepsOf(master, path), Elems(flat))
      ensures Explored(master, flat, |old(flat)|)
      ensures forall c: set<string> :: Covers(master, c, path, depth == 0, old(flat)) ==> AllIn(flat, c)
      decreases DepNames(master) - Elems(flat), 1
    {
      var k := 0;
      while k < |master|
        invariant 0 <= k <= |master|
        invariant depth == old(depth)
        invariant old(flat) <= flat && NoDuplicates(flat)
        invariant Explored(master, flat, |old(flat)|)
        invariant forall c: set<string> :: Covers(master, c, path, depth == 0, old(flat)) ==> AllIn(flat, c)
        invariant forall j :: 0 <= j < k && master[j].path == path ==> AllIn(master[j].deps, Elems(flat))
      {
        var vm := master[k];
        if vm.path == path {
          FindListed(master, vm);
          if depth > 0 && Halted(vm) {
            return;
          }
          var i := 0;
          while i < |vm.deps|
            invariant 0 <= i <= |vm.deps|
            invariant depth == old(depth)
            invariant old(flat) <= flat && NoDuplicates(flat)
            invariant Explored(master, flat, |old(flat)|)
            invariant forall c: set<string> :: Covers(master, c, path, depth == 0, old(flat)) ==> AllIn(flat, c)
            invariant AllIn(vm.deps[..i], Elems(flat))
          {
            ghost var before := flat;
            assert vm.deps[i] in vm.deps && vm.deps[i] in DepNames(master);
            ElemsGrow(old(flat), flat);
            Visit(vm.deps[i]);
            ElemsGrow(before, flat);
            ExploredGrows(master, before, flat, |old(flat)|);
            i := i + 1;
          }
        }
        k := k + 1;
      }
      if Find(master, path).Some? {
        var j :| 0 <= j < |master| && master[j] == Find(master, path).value;
      }
    }

    /** Lists `dep`, unless it is listed already, and gathers from it one level deeper. */
    method Visit(dep: string)
      requires DistinctPaths(master) && NoDuplicates(flat) && dep in DepNames(master)
      modifies this
      ensures depth == old(depth)
      ensures old(flat) <= flat && NoDuplicates(flat) && dep in flat
      ensures Explored(master, flat, |old(flat)|)
      ensures forall c: set<string> ::
                AllIn(old(flat), c) && ClosedUnder(master, c) && dep in c ==> AllIn(flat, c)
      decreases DepNames(master) - Elems(flat), 0
    {
      if dep !in flat {
        flat := flat + [dep];
        assert dep in Elems(flat) && Elems(flat) == Elems(old(flat)) + {dep};
        depth := depth + 1;
        Gather(dep);
        depth := depth - 1;
        assert flat[|old(flat)|] == dep;
        forall c: set<string> | AllIn(old(flat), c) && ClosedUnder(master, c) && dep in c ensures AllIn(flat, c) {
          assert Covers(master, c, dep, false, old(flat) + [dep]);
        }
      }
    }
  }

  /** Started on an empty list, the search returns exactly the least closed set, without duplicates. */
  method GatherDependencies(vms: seq<Vm>, root: string) returns (flat: seq<string>)
    requires DistinctPaths(vms)
    ensures NoDuplicates(flat)
    ensures Elems(flat) == Needed(vms, root)
  {
    var g := new Gatherer(vms);
    g.Gather(root);
    flat := g.flat;
    NeededIsLeastClosed(vms, root);
    forall p | p in Elems(flat) && !HaltedAt(vms, p) ensures AllIn(DepsOf(vms, p), Elems(flat)) {
      var k :| 0 <= k < |flat| && flat[k] == p;
    }
    assert ClosedFrom(vms, root, Elems(flat));
    assert Covers(vms, Needed(vms, root), root, true, []);
    assert AllIn(flat, Needed(vms, root));
  }

  // ---------------------------------------------------------------------
  // What the shutdown computes: the greatest unneeded set
  // ---------------------------------------------------------------------

  /** A listed, running, non-root VM of another type than the one asked for. */
  predicate WrongKind(vms: seq<Vm>, root: string, kind: Option<string>, path: string) {
    && path != root
    && Find(vms, path).Some?
    && !Halted(Find(vms, path).value)
    && kind.Some?
    && Find(vms, path).value.kind != kind.value
  }

  /** The jeopardy list after the type filter. */
  ghost function Candidates(vms: seq<Vm>, root: string, kind: Option<string>): set<string> {
    set p | p in Needed(vms, root) && !WrongKind(vms, root, kind, p)
  }

  /** The running VMs that must stay up from the start. */
  ghost function InitiallySafe(vms: seq<Vm>, root: string, kind: Option<string>): set<string> {
    SafeAmong(vms, root, Candidates(vms, root, kind))
  }

  ghost function SafeAmong(vms: seq<Vm>, root: string, candidates: set<string>): set<string> {
    set vm | vm in vms && vm.path != root && !Halted(vm) && vm.path !in candidates :: vm.path
  }

  ghost predicate NoneIn(s: seq<string>, x: set<string>) {
    forall d :: d in s ==> d !in x
  }

  /** Nothing that stays, safe or candidate, depends on a member of x. */
  ghost predicate Unneeded(vms: seq<Vm>, safe: set<string>, candidates: set<string>, x: set<string>) {
    && x <= candidates
    && (forall p :: p in safe ==> NoneIn(DepsOf(vms, p), x))
    && (forall p :: p in candidates - x ==> NoneIn(DepsOf(vms, p), x))
  }

  ghost predicate GreatestUnneeded(vms: seq<Vm>, safe: set<string>, candidates: set<string>, x: set<string>) {
    && Unneeded(vms, safe, candidates, x)
    && forall y: set<string> :: Unneeded(vms, safe, candidates, y) ==> y <= x
  }

  /** x is the exact set that a request to shut down root's dependencies takes down. */
  ghost predicate ShutdownSet(vms: seq<Vm>, root: string, kind: Option<string>, x: set<string>) {
    GreatestUnneeded(vms, InitiallySafe(vms, root, kind), Candidates(vms, root, kind), x)
  }

  // ---------------------------------------------------------------------
  // shutdown_dependencies_of_vm
  // ---------------------------------------------------------------------

  /** list_del of the entry that carries x. */
  function Remove(s: seq<string>, x: string): (r: seq<string>)
    requires x in s && NoDuplicates(s)
    ensures forall y :: y in r <==> y in s && y != x
    ensures NoDuplicates(r) && |r| == |s| - 1
  {
    assert s == [s[0]] + s[1..];
    if s[0] == x then s[1..] else
    var rest := Remove(s[1..], x);
    assert s[0] !in s[1..];
    [s[0]] + rest
  }

  lemma {:induction false} FindAppend(vms: seq<Vm>, vm: Vm, path: string)
    ensures Find(vms + [vm], path) ==
            if Find(vms, path).Some? then Find(vms, path) else if vm.path == path then Some(vm) else None
  {
    if vms == [] {
      assert vms + [vm] == [vm];
    } else {
      assert (vms + [vm])[1..] == vms[1..] + [vm];
      FindAppend(vms[1..], vm, path);
    }
  }

  lemma FilterStep(vms: seq<Vm>, vm: Vm, root: string, kind: Option<string>, candidates: set<string>)
    requires DistinctPaths(vms + [vm])
    ensures forall p :: WrongKind(vms + [vm], root, kind, p) <==>
                        WrongKind(vms, root, kind, p) || (p == vm.path && WrongKind([vm], root, kind, p))
    ensures !WrongKind(vms, root, kind, vm.path)
    ensures SafeAmong(vms + [vm], root, candidates) ==
            SafeAmong(vms, root, candidates) + SafeAmong([vm], root, candidates)
  {
    forall other | other in vms ensures other.path != vm.path {
      var i :| 0 <= i < |vms| && vms[i] == other;
      assert (vms + [vm])[i] == other && (vms + [vm])[|vms|] == vm;
    }
    assert Find(vms, vm.path).None?;
    forall p ensures WrongKind(vms + [vm], root, kind, p) <==>
                     WrongKind(vms, root, kind, p) || (p == vm.path && WrongKind([vm], root, kind, p))
    {
      FindAppend(vms, vm, p);
      assert Find([vm], p) == if vm.path == p then Some(vm) else None;
    }
  }

  // What the filter keeps true: the first rows of the master list have been looked at.
  ghost predicate Filtered(rows: seq<Vm>, root: string, kind: Option<string>, gathered: seq<string>,
                           candidates: set<string>, jeopardy: seq<string>, safe: seq<string>) {
    && NoDuplicates(jeopardy)
    && (forall p :: p in jeopardy <==> p in gathered && !WrongKind(rows, root, kind, p))
    && (forall p :: p in safe <==> p in SafeAmong(rows, root, candidates))
  }

  /** One row: a running VM other than the root leaves jeopardy if its type is wrong, and is safe if not in jeopardy. */
  method FilterRow(ghost rows: seq<Vm>, vm: Vm, root: string, kind: Option<string>, ghost gathered: seq<string>,
                   ghost candidates: set<string>, jeopardy: seq<string>, safe: seq<string>)
    returns (jeopardy': seq<string>, safe': seq<string>)
    requires DistinctPaths(rows + [vm]) && Filtered(rows, root, kind, gathered, candidates, jeopardy, safe)
    requires vm.path in candidates <==> vm.path in gathered && !WrongKind([vm], root, kind, vm.path)
    ensures Filtered(rows + [vm], root, kind, gathered, candidates, jeopardy', safe')
    ensures safe <= safe' && (safe == [] && safe' != [] ==> safe'[0] == vm.path)
  {
    hide Halted;
    FilterStep(rows, vm, root, kind, candidates);
    FindAppend([], vm, vm.path);
    assert [] + [vm] == [vm];
    jeopardy', safe' := jeopardy, safe;
    if vm.path != root && !Halted(vm) {
      var inJeopardy := false;
      if vm.path in jeopardy {
        if kind.Some? && vm.kind != kind.value {
          jeopardy' := Remove(jeopardy, vm.path);
        } else {
          inJeopardy := true;
        }
      }
      if !inJeopardy {
        safe' := safe + [vm.path];
      }
    }
  }

  lemma CandidateRow(vms: seq<Vm>, root: string, kind: Option<string>, gathered: seq<string>, vm: Vm)
    requires DistinctPaths(vms) && vm in vms && Elems(gathered) == Needed(vms, root)
    ensures vm.path in Candidates(vms, root, kind) <==> vm.path in gathered && !WrongKind([vm], root, kind, vm.path)
  {
    FindListed(vms, vm);
    assert vm.path in Elems(gathered) <==> vm.path in gathered;
  }

  /** Splits the running VMs: candidates stay in jeopardy, all others are safe. */
  method FilterJeopardy(vms: seq<Vm>, root: string, kind: Option<string>, gathered: seq<string>)
    returns (jeopardy: seq<string>, safe: seq<string>)
    requires DistinctPaths(vms) && NoDuplicates(gathered)
    requires Elems(gathered) == Needed(vms, root)
    ensures NoDuplicates(jeopardy)
    ensures Elems(jeopardy) == Candidates(vms, root, kind)
    ensures Elems(safe) == InitiallySafe(vms, root, kind)
    ensures safe != [] ==> Find(vms, safe[0]).Some?
  {
    ghost var candidates := Candidates(vms, root, kind);
    jeopardy, safe := gathered, [];
    var k := 0;
    while k < |vms|
      invariant 0 <= k <= |vms|
      invariant Filtered(vms[..k], root, kind, gathered, candidates, jeopardy, safe)
      invariant safe != [] ==> Find(vms, safe[0]).Some?
    {
      hide Filtered, WrongKind, Candidates, Needed;
      assert vms[..k + 1] == vms[..k] + [vms[k]];
      CandidateRow(vms, root, kind, gathered, vms[k]);
      FindListed(vms, vms[k]);
      jeopardy, safe := FilterRow(vms[..k], vms[k], root, kind, gathered, candidates, jeopardy, safe);
      k := k + 1;
    }
    assert vms[..k] == vms;
    assert forall p :: p in Elems(gathered) <==> p in Needed(vms, root);
  }

  // What the worklist keeps true: `i` safe entries have had their dependencies rescued.
  ghost predicate Rescued(vms: seq<Vm>, safe0: set<string>, candidates: set<string>,
                          jeopardy: seq<string>, safe: seq<string>, i: nat)
    requires i <= |safe|
  {
    && NoDuplicates(jeopardy)
    && Elems(jeopardy) <= candidates
    && Elems(safe) == safe0 + (candidates - Elems(jeopardy))
    && (forall k :: 0 <= k < i ==> NoneIn(DepsOf(vms, safe[k]), Elems(jeopardy)))
    && (forall y: set<string> :: Unneeded(vms, safe0, candidates, y) ==> y <= Elems(jeopardy))
  }

  // Moving a dependency of a safe entry out of jeopardy never loses an unneeded VM.
  lemma MoveKeepsRescued(vms: seq<Vm>, safe0: set<string>, candidates: set<string>,
                         jeopardy: seq<string>, safe: seq<string>, i: nat, dep: string)
    requires i < |safe| && dep in DepsOf(vms, safe[i]) && NoDuplicates(jeopardy) && dep in jeopardy
    requires Rescued(vms, safe0, candidates, jeopardy, safe, i)
    ensures Rescued(vms, safe0, candidates, Remove(jeopardy, dep), safe + [dep], i)
  {
    var after := Remove(jeopardy, dep);
    assert Elems(after) == Elems(jeopardy) - {dep};
    assert Elems(safe + [dep]) == Elems(safe) + {dep};
    forall k | 0 <= k < i ensures NoneIn(DepsOf(vms, (safe + [dep])[k]), Elems(after)) {
      assert NoneIn(DepsOf(vms, safe[k]), Elems(jeopardy));
    }
    forall y: set<string> | Unneeded(vms, safe0, candidates, y) ensures y <= Elems(after) {
      assert safe[i] in Elems(safe);
      assert safe[i] in safe0 || safe[i] in candidates - y;
      assert NoneIn(DepsOf(vms, safe[i]), y);
    }
  }

  /** Moves to the safe list every dependency of its entry `i` that is still in jeopardy. */
  method Rescue(vms: seq<Vm>, ghost safe0: set<string>, ghost candidates: set<string>,
                jeopardy: seq<string>, safe: seq<string>, i: nat, deps: seq<string>)
    returns (jeopardy': seq<string>, safe': seq<string>)
    requires i < |safe| && Rescued(vms, safe0, candidates, jeopardy, safe, i)
    requires deps == DepsOf(vms, safe[i])
             || (DepsOf(vms, safe[i]) == [] && NoneIn(deps, Elems(jeopardy)))
    ensures safe <= safe' && |jeopardy'| + |safe'| == |jeopardy| + |safe|
    ensures Rescued(vms, safe0, candidates, jeopardy', safe', i + 1)
    ensures NoneIn(deps, Elems(jeopardy'))
  {
    jeopardy', safe' := jeopardy, safe;
    var j := 0;
    while j < |deps|
      invariant 0 <= j <= |deps|
      invariant safe <= safe' && |jeopardy'| + |safe'| == |jeopardy| + |safe|
      invariant Rescued(vms, safe0, candidates, jeopardy', safe', i)
      invariant deps != DepsOf(vms, safe[i]) ==> jeopardy' == jeopardy
      invariant NoneIn(deps[..j], Elems(jeopardy'))
    {
      var dep := deps[j];
      assert deps[..j + 1] == deps[..j] + [dep];
      if dep in jeopardy' {
        assert dep in Elems(jeopardy') && dep in deps;
        MoveKeepsRescued(vms, safe0, candidates, jeopardy', safe', i, dep);
        jeopardy', safe' := Remove(jeopardy', dep), safe' + [dep];
      }
      j := j + 1;
    }
    assert deps[..j] == deps;
  }

  // Once every safe entry is processed, what is left in jeopardy is unneeded.
  lemma WorklistDone(vms: seq<Vm>, safe0: set<string>, candidates: set<string>,
                     jeopardy: seq<string>, safe: seq<string>)
    requires Rescued(vms, safe0, candidates, jeopardy, safe, |safe|)
    ensures GreatestUnneeded(vms, safe0, candidates, Elems(jeopardy))
  {
    forall p | p in safe0 + (candidates - Elems(jeopardy)) ensures NoneIn(DepsOf(vms, p), Elems(jeopardy)) {
      assert p in Elems(safe);
      var k :| 0 <= k < |safe| && safe[k] == p;
    }
  }

  /** Shuts down every dependency of root, of the given type if any, that nothing else still needs. */
  method ShutdownDependencies(vms: seq<Vm>, root: string, kind: Option<string>) returns (shut: seq<string>)
    requires DistinctPaths(vms)
    ensures NoDuplicates(shut)
    ensures ShutdownSet(vms, root, kind, Elems(shut))
  {
    var jeopardy := GatherDependencies(vms, root);
    if jeopardy == [] {
      assert Candidates(vms, root, kind) == {};
      return [];
    }
    ghost var safe0, candidates := InitiallySafe(vms, root, kind), Candidates(vms, root, kind);
    var safe;
    jeopardy, safe := FilterJeopardy(vms, root, kind, jeopardy);

    var cached: Option<seq<string>> := None;  // deliberately not reset between iterations
    var i := 0;
    while i < |safe|
      invariant 0 <= i <= |safe|
      invariant Rescued(vms, safe0, candidates, jeopardy, safe, i)
      invariant i == 0 && safe != [] ==> Find(vms, safe[0]).Some?
      invariant i > 0 ==> cached.Some? && NoneIn(cached.value, Elems(jeopardy))
      decreases |jeopardy| + |safe| - i
    {
      var entry := Find(vms, safe[i]);
      if entry.Some? {
        cached := Some(entry.value.deps);
      }
      // An unlisted entry inherits its predecessor's list, whose members have all
      // been rescued; the first entry is always listed, so the list is never null.
      jeopardy, safe := Rescue(vms, safe0, candidates, jeopardy, safe, i, cached.value);
      i := i + 1;
    }
    WorklistDone(vms, safe0, candidates, jeopardy, safe);
    shut := jeopardy;
  }

  // ---------------------------------------------------------------------
  // What the exact characterisation gives
  // ---------------------------------------------------------------------

  /** The specification determines the answer: at most one set satisfies it. */
  lemma ShutdownSetIsUnique(vms: seq<Vm>, root: string, kind: Option<string>, x: set<string>, y: set<string>)
    requires ShutdownSet(vms, root, kind, x) && ShutdownSet(vms, root, kind, y)
    ensures x == y
  {
    assert x <= y <= x;
  }

  /**
    Safety on every graph: a running VM other than the root that survives keeps all
    its direct dependencies, and a running non-root VM goes down only if it has the
    requested type and the root transitively needs it.
   */
  lemma ShutdownSafety(vms: seq<Vm>, root: string, kind: Option<string>, x: set<string>, vm: Vm)
    requires DistinctPaths(vms) && ShutdownSet(vms, root, kind, x)
    requires vm in vms && !Halted(vm) && vm.path != root
    ensures vm.path !in x ==> forall d :: d in vm.deps ==> d !in x
    ensures vm.path in x ==> vm.path in Needed(vms, root) && (kind.Some? ==> vm.kind == kind.value)
  {
    FindListed(vms, vm);
    if vm.path !in x {
      assert vm.path in InitiallySafe(vms, root, kind) || vm.path in Candidates(vms, root, kind) - x;
      assert NoneIn(DepsOf(vms, vm.path), x);
    }
  }

  /**
    Who may go down, row by row: what the root transitively needs, except running VMs of
    another type than the one asked for, if one is; the root itself is never excepted.
   */
  lemma CandidatesIff(vms: seq<Vm>, root: string, kind: Option<string>, path: string)
    requires DistinctPaths(vms)
    ensures path in Candidates(vms, root, kind) <==>
            && path in Needed(vms, root)
            && forall vm :: vm in vms && vm.path == path != root && vm.state != "stopping" && vm.state != "stopped" ==>
                 kind == None || kind == Some(vm.kind)
  {
    if Find(vms, path).Some? {
      var vm := Find(vms, path).value;
      assert vm in vms && vm.path == path;
      forall other | other in vms && other.path == path ensures other == vm {
        FindListed(vms, other);
      }
    }
  }

  /** Who must stay up from the start: the running VMs other than the root that may not go down. */
  lemma SafeIff(vms: seq<Vm>, root: string, kind: Option<string>, path: string)
    ensures path in InitiallySafe(vms, root, kind) <==>
            && path != root && path !in Candidates(vms, root, kind)
            && exists vm :: vm in vms && vm.path == path && vm.state != "stopping" && vm.state != "stopped"
  {
  }

  /** A running dependency that nothing else needs goes down, when no type is asked for or its own is. */
  lemma RunningDependencyIsShutDown(kind: Option<string>)
    ensures var vms := [Vm("r", "running", "a", ["d"]), Vm("d", "running", "b", [])];
            ShutdownSet(vms, "r", kind, if kind == None || kind == Some("b") then {"d"} else {})
  {
    var r, d := Vm("r", "running", "a", ["d"]), Vm("d", "running", "b", []);
    var vms := [r, d];
    assert vms[0].path == "r" && vms[1].path == "d" && "r" != "d";
    FindListed(vms, r);
    FindListed(vms, d);
    NeededIsLeastClosed(vms, "r");
    assert "d" in DepsOf(vms, "r");
    assert DepNames(vms) == {"d"};
    assert Needed(vms, "r") == {"d"};
    CandidatesIff(vms, "r", kind, "d");
    SafeIff(vms, "r", kind, "d");
    assert forall p :: p in InitiallySafe(vms, "r", kind) ==> p == "d";
  }

  /** A chain of direct dependencies that starts at a safe VM and then stays among the candidates. */
  ghost predicate RescueChain(vms: seq<Vm>, safe: set<string>, candidates: set<string>, chain: seq<string>) {
    && |chain| > 1
    && chain[0] in safe
    && (forall k :: 1 <= k < |chain| ==> chain[k] in candidates)
    && (forall k :: 1 <= k < |chain| ==> chain[k] in DepsOf(vms, chain[k - 1]))
  }

  ghost predicate HasChain(vms: seq<Vm>, safe: set<string>, candidates: set<string>, path: string) {
    exists chain :: RescueChain(vms, safe, candidates, chain) && chain[|chain| - 1] == path
  }

  lemma {:induction false} ChainEscapes(vms: seq<Vm>, safe: set<string>, candidates: set<string>, x: set<string>,
                                        chain: seq<string>, k: nat)
    requires Unneeded(vms, safe, candidates, x) && RescueChain(vms, safe, candidates, chain)
    requires 1 <= k < |chain|
    ensures chain[k] !in x
  {
    if k == 1 {
      assert NoneIn(DepsOf(vms, chain[0]), x);
    } else {
      ChainEscapes(vms, safe, candidates, x, chain, k - 1);
      assert chain[k - 1] in candidates - x;
    }
  }

  lemma ChainExtends(vms: seq<Vm>, safe: set<string>, candidates: set<string>, p: string, d: string)
    requires d in DepsOf(vms, p) && d in candidates
    requires p in safe || HasChain(vms, safe, candidates, p)
    ensures HasChain(vms, safe, candidates, d)
  {
    var chain := [p];
    if p !in safe {
      chain :| RescueChain(vms, safe, candidates, chain) && chain[|chain| - 1] == p;
    }
    var longer := chain + [d];
    assert RescueChain(vms, safe, candidates, longer) && longer[|longer| - 1] == d;
  }

  lemma UnreachedIsUnneeded(vms: seq<Vm>, safe: set<string>, candidates: set<string>, free: set<string>)
    requires free == set p | p in candidates && !HasChain(vms, safe, candidates, p)
    ensures Unneeded(vms, safe, candidates, free)
  {
    forall p, d | (p in safe || p in candidates - free) && d in DepsOf(vms, p) ensures d !in free {
      if d in candidates {
        ChainExtends(vms, safe, candidates, p, d);
      }
    }
  }

  /** A candidate is shut down if and only if no dependency chain from a safe VM reaches it. */
  lemma ShutDownIffUnreached(vms: seq<Vm>, root: string, kind: Option<string>, x: set<string>, path: string)
    requires ShutdownSet(vms, root, kind, x)
    ensures path in x <==>
            path in Candidates(vms, root, kind)
            && !HasChain(vms, InitiallySafe(vms, root, kind), Candidates(vms, root, kind), path)
  {
    var safe, candidates := InitiallySafe(vms, root, kind), Candidates(vms, root, kind);
    if HasChain(vms, safe, candidates, path) {
      var chain :| RescueChain(vms, safe, candidates, chain) && chain[|chain| - 1] == path;
      ChainEscapes(vms, safe, candidates, x, chain, |chain| - 1);
    }
    UnreachedIsUnneeded(vms, safe, candidates, set p | p in candidates && !HasChain(vms, safe, candidates, p));
  }

  /**
    The header comment promises that a stopped VM is never shut down.  The code keeps
    it in jeopardy: here the only dependency of "r" is stopped and still goes down.
   */
  lemma StoppedVmIsShutDown()
    ensures var vms := [Vm("r", "running", "", ["d"]), Vm("d", "stopped", "", [])];
            DistinctPaths(vms) && ShutdownSet(vms, "r", None, {"d"})
  {
    var r, d := Vm("r", "running", "", ["d"]), Vm("d", "stopped", "", []);
    var vms := [r, d];
    assert vms[0].path == "r" && vms[1].path == "d" && "r" != "d";
    FindListed(vms, r);
    FindListed(vms, d);
    NeededIsLeastClosed(vms, "r");
    assert "d" in DepsOf(vms, "r");
    assert DepNames(vms) == {"d"};
    assert Needed(vms, "r") == {"d"};
    assert Candidates(vms, "r", None) == {"d"};
    assert InitiallySafe(vms, "r", None) == {};
  }

  /**
    A stopping VM is not expanded: r needs d, which is stopping and needs the running e.
    d goes down with r's request and e survives.
   */
  lemma StoppingVmIsNotExpanded()
    ensures var vms := [Vm("r", "running", "", ["d"]), Vm("d", "stopping", "", ["e"]), Vm("e", "running", "", [])];
            DistinctPaths(vms) && Needed(vms, "r") == {"d"} && ShutdownSet(vms, "r", None, {"d"})
  {
    var r, d, e := Vm("r", "running", "", ["d"]), Vm("d", "stopping", "", ["e"]), Vm("e", "running", "", []);
    var vms := [r, d, e];
    assert vms[0].path == "r" && vms[1].path == "d" && vms[2].path == "e" && "r" != "d" && "d" != "e" && "e" != "r";
    FindListed(vms, r);
    FindListed(vms, d);
    FindListed(vms, e);
    NeededIsLeastClosed(vms, "r");
    assert "d" in DepsOf(vms, "r");
    assert ClosedFrom(vms, "r", {"d"});
    assert Needed(vms, "r") == {"d"};
    assert Candidates(vms, "r", None) == {"d"};
    assert InitiallySafe(vms, "r", None) == {"e"};
  }

  /** The promise holds exactly when every stopping or stopped candidate is rescued by a chain. */
  lemma NoHaltedVmShutDownIff(vms: seq<Vm>, root: string, kind: Option<string>, x: set<string>)
    requires ShutdownSet(vms, root, kind, x)
    ensures (forall p :: p in x ==> !HaltedAt(vms, p)) <==>
            forall p :: p in Candidates(vms, root, kind) && HaltedAt(vms, p) ==>
              HasChain(vms, InitiallySafe(vms, root, kind), Candidates(vms, root, kind), p)
  {
    forall p
      ensures p in x <==>
              p in Candidates(vms, root, kind)
              && !HasChain(vms, InitiallySafe(vms, root, kind), Candidates(vms, root, kind), p)
    {
      ShutDownIffUnreached(vms, root, kind, x, p);
    }
  }
}
