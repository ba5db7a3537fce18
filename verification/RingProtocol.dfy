/**
  The command ring as a concurrent protocol: a producer that publishes whole
  commands and a reader that runs ring_read for one command at a time, one load of
  req_prod or one store per step (audio-daemon/src/ring.c and the loop around it in
  audio-daemon/src/audio-daemon.c).  The reader loads req_cons in the same step as
  req_prod; only the reader writes req_cons, so a separate load would see the same value.
 */
module RingProtocol {
  import opened Options
  import opened ByteRing

  /** sizeof(struct fe_cmd). */
  const COMMAND: nat := 16

  /** Where the reader is inside the loop of ring_read. */
  datatype Reader =
    | Head                         // about to test for data
    | Ready                        // saw data, about to load the indexes
    | Loaded(c: Index, p: Index)   // holds a snapshot, possibly stale in p
    | Copied(n: nat)               // copied n bytes, about to publish req_cons

  datatype State = State(
    buf: seq<Byte>, cons: Index, prod: Index,
    staged: Option<seq<Byte>>,     // written to the buffer, not yet published
    reader: Reader,
    got: seq<Byte>,                // bytes of the command being read
    published: seq<seq<Byte>>,     // history: commands published
    received: seq<seq<Byte>>)      // history: commands returned by ring_read

  /** The buffer after m is stored from the slot of `at` on, wrapping around its end. */
  function Store(buf: seq<Byte>, at: Index, m: seq<Byte>): (r: seq<Byte>)
    requires |buf| == SIZE
    ensures |r| == SIZE
  {
    seq(SIZE, j requires 0 <= j < SIZE => var k := Mask(j - at); if k < |m| then m[k] else buf[j])
  }

  ghost predicate Init(s: State) {
    && |s.buf| == SIZE && s.cons == s.prod == 0
    && s.staged == None && s.reader == Head
    && s.got == [] && s.published == [] && s.received == []
  }

  // ---------------------------------------------------------------------
  // Steps, for commands of `size` bytes
  // ---------------------------------------------------------------------

  ghost predicate Stage(size: nat, s: State, t: State, m: seq<Byte>) {
    && s.staged == None && |m| == size && |s.buf| == SIZE
    && Distance(s.cons, s.prod) + size <= SIZE
    && t == s.(buf := Store(s.buf, s.prod, m), staged := Some(m))
  }

  ghost predicate Publish(s: State, t: State) {
    && s.staged.Some?
    && t == s.(prod := Advance(s.prod, |s.staged.value|), staged := None, published := s.published + [s.staged.value])
  }

  /** No data: ring_read returns 0 and whatever it had copied is dropped. */
  ghost predicate ReturnEmpty(s: State, t: State) {
    && s.reader == Head && s.cons == s.prod
    && t == s.(got := [])
  }

  ghost predicate SeeData(s: State, t: State) {
    && s.reader == Head && s.cons != s.prod
    && t == s.(reader := Ready)
  }

  ghost predicate LoadIndexes(s: State, t: State) {
    && s.reader == Ready
    && t == s.(reader := Loaded(s.cons, s.prod))
  }

  /** The indexes look corrupt: reset both and return -1. */
  ghost predicate ResetIndexes(s: State, t: State) {
    && s.reader.Loaded? && !IndexesValid(s.reader.c, s.reader.p)
    && t == s.(cons := 0, prod := 0, reader := Head, got := [])
  }

  /** An empty chunk: go round the loop again. */
  ghost predicate Retry(s: State, t: State) {
    && s.reader.Loaded? && IndexesValid(s.reader.c, s.reader.p)
    && InputChunk(s.reader.c, s.reader.p) == 0
    && t == s.(reader := Head)
  }

  ghost predicate Copy(size: nat, s: State, t: State) {
    && s.reader.Loaded? && IndexesValid(s.reader.c, s.reader.p)
    && |s.buf| == SIZE && |s.got| <= size
    && var chunk := InputChunk(s.reader.c, s.reader.p);
       var n := if chunk > size - |s.got| then size - |s.got| else chunk;
       && chunk > 0
       && t == s.(reader := Copied(n), got := s.got + s.buf[Mask(s.reader.c)..Mask(s.reader.c) + n])
  }

  /** Hands the bytes back to the producer; a full command ends the call. */
  ghost predicate Consume(size: nat, s: State, t: State) {
    && s.reader.Copied?
    && var moved := s.(cons := Advance(s.cons, s.reader.n), reader := Head);
       t == if |s.got| == size then moved.(got := [], received := s.received + [s.got]) else moved
  }

  ghost predicate Next(size: nat, s: State, t: State) {
    || (exists m :: Stage(size, s, t, m)) || Publish(s, t)
    || ReturnEmpty(s, t) || SeeData(s, t) || LoadIndexes(s, t)
    || ResetIndexes(s, t) || Retry(s, t) || Copy(size, s, t) || Consume(size, s, t)
  }

  ghost predicate Run(size: nat, states: seq<State>) {
    && states != [] && Init(states[0])
    && forall i :: 0 <= i < |states| - 1 ==> Next(size, states[i], states[i + 1])
  }

  // ---------------------------------------------------------------------
  // The invariant: nothing is lost, duplicated or reordered
  // ---------------------------------------------------------------------

  function Flat(ms: seq<seq<Byte>>): seq<Byte> {
    if ms == [] then [] else ms[0] + Flat(ms[1..])
  }

  ghost predicate AllSized(size: nat, ms: seq<seq<Byte>>) {
    forall i :: 0 <= i < |ms| ==> |ms[i]| == size
  }

  /** Bytes of `got` whose consumption has been published. */
  ghost function Released(s: State): seq<Byte> {
    if s.reader.Copied? && s.reader.n <= |s.got| then s.got[..|s.got| - s.reader.n] else s.got
  }

  ghost predicate ReaderInv(size: nat, s: State)
    requires |s.buf| == SIZE
  {
    var queue := Pending(s.buf, s.cons, s.prod);
    match s.reader
    case Head => |s.got| < size
    case Ready => |s.got| < size && s.cons != s.prod
    case Loaded(c, p) =>
      |s.got| < size && c == s.cons && 0 < Distance(c, p) <= Distance(s.cons, s.prod)
    case Copied(n) =>
      0 < n <= |s.got| <= size && n <= InputChunk(s.cons, s.prod) && s.got[|s.got| - n..] == queue[..n]
  }

  ghost predicate StagedInv(size: nat, s: State)
    requires |s.buf| == SIZE
  {
    s.staged.Some? ==>
      && |s.staged.value| == size && Distance(s.cons, s.prod) + size <= SIZE
      && forall k :: 0 <= k < size ==> s.buf[Mask(s.prod + k)] == s.staged.value[k]
  }

  ghost predicate Inv(size: nat, s: State) {
    && |s.buf| == SIZE && IndexesValid(s.cons, s.prod)
    && AllSized(size, s.published) && AllSized(size, s.received)
    && ReaderInv(size, s) && StagedInv(size, s)
    && Flat(s.published) == Flat(s.received) + Released(s) + Pending(s.buf, s.cons, s.prod)
  }

  lemma {:induction false} FlatAppend(ms: seq<seq<Byte>>, m: seq<Byte>)
    ensures Flat(ms + [m]) == Flat(ms) + m
  {
    if ms == [] {
      assert ms + [m] == [m];
    } else {
      assert (ms + [m])[1..] == ms[1..] + [m];
      FlatAppend(ms[1..], m);
    }
  }

  // A queued slot lies at least as far behind the producer's slot as free space allows.
  lemma BehindProducer(cons: Index, prod: Index, k: nat)
    requires k < Distance(cons, prod) <= SIZE
    ensures Mask(Mask(cons + k) - prod) == SIZE - (Distance(cons, prod) - k)
            || (k == 0 && Distance(cons, prod) == SIZE)
  {
    SameSlot(cons, prod, k);
    MaskBack(prod, Distance(cons, prod) - k);
  }

  lemma AheadOfProducer(prod: Index, k: nat)
    requires k < SIZE
    ensures Mask(Mask(prod + k) - prod) == k
  {
  }

  lemma StoreKeepsPending(buf: seq<Byte>, cons: Index, prod: Index, m: seq<Byte>)
    requires |buf| == SIZE && Distance(cons, prod) + |m| <= SIZE
    ensures Pending(Store(buf, prod, m), cons, prod) == Pending(buf, cons, prod)
    ensures forall k :: 0 <= k < |m| ==> Store(buf, prod, m)[Mask(prod + k)] == m[k]
  {
    var before, after := Pending(buf, cons, prod), Pending(Store(buf, prod, m), cons, prod);
    forall k | 0 <= k < |before| ensures after[k] == before[k] {
      BehindProducer(cons, prod, k);
    }
    forall k | 0 <= k < |m| ensures Store(buf, prod, m)[Mask(prod + k)] == m[k] {
      AheadOfProducer(prod, k);
    }
  }

  lemma PublishExtends(buf: seq<Byte>, cons: Index, prod: Index, m: seq<Byte>)
    requires |buf| == SIZE && Distance(cons, prod) + |m| <= SIZE
    requires forall k :: 0 <= k < |m| ==> buf[Mask(prod + k)] == m[k]
    ensures Distance(cons, Advance(prod, |m|)) == Distance(cons, prod) + |m|
    ensures Pending(buf, cons, Advance(prod, |m|)) == Pending(buf, cons, prod) + m
  {
    AdvanceProd(cons, prod, |m|);
    var d := Distance(cons, prod);
    var q := Pending(buf, cons, Advance(prod, |m|));
    forall k | d <= k < d + |m| ensures q[k] == m[k - d] {
      SameSlot(cons, prod, k);
    }
  }

  lemma StageInv(size: nat, s: State, t: State, m: seq<Byte>)
    requires Inv(size, s) && Stage(size, s, t, m)
    ensures Inv(size, t)
  {
    StoreKeepsPending(s.buf, s.cons, s.prod, m);
  }

  // Publishing more never invalidates what the reader relies on.
  lemma ReaderInvGrows(size: nat, s: State, t: State)
    requires |s.buf| == SIZE && ReaderInv(size, s)
    requires t.buf == s.buf && t.cons == s.cons && t.reader == s.reader && t.got == s.got
    requires Pending(s.buf, s.cons, s.prod) <= Pending(t.buf, t.cons, t.prod)
    ensures ReaderInv(size, t)
  {
    assert Distance(s.cons, s.prod) <= Distance(t.cons, t.prod);
  }

  lemma AppendLast(a: seq<Byte>, b: seq<Byte>, c: seq<Byte>)
    ensures a + (b + c) == a + b + c
  {
  }

  lemma PublishInv(size: nat, s: State, t: State)
    requires Inv(size, s) && Publish(s, t)
    ensures Inv(size, t)
  {
    var m := s.staged.value;
    var before, after := Pending(s.buf, s.cons, s.prod), Pending(t.buf, t.cons, t.prod);
    PublishExtends(s.buf, s.cons, s.prod, m);
    assert after == before + m;
    ReaderInvGrows(size, s, t);
    FlatAppend(s.published, m);
    AppendLast(Flat(s.received) + Released(s), before, m);
  }

  lemma SplitTail(a: seq<Byte>, b: seq<Byte>)
    ensures (a + b)[|a + b| - |b|..] == b && (a + b)[..|a + b| - |b|] == a
  {
  }

  // A chunk of a stale snapshot is still readable.
  lemma StaleChunk(cons: Index, prod: Index, p: Index)
    requires Distance(cons, p) <= Distance(cons, prod)
    ensures InputChunk(cons, p) <= InputChunk(cons, prod)
  {
  }

  lemma StagedSame(size: nat, s: State, t: State)
    requires |s.buf| == SIZE && StagedInv(size, s)
    requires t.buf == s.buf && t.prod == s.prod && t.staged == s.staged
    requires Distance(t.cons, t.prod) <= Distance(s.cons, s.prod)
    ensures StagedInv(size, t)
  {
  }

  lemma CopyInv(size: nat, s: State, t: State)
    requires Inv(size, s) && Copy(size, s, t)
    ensures Inv(size, t)
  {
    hide Flat, AllSized, StagedInv, InputChunk, Distance, Mask;
    var n := t.reader.n;
    StaleChunk(s.cons, s.prod, s.reader.p);
    ReadChunk(s.buf, s.cons, s.prod, n);
    var chunk := s.buf[Mask(s.cons)..Mask(s.cons) + n];
    SplitTail(s.got, chunk);
    assert t.got == s.got + chunk && |chunk| == n;
    assert ReaderInv(size, t);
    assert Released(t) == s.got == Released(s);
    StagedSame(size, s, t);
  }

  lemma Regroup(a: seq<Byte>, got: seq<Byte>, queue: seq<Byte>, n: nat)
    requires n <= |got| && n <= |queue| && got[|got| - n..] == queue[..n]
    ensures a + got[..|got| - n] + queue == a + got + queue[n..]
  {
    var kept := got[..|got| - n];
    assert got == kept + queue[..n];
    assert queue == queue[..n] + queue[n..];
  }

  lemma ConsumeInv(size: nat, s: State, t: State)
    requires size > 0 && Inv(size, s) && Consume(size, s, t)
    ensures Inv(size, t)
  {
    hide Flat, StagedInv, InputChunk, Distance, Mask, Advance;
    var n := s.reader.n;
    var queue := Pending(s.buf, s.cons, s.prod);
    ChunkFits(s.cons, s.prod);
    ReadChunk(s.buf, s.cons, s.prod, n);
    AdvanceCons(s.cons, s.prod, n);
    StagedSame(size, s, t);
    Regroup(Flat(s.received), s.got, queue, n);
    FlatAppend(s.received, s.got);
    assert Pending(t.buf, t.cons, t.prod) == queue[n..];
    assert ReaderInv(size, t) && AllSized(size, t.received);
    assert Flat(t.received) + Released(t) == Flat(s.received) + s.got;
  }

  // ---------------------------------------------------------------------
  // What the invariant says about the two histories
  // ---------------------------------------------------------------------

  /** Equally sized commands are recovered from their concatenation. */
  lemma {:induction false} FlatPrefix(size: nat, published: seq<seq<Byte>>, received: seq<seq<Byte>>, tail: seq<Byte>)
    requires size > 0 && AllSized(size, published) && AllSized(size, received)
    requires Flat(published) == Flat(received) + tail
    ensures received <= published
    ensures |tail| < size ==> received == published && tail == []
  {
    if received != [] {
      assert |Flat(published)| >= size;
      assert published != [];
      assert published[0] == Flat(published)[..size] == received[0];
      assert Flat(published[1..]) == Flat(published)[size..] == Flat(received[1..]) + tail;
      FlatPrefix(size, published[1..], received[1..], tail);
      assert published == [published[0]] + published[1..] && received == [received[0]] + received[1..];
    }
  }

  /** Valid indexes are never reset and the retry of an empty chunk never happens. */
  lemma NoResetNoRetry(size: nat, s: State, t: State)
    requires Inv(size, s)
    ensures !ResetIndexes(s, t) && !Retry(s, t)
  {
  }

  /** A read that finds no data has dropped nothing and has delivered every published command. */
  lemma EmptyMeansDrained(size: nat, s: State, t: State)
    requires size > 0 && Inv(size, s) && ReturnEmpty(s, t)
    ensures s.got == [] && s.received == s.published
  {
    assert Pending(s.buf, s.cons, s.prod) == [];
    FlatPrefix(size, s.published, s.received, s.got);
  }

  lemma NextInv(size: nat, s: State, t: State)
    requires 0 < size <= SIZE && Inv(size, s) && Next(size, s, t)
    ensures Inv(size, t)
  {
    hide Stage, Publish, Copy, Consume, ResetIndexes, Retry, Flat, AllSized, Mask, InputChunk;
    NoResetNoRetry(size, s, t);
    if m :| Stage(size, s, t, m) {
      StageInv(size, s, t, m);
    } else if Publish(s, t) {
      PublishInv(size, s, t);
    } else if Copy(size, s, t) {
      CopyInv(size, s, t);
    } else if Consume(size, s, t) {
      ConsumeInv(size, s, t);
    } else if ReturnEmpty(s, t) {
      EmptyMeansDrained(size, s, t);
    }
  }

  lemma {:induction false} RunInv(size: nat, states: seq<State>, i: nat)
    requires 0 < size <= SIZE && Run(size, states) && i < |states|
    ensures Inv(size, states[i])
  {
    if i == 0 {
      var s := states[0];
      assert Pending(s.buf, s.cons, s.prod) == [];
    } else {
      RunInv(size, states, i - 1);
      NextInv(size, states[i - 1], states[i]);
    }
  }

  /**
    In every interleaving of producer and reader steps, and for every command size
    that fits the ring, the commands received are always a prefix of the commands
    published, across buffer wrap and 32-bit index wrap; and whenever ring_read
    finds nothing to read it has delivered them all.
   */
  lemma FifoDelivery(size: nat, states: seq<State>, i: nat)
    requires 0 < size <= SIZE && Run(size, states) && i < |states|
    ensures states[i].received <= states[i].published
    ensures states[i].reader == Head && states[i].cons == states[i].prod ==>
              states[i].received == states[i].published
  {
    var s := states[i];
    RunInv(size, states, i);
    assert Flat(s.published) == Flat(s.received) + (Released(s) + Pending(s.buf, s.cons, s.prod));
    FlatPrefix(size, s.published, s.received, Released(s) + Pending(s.buf, s.cons, s.prod));
    if s.reader == Head && s.cons == s.prod {
      EmptyMeansDrained(size, s, s.(got := []));
    }
  }

  /** The daemon's own command size is covered. */
  lemma CommandsArriveInOrder(states: seq<State>, i: nat)
    requires Run(COMMAND, states) && i < |states|
    ensures states[i].received <= states[i].published
    ensures states[i].reader == Head && states[i].cons == states[i].prod ==>
              states[i].received == states[i].published
  {
    FifoDelivery(COMMAND, states, i);
  }
}
