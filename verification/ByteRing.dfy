/**
  One direction of the shared-memory ring (audio-daemon/src/ring.c): a 1024-byte
  buffer with free-running 32-bit consumer and producer indexes.
 */
module ByteRing {
  const SIZE: nat := 1024
  const WORD: nat := 0x1_0000_0000

  type Byte = b: int | 0 <= b < 256
  type Index = i: int | 0 <= i < 0x1_0000_0000  // uint32_t

  /** Unsigned 32-bit subtraction: how far prod is ahead of cons. */
  function Distance(cons: Index, prod: Index): nat {
    (prod - cons) % 0x1_0000_0000
  }

  function Advance(i: Index, n: nat): Index {
    (i + n) % 0x1_0000_0000
  }

  /** The buffer position of an index; the mask (SIZE - 1) keeps the low ten bits. */
  function Mask(i: int): (m: nat)
    ensures m < SIZE
  {
    i % 1024
  }

  predicate IndexesValid(cons: Index, prod: Index) {
    Distance(cons, prod) <= SIZE
  }

  /** Length of the contiguous readable run at cons. */
  function InputChunk(cons: Index, prod: Index): nat {
    var toEnd := SIZE - Mask(cons);
    if Distance(cons, prod) < toEnd then Distance(cons, prod) else toEnd
  }

  /** Length of the contiguous writable run at prod. */
  function OutputChunk(cons: Index, prod: Index): nat
    requires IndexesValid(cons, prod)
  {
    var toEnd := SIZE - Mask(prod);
    if SIZE - Distance(cons, prod) < toEnd then SIZE - Distance(cons, prod) else toEnd
  }

  /** The bytes published and not yet consumed, oldest first. */
  ghost function Pending(buf: seq<Byte>, cons: Index, prod: Index): (s: seq<Byte>)
    requires |buf| == SIZE
    ensures |s| == Distance(cons, prod)
    ensures forall k :: 0 <= k < |s| ==> s[k] == buf[Mask(cons + k)]
  {
    seq(Distance(cons, prod), k requires k >= 0 => buf[Mask(cons + k)])
  }

  // The buffer size divides the index range, so wrapping an index does not move its slot.
  lemma MaskAdvance(i: Index, n: nat, k: nat)
    ensures Mask(Advance(i, n) + k) == Mask(i + n + k)
  {
    var wraps := (i + n) / 0x1_0000_0000;
    MaskPeriod(Advance(i, n) + k, 0x40_0000 * wraps);
  }

  lemma MaskPeriod(i: int, m: int)
    ensures Mask(i + 1024 * m) == Mask(i)
  {
  }

  lemma MaskRun(i: nat, k: nat)
    requires Mask(i) + k < SIZE
    ensures Mask(i + k) == Mask(i) + k
  {
  }

  lemma AdvanceCons(cons: Index, prod: Index, n: nat)
    requires n <= Distance(cons, prod)
    ensures Distance(Advance(cons, n), prod) == Distance(cons, prod) - n
  {
  }

  lemma AdvanceProd(cons: Index, prod: Index, n: nat)
    requires Distance(cons, prod) + n < WORD
    ensures Distance(cons, Advance(prod, n)) == Distance(cons, prod) + n
  {
  }

  lemma ReadChunk(buf: seq<Byte>, cons: Index, prod: Index, n: nat)
    requires |buf| == SIZE && n <= InputChunk(cons, prod)
    ensures Mask(cons) + n <= SIZE
    ensures buf[Mask(cons)..Mask(cons) + n] == Pending(buf, cons, prod)[..n]
    ensures Pending(buf, Advance(cons, n), prod) == Pending(buf, cons, prod)[n..]
  {
    var before, after := Pending(buf, cons, prod), Pending(buf, Advance(cons, n), prod);
    AdvanceCons(cons, prod, n);
    forall k | 0 <= k < n ensures before[k] == buf[Mask(cons) + k] {
      MaskRun(cons, k);
    }
    forall k | 0 <= k < |after| ensures after[k] == before[n + k] {
      MaskAdvance(cons, n, k);
    }
  }

  /** The readable run is part of the queue and is empty only if the queue is. */
  lemma ChunkFits(cons: Index, prod: Index)
    ensures InputChunk(cons, prod) <= Distance(cons, prod)
    ensures cons != prod ==> InputChunk(cons, prod) > 0
    ensures cons == prod <==> Distance(cons, prod) == 0
  {
  }

  lemma SplitFurther(s: seq<Byte>, m: nat, n: nat)
    requires m + n <= |s|
    ensures s[..m] + s[m..][..n] == s[..m + n]
    ensures s[m..][n..] == s[m + n..]
  {
  }

  lemma MaskBack(i: int, j: nat)
    requires j <= SIZE
    ensures Mask(i - j) == if j <= Mask(i) then Mask(i) - j else Mask(i) - j + SIZE
  {
  }

  lemma SameSlot(cons: Index, prod: Index, k: int)
    ensures Mask(cons + k) == Mask(prod + (k - Distance(cons, prod)))
  {
    var d := Distance(cons, prod);
    assert cons + d == prod || cons + d == prod + WORD;
  }

  // Where the k-th queued byte sits relative to the producer's slot.
  lemma QueuedSlot(cons: Index, prod: Index, n: nat, k: nat)
    requires Distance(cons, prod) + n <= SIZE && Mask(prod) + n <= SIZE
    requires k < Distance(cons, prod) + n
    ensures k < Distance(cons, prod) ==> Mask(cons + k) < Mask(prod) || Mask(cons + k) >= Mask(prod) + n
    ensures k >= Distance(cons, prod) ==> Mask(cons + k) == Mask(prod) + (k - Distance(cons, prod))
  {
    var d := Distance(cons, prod);
    SameSlot(cons, prod, k);
    if k >= d {
      MaskRun(prod, k - d);
    } else {
      MaskBack(prod, d - k);
    }
  }

  lemma WriteChunk(before: seq<Byte>, after: seq<Byte>, cons: Index, prod: Index, data: seq<Byte>)
    requires |before| == |after| == SIZE && IndexesValid(cons, prod)
    requires |data| <= OutputChunk(cons, prod)
    requires after == before[..Mask(prod)] + data + before[Mask(prod) + |data|..]
    ensures Pending(after, cons, Advance(prod, |data|)) == Pending(before, cons, prod) + data
  {
    var p, q := Pending(before, cons, prod), Pending(after, cons, Advance(prod, |data|));
    AdvanceProd(cons, prod, |data|);
    forall k | 0 <= k < |q| ensures q[k] == (p + data)[k] {
      QueuedSlot(cons, prod, |data|, k);
    }
  }

  class Ring {
    var buf: array<Byte>
    var cons: Index
    var prod: Index

    ghost predicate Valid()
      reads this
    {
      buf.Length == SIZE
    }

    ghost function Queue(): seq<Byte>
      requires Valid()
      reads this, buf
    {
      Pending(buf[..], cons, prod)
    }

    constructor ()
      ensures Valid() && fresh(buf) && Queue() == []
    {
      buf, cons, prod := new Byte[SIZE](_ => 0), 0, 0;
    }

    /**
      ring_read.  Returns len and the oldest len bytes if there are that many; returns
      0 otherwise, in which case whatever was there has been consumed and is lost;
      returns -1 and resets both indexes if they are corrupt.
     */
    method Read(len: nat) returns (rc: int, data: seq<Byte>)
      requires Valid()
      modifies this`cons, this`prod
      ensures buf == old(buf) && buf[..] == old(buf[..])
      ensures len == 0 ==> rc == 0 && data == [] && cons == old(cons) && prod == old(prod)
      ensures len > 0 && old((prod - cons) % 0x1_0000_0000 > 1024) ==> rc == -1 && cons == prod == 0
      ensures len > 0 && old((prod - cons) % 0x1_0000_0000 <= 1024) ==>
                && prod == old(prod) && IndexesValid(cons, prod)
                && rc == (if len <= |old(Queue())| then len else 0)
                && data == (if len <= |old(Queue())| then old(Queue())[..len] else old(Queue()))
                && Queue() == old(Queue())[|data|..]
    {
      assert IndexesValid(cons, prod) <==> (prod - cons) % 0x1_0000_0000 <= 1024;
      hide Distance, Mask, InputChunk, Advance;
      rc, data := len, [];
      var left := len;
      ghost var bytes, valid := buf[..], IndexesValid(cons, prod);
      ghost var queue := Queue();
      while left != 0
        invariant left == len - |data|
        invariant buf == old(buf) && buf[..] == bytes
        invariant prod == old(prod)
        invariant !valid ==> data == [] && cons == old(cons)
        invariant |data| == 0 ==> cons == old(cons)
        invariant valid ==> IndexesValid(cons, prod) && |data| <= |queue|
        invariant valid ==> data == queue[..|data|] && Pending(bytes, cons, prod) == queue[|data|..]
      {
        ChunkFits(cons, prod);
        if cons == prod {
          return 0, data;
        }
        if !IndexesValid(cons, prod) {
          cons, prod := 0, 0;
          return -1, data;
        }
        var avail := InputChunk(cons, prod);
        assert avail > 0;  // so the source's "try again" branch is dead
        if avail > left {
          avail := left;
        }
        ReadChunk(bytes, cons, prod, avail);
        AdvanceCons(cons, prod, avail);
        SplitFurther(queue, |data|, avail);
        data := data + buf[Mask(cons)..Mask(cons) + avail];
        left := left - avail;
        cons := Advance(cons, avail);
      }
    }

    /**
      ring_write.  Succeeds exactly when the ring is not full and the data fits in
      one contiguous run: it never wraps.  Corrupt indexes are reset.
     */
    method Write(data: seq<Byte>) returns (rc: int)
      requires Valid()
      modifies this`cons, this`prod, buf
      ensures buf == old(buf)
      ensures rc == 0 || rc == -1
      ensures old((prod - cons) % 0x1_0000_0000 <= 1024) ==>
                && cons == old(cons) && IndexesValid(cons, prod)
                && (rc == 0 <==>
                    |old(Queue())| < 1024 && |old(Queue())| + |data| <= 1024 && old(prod) % 1024 + |data| <= 1024)
                && Queue() == (if rc == 0 then old(Queue()) + data else old(Queue()))
      ensures old((prod - cons) % 0x1_0000_0000 > 1024) ==>
                buf[..] == old(buf[..]) && (if data == [] then rc == 0 && cons == old(cons) && prod == old(prod)
                                            else rc == -1 && cons == prod == 0)
    {
      if Distance(cons, prod) == SIZE {
        return -1;
      }
      if data == [] {
        return 0;
      }
      if !IndexesValid(cons, prod) {
        cons, prod := 0, 0;
        return -1;
      }
      var avail := OutputChunk(cons, prod);
      if avail < |data| {
        return -1;
      }
      ghost var before := buf[..];
      var at := Mask(prod);
      for k := 0 to |data|
        invariant buf == old(buf) && cons == old(cons) && prod == old(prod)
        invariant buf[..] == before[..at] + data[..k] + before[at + k..]
      {
        buf[at + k] := data[k];
      }
      WriteChunk(before, buf[..], cons, prod, data);
      prod := Advance(prod, |data|);
      return 0;
    }
  }

  /** Reading back what was written: the queue hands out the written bytes after everything older. */
  method WriteThenRead(r: Ring, data: seq<Byte>) returns (rc: int, out: seq<Byte>)
    requires r.Valid() && IndexesValid(r.cons, r.prod) && Distance(r.cons, r.prod) < SIZE
    requires |data| <= OutputChunk(r.cons, r.prod)
    modifies r`cons, r`prod, r.buf
    ensures rc == |old(r.Queue()) + data|
    ensures rc > 0 ==> out == old(r.Queue()) + data && r.Queue() == []
  {
    var ok := r.Write(data);
    rc, out := r.Read(Distance(r.cons, r.prod));
  }
}
