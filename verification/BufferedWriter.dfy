/**
 `BufferedWriteSyncer` under its mutex: the explicit `bufio.Writer` it buffers in, a sink
 that may fail or write part of what it is given, and what every Write and Sync does to
 the two together.
 */
module BufferedWriter {
  import opened Utf8
  import opened Sequences

  const DEFAULT_BUFFER_SIZE := 262144  // used when Size is 0
  const BUFIO_DEFAULT_SIZE := 4096     // what bufio makes of a size that is not positive

  /** What the sink makes of one write: how much it takes, and whether it reports an error. */
  datatype Outcome = Outcome(take: nat, fail: bool)

  /**
   The wrapped `WriteSyncer`. It keeps to the `io.Writer` contract, taking a prefix and
   reporting an error when it is a proper one; `script` decides when, and once it has run
   out every write is taken whole.
   */
  class Sink {
    var contents: Bytes
    var chunks: seq<Bytes>  // every slice handed to Write
    var script: seq<Outcome>

    constructor (script: seq<Outcome>)
      ensures contents == [] && chunks == [] && this.script == script
    {
      contents, chunks := [], [];
      this.script := script;
    }

    method Write(p: Bytes) returns (n: nat, err: bool)
      modifies this
      ensures n <= |p| && contents == old(contents) + p[..n] && (n < |p| ==> err)
      ensures chunks == old(chunks) + [p]
      ensures old(script) == [] ==> script == [] && n == |p| && !err
    {
      chunks := chunks + [p];
      n, err := |p|, false;
      if script != [] {
        n := if script[0].take < |p| then script[0].take else |p|;
        err := script[0].fail || n < |p|;
        script := script[1..];
      }
      contents := contents + p[..n];
    }
  }

  /** The bytes of a writer and its sink, and the writer's sticky error. */
  datatype Store = Store(sink: Bytes, buf: Bytes, err: bool)

  /** All bytes accepted so far, in order. */
  function Accepted(s: Store): (b: Bytes) {
    s.sink + s.buf
  }

  /** What a flush may do. */
  ghost predicate Flushes(s: Store, t: Store) {
    && Accepted(t) == Accepted(s)
    && s.sink <= t.sink
    && (s.err ==> t == s)
    && (!t.err ==> t.buf == [])
  }

  /** What a write of `p` that reports `n` and leaves the error flag at `t.err` may do. */
  ghost predicate Writes(s: Store, t: Store, p: Bytes, n: nat) {
    && n <= |p|
    && Accepted(t) == Accepted(s) + p[..n]
    && s.sink <= t.sink
    && (s.err ==> t == s && n == 0)
    && (!t.err ==> n == |p|)
  }

  lemma TakeMore(start: Bytes, bs: Bytes, nn: nat, n: nat)
    requires nn + n <= |bs|
    ensures start + bs[..nn] + bs[nn..][..n] == start + bs[..nn + n]
    ensures bs[nn..][n..] == bs[nn + n..]
  {
    assert bs[..nn + n] == bs[..nn] + bs[nn..][..n];
  }

  lemma AppendToBuffer(s: Store, p: Bytes)
    ensures Accepted(s.(buf := s.buf + p)) == Accepted(s) + p
  {
  }

  /** `bufio.Writer`: `buf` is the used part of its buffer. */
  class BufioWriter {
    const sink: Sink
    const size: nat
    var buf: Bytes
    var err: bool

    ghost predicate Valid()
      reads this
    {
      0 < size && |buf| <= size
    }

    ghost function Abs(): (s: Store)
      reads this, sink
    {
      Store(sink.contents, buf, err)
    }

    constructor (sink: Sink, size: int)
      ensures Valid() && this.sink == sink && buf == [] && !err
      ensures this.size == if size <= 0 then BUFIO_DEFAULT_SIZE else size
    {
      this.sink := sink;
      this.size := if size <= 0 then BUFIO_DEFAULT_SIZE else size;
      buf, err := [], false;
    }

    function Available(): (n: nat)
      requires Valid()
      reads this
    {
      size - |buf|
    }

    method Flush() returns (failed: bool)
      requires Valid()
      modifies this, sink
      ensures Valid() && failed == err
      ensures Flushes(old(Abs()), Abs())
      ensures old(err) || old(buf) == [] ==>
                sink.chunks == old(sink.chunks) && sink.script == old(sink.script) && err == old(err)
      ensures !old(err) && old(buf) != [] ==> sink.chunks == old(sink.chunks) + [old(buf)]
      ensures old(sink.script) == [] ==> sink.script == [] && err == old(err)
    {
      if err {
        return true;
      }
      if |buf| == 0 {
        return false;
      }
      var n, fail := sink.Write(buf);
      if n < |buf| && !fail {
        fail := true;
      }
      if fail {
        buf := buf[n..];
        err := true;
        return true;
      }
      buf := [];
      return false;
    }

    /** One round of the loop in `Write`: straight to the sink, or fill the buffer and flush it. */
    method WriteSome(p: Bytes) returns (n: nat)
      requires Valid() && |p| > Available() && !err
      modifies this, sink
      ensures Valid() && n <= |p|
      ensures Accepted(Abs()) == Accepted(old(Abs())) + p[..n] && old(sink.contents) <= sink.contents
      ensures old(buf) == [] ==> buf == [] && sink.chunks == old(sink.chunks) + [p] && (n == |p| || err)
      ensures n > 0 || err || |buf| < |old(buf)|
      ensures old(sink.script) == [] ==> sink.script == [] && !err
    {
      if |buf| == 0 {
        n, err := sink.Write(p);
      } else {
        n := Available();
        buf := buf + p[..n];
        var _ := Flush();
      }
    }

    method Write(bs: Bytes) returns (nn: nat, failed: bool)
      requires Valid()
      modifies this, sink
      ensures Valid() && failed == err
      ensures Writes(old(Abs()), Abs(), bs, nn)
      ensures !old(err) && |bs| <= old(Available()) ==>
                !err && buf == old(buf) + bs && sink.chunks == old(sink.chunks) && sink.script == old(sink.script)
      ensures !old(err) && |bs| > old(Available()) && old(buf) == [] ==>
                buf == [] && sink.chunks == old(sink.chunks) + [bs]
      ensures old(err) ==> sink.chunks == old(sink.chunks)
      ensures old(sink.script) == [] ==> sink.script == [] && err == old(err)
    {
      hide Accepted;
      var p := bs;
      nn := 0;
      assert bs[..0] == [] && Accepted(Abs()) + [] == Accepted(Abs());
      while |p| > Available() && !err
        invariant Valid() && nn <= |bs| && p == bs[nn..]
        invariant Accepted(Abs()) == Accepted(old(Abs())) + bs[..nn] && old(sink.contents) <= sink.contents
        invariant |bs| <= old(Available()) || old(err) ==>
                    && nn == 0 && Abs() == old(Abs())
                    && sink.chunks == old(sink.chunks) && sink.script == old(sink.script)
        invariant !old(err) && |bs| > old(Available()) && old(buf) == [] ==>
                    && buf == []
                    && (nn == 0 && !err ==> sink.chunks == old(sink.chunks))
                    && (nn > 0 || err ==> sink.chunks == old(sink.chunks) + [bs] && (nn == |bs| || err))
        invariant old(sink.script) == [] ==> sink.script == [] && err == old(err)
        decreases |p| + (if err then 0 else 1), |buf|
      {
        var n := WriteSome(p);
        TakeMore(Accepted(old(Abs())), bs, nn, n);
        nn := nn + n;
        p := p[n..];
      }
      if err {
        return nn, true;
      }
      AppendToBuffer(Abs(), p);
      TakeMore(Accepted(old(Abs())), bs, nn, |p|);
      assert p[..|p|] == p;
      buf := buf + p;
      nn := nn + |p|;
      return nn, false;
    }
  }

  // ---- The write syncer ----

  class BufferedWriteSyncer {
    const sink: Sink
    const size: int
    var writer: BufioWriter?  // null until the first Write initializes it

    // Records, for the statement of what a run has done.
    ghost var taken: seq<Bytes>           // of each payload, the part its Write reported as written
    ghost var delivered: seq<seq<Bytes>>  // the payloads in each chunk
    ghost var pending: seq<Bytes>         // the payloads in the buffer

    ghost predicate Valid()
      reads this, sink, writer
    {
      && (writer != null ==> writer.Valid() && writer.sink == sink)
      && Accepted(State()) == Flatten(taken)
    }

    ghost function State(): (s: Store)
      reads this, sink, writer
    {
      if writer == null then Store(sink.contents, [], false) else Store(sink.contents, writer.buf, writer.err)
    }

    /** Every chunk handed to the sink is made of whole payloads, and so is the buffer until a flush fails. */
    ghost predicate Unsplit()
      reads this, sink, writer
    {
      && |sink.chunks| == |delivered|
      && (forall i :: 0 <= i < |delivered| ==> sink.chunks[i] == Flatten(delivered[i]))
      && (!State().err ==> State().buf == Flatten(pending))
    }

    /** The sink takes writes whole and no flush has failed. */
    ghost predicate Whole()
      reads this, sink, writer
    {
      sink.script == [] && !State().err
    }

    constructor (sink: Sink, size: int)
      requires sink.contents == [] && sink.chunks == []
      ensures Valid() && this.sink == sink && taken == [] && delivered == [] && pending == [] && writer == null
      ensures Unsplit() && (sink.script == [] ==> Whole())
    {
      this.sink := sink;
      this.size := size;
      writer := null;
      taken, delivered, pending := [], [], [];
    }

    /** How much fits without a flush. */
    function Room(): (n: nat)
      requires Valid()
      reads this, sink, writer
    {
      if writer != null then writer.Available()
      else if size == 0 then 256 * 1024
      else if size < 0 then 4096
      else size
    }

    method Initialize()
      requires Valid() && writer == null
      modifies this`writer
      ensures Valid() && writer != null && fresh(writer) && State() == old(State()) && Room() == old(Room())
      ensures old(Unsplit()) ==> Unsplit()
      ensures old(Whole()) ==> Whole()
      ensures Payloads() == old(Payloads())
    {
      writer := new BufioWriter(sink, if size == 0 then DEFAULT_BUFFER_SIZE else size);
    }

    /** The payloads handed over or waiting, in order. */
    ghost function Payloads(): (ps: seq<Bytes>)
      reads this
    {
      Flatten(delivered) + pending
    }

    /** The flush made so that a write that does not fit does not share a chunk with part of another. */
    method MakeRoom(bs: Bytes) returns (failed: bool)
      requires Valid() && writer != null
      modifies this, sink, writer
      ensures Valid() && writer == old(writer) && taken == old(taken)
      ensures Accepted(State()) == Accepted(old(State())) && old(sink.contents) <= sink.contents
      ensures old(State().err) ==> State() == old(State())
      ensures failed ==> State().err
      ensures !failed ==> State().err == old(State().err) && (|bs| <= writer.Available() || writer.buf == [])
      ensures |bs| <= old(writer.Available()) ==> !failed && State() == old(State()) && sink.chunks == old(sink.chunks)
      ensures old(State().err) ==> sink.chunks == old(sink.chunks)
      ensures old(Unsplit()) ==> Unsplit()
      ensures old(Whole()) ==> Whole() && !failed
      ensures Payloads() == old(Payloads())
    {
      hide Flatten;
      failed := false;
      FlattenPush(delivered, pending);
      NothingFlat<Byte>();
      if |bs| > writer.Available() && |writer.buf| > 0 {
        ghost var flushes := !writer.err;
        failed := writer.Flush();
        if flushes {
          delivered, pending := delivered + [pending], [];
        }
      }
    }

    /** The `bufio` write of a payload that fits, or finds the buffer empty. */
    method Put(bs: Bytes) returns (n: nat, failed: bool)
      requires Valid() && writer != null && (|bs| <= writer.Available() || writer.buf == [])
      modifies this, sink, writer
      ensures Valid() && writer == old(writer)
      ensures n <= |bs| && taken == old(taken) + [bs[..n]]
      ensures Writes(old(State()), State(), bs, n) && failed == State().err
      ensures old(State().err) || |bs| <= old(writer.Available()) ==> sink.chunks == old(sink.chunks)
      ensures old(Unsplit()) ==> Unsplit()
      ensures old(Whole()) ==> Whole()
      ensures Payloads() == if old(State().err) then old(Payloads()) else old(Payloads()) + [bs]
    {
      hide Flatten;
      ghost var fits := |bs| <= writer.Available();
      n, failed := writer.Write(bs);
      FlattenPush(pending, bs);
      NothingFlat<Byte>();
      if old(State().err) {
        // nothing was taken and nothing handed over
      } else if fits {
        assert Flatten(delivered) + (pending + [bs]) == Flatten(delivered) + pending + [bs];
        pending := pending + [bs];
      } else {
        // the buffer was empty, so what is pending is nothing but empty payloads
        FlattenPush(delivered, pending + [bs]);
        assert Flatten(delivered) + (pending + [bs]) + [] == Flatten(delivered) + pending + [bs];
        delivered, pending := delivered + [pending + [bs]], [];
      }
      FlattenPush(taken, bs[..n]);
      taken := taken + [bs[..n]];
    }

    method Write(bs: Bytes) returns (n: nat, failed: bool)
      requires Valid()
      modifies this, sink, writer
      ensures Valid() && writer != null && (if old(writer) == null then fresh(writer) else writer == old(writer))
      ensures n <= |bs| && taken == old(taken) + [bs[..n]]
      ensures Writes(old(State()), State(), bs, n) && failed == State().err
      ensures old(State().err) || |bs| <= old(Room()) ==> sink.chunks == old(sink.chunks)
      ensures old(Unsplit()) ==> Unsplit()
      ensures old(Whole()) ==> Whole()
      ensures Payloads() == old(Payloads()) + [bs] || (State().err && Payloads() == old(Payloads()))
      ensures old(State().err) ==> Payloads() == old(Payloads())
    {
      hide Flatten;
      if writer == null {
        Initialize();
      }
      failed := MakeRoom(bs);
      if failed {
        n := 0;
        NothingTaken(taken);
        taken := taken + [bs[..0]];
      } else {
        n, failed := Put(bs);
      }
    }

    method Sync(syncFails: bool) returns (failed: bool)
      requires Valid()
      modifies this, sink, writer
      ensures Valid() && writer == old(writer) && taken == old(taken)
      ensures Flushes(old(State()), State()) && failed == (State().err || syncFails)
      ensures old(State().err) ==> sink.chunks == old(sink.chunks)
      ensures old(Unsplit()) ==> Unsplit()
      ensures old(Whole()) ==> Whole()
      ensures Payloads() == old(Payloads())
    {
      hide Flatten;
      failed := false;
      NothingFlat<Byte>();
      FlattenPush(delivered, pending);
      if writer != null {
        ghost var flushes := writer.buf != [] && !writer.err;
        failed := writer.Flush();
        if flushes {
          delivered, pending := delivered + [pending], [];
        }
      }
      failed := failed || syncFails;
    }
  }

  lemma NothingTaken(ps: seq<Bytes>)
    ensures Flatten(ps + [[]]) == Flatten(ps)
  {
    FlattenPush(ps, []);
    assert Flatten(ps) + [] == Flatten(ps);
  }

  lemma NothingFlat<T>()
    ensures Flatten<T>([]) == []
  {
  }

  // ---- Whole runs ----

  datatype Op = WriteOp(bs: Bytes) | SyncOp(syncFails: bool)

  /** What a run of these operations could have returned. */
  predicate WellObserved(ops: seq<Op>, obs: seq<Observed>) {
    && |ops| == |obs|
    && forall i :: 0 <= i < |ops| ==> CountOk(ops[i], obs[i].n) && ErrorOk(ops[i], obs[i])
  }

  /** A call returns an error exactly when the writer is broken after it, or the sink's own Sync failed. */
  predicate ErrorOk(op: Op, o: Observed) {
    o.failed == (o.broken || (op.SyncOp? && op.syncFails))
  }

  predicate CountOk(op: Op, n: nat) {
    if op.WriteOp? then n <= |op.bs| else n == 0
  }

  /** What each Write of a run reported as written; a Sync contributes nothing. */
  function Parts(ops: seq<Op>, obs: seq<Observed>): (ps: seq<Bytes>)
    requires WellObserved(ops, obs)
  {
    if ops == [] then []
    else
      var k := |ops| - 1;
      Parts(ops[..k], obs[..k]) + Part(ops[k], obs[k].n)
  }

  function Part(op: Op, n: nat): (ps: seq<Bytes>)
    requires CountOk(op, n)
  {
    if op.WriteOp? then [op.bs[..n]] else []
  }

  function Written(ops: seq<Op>): (ps: seq<Bytes>) {
    if ops == [] then [] else Written(ops[..|ops| - 1]) + Payload(ops[|ops| - 1])
  }

  function Payload(op: Op): (ps: seq<Bytes>) {
    if op.WriteOp? then [op.bs] else []
  }

  /**
   After one operation: the count a Write returned, whether it returned an error, the sink, and
   whether a flush has failed yet.
   */
  datatype Observed = Observed(n: nat, failed: bool, sink: Bytes, broken: bool)

  /** Once a flush has failed, the sink receives nothing more and every call returns 0 and an error. */
  ghost predicate StaysBroken(obs: seq<Observed>) {
    forall i, j :: 0 <= i < j < |obs| && obs[i].broken ==> obs[j] == Observed(0, true, obs[i].sink, true)
  }

  lemma PartsPush(ops: seq<Op>, obs: seq<Observed>, op: Op, o: Observed)
    requires WellObserved(ops, obs) && CountOk(op, o.n) && ErrorOk(op, o)
    ensures WellObserved(ops + [op], obs + [o])
    ensures Parts(ops + [op], obs + [o]) == Parts(ops, obs) + Part(op, o.n)
    ensures Written(ops + [op]) == Written(ops) + Payload(op)
  {
    assert (ops + [op])[..|ops|] == ops && (obs + [o])[..|ops|] == obs;
  }

  lemma BrokenPush(obs: seq<Observed>, o: Observed)
    requires StaysBroken(obs)
    requires obs != [] && obs[|obs| - 1].broken ==> o == Observed(0, true, obs[|obs| - 1].sink, true)
    ensures StaysBroken(obs + [o])
  {
  }

  /** What a run so far has shown, and the state it has left the writer in. */
  ghost predicate Matches(w: BufferedWriteSyncer, ops: seq<Op>, obs: seq<Observed>)
    requires WellObserved(ops, obs)
    reads w, w.sink, w.writer
  {
    && w.taken == Parts(ops, obs)
    && StaysBroken(obs)
    && (obs == [] ==> !w.State().err)
    && (obs != [] ==> obs[|obs| - 1].sink == w.sink.contents && obs[|obs| - 1].broken == w.State().err)
  }

  /** Which payloads a run has handed over or holds: all of them, or those before the first failed flush. */
  ghost predicate Accounted(w: BufferedWriteSyncer, ops: seq<Op>)
    reads w, w.sink, w.writer
  {
    && w.Unsplit()
    && w.Payloads() <= Written(ops)
    && (!w.State().err ==> w.Payloads() == Written(ops))
  }

  /**
   Any run of Write and Sync over any sink. Nothing is lost, added or reordered; a failure is
   final; and no payload is ever split between chunks handed to the sink.
   */
  method RunAll(ops: seq<Op>, script: seq<Outcome>, size: int)
    returns (obs: seq<Observed>, sink: Bytes, buffered: Bytes, chunks: seq<Bytes>, broken: bool,
             ghost groups: seq<seq<Bytes>>, ghost pending: seq<Bytes>)
    ensures WellObserved(ops, obs) && StaysBroken(obs)
    ensures broken == (obs != [] && obs[|obs| - 1].broken)
    ensures sink + buffered == Flatten(Parts(ops, obs))
    ensures |groups| == |chunks| && forall i :: 0 <= i < |chunks| ==> chunks[i] == Flatten(groups[i])
    ensures Flatten(groups) + pending <= Written(ops)
    ensures !broken ==> buffered == Flatten(pending) && Flatten(groups) + pending == Written(ops)
    ensures script == [] ==> !broken
  {
    hide Flatten, StaysBroken, WellObserved, Written, Parts;
    var ws := new Sink(script);
    var w := new BufferedWriteSyncer(ws, size);
    obs := [];
    NothingRun();
    assert ops[..0] == [];
    for k := 0 to |ops|
      invariant fresh(w) && fresh(ws) && w.sink == ws && (w.writer != null ==> fresh(w.writer)) && w.Valid()
      invariant WellObserved(ops[..k], obs) && Matches(w, ops[..k], obs) && |obs| == k
      invariant Accounted(w, ops[..k])
      invariant script == [] ==> w.Whole()
    {
      assert ops[..k + 1] == ops[..k] + [ops[k]];
      var o := RunNext(w, ops[..k], obs, ops[k]);
      obs := obs + [o];
    }
    assert ops[..|ops|] == ops;
    sink, chunks := ws.contents, ws.chunks;
    buffered := if w.writer == null then [] else w.writer.buf;
    broken := w.writer != null && w.writer.err;
    groups, pending := w.delivered, w.pending;
  }

  method RunNext(w: BufferedWriteSyncer, ghost ops: seq<Op>, ghost obs: seq<Observed>, op: Op) returns (o: Observed)
    requires w.Valid() && WellObserved(ops, obs) && Matches(w, ops, obs) && Accounted(w, ops)
    modifies w, w.sink, w.writer
    ensures w.Valid() && (w.writer == old(w.writer) || (w.writer != null && fresh(w.writer)))
    ensures WellObserved(ops + [op], obs + [o]) && Matches(w, ops + [op], obs + [o])
    ensures Accounted(w, ops + [op])
    ensures old(w.Whole()) ==> w.Whole()
  {
    hide Flatten, StaysBroken, WellObserved, Parts, Written;
    var n, failed := RunOne(w, op);
    o := Observed(n, failed, w.sink.contents, w.writer != null && w.writer.err);
    PartsPush(ops, obs, op, o);
    BrokenPush(obs, o);
  }

  method RunOne(w: BufferedWriteSyncer, op: Op) returns (n: nat, failed: bool)
    requires w.Valid()
    modifies w, w.sink, w.writer
    ensures w.Valid() && (w.writer == old(w.writer) || (w.writer != null && fresh(w.writer)))
    ensures CountOk(op, n) && w.taken == old(w.taken) + Part(op, n)
    ensures old(w.State().err) ==> n == 0 && w.State() == old(w.State())
    ensures failed == (w.State().err || (op.SyncOp? && op.syncFails))
    ensures old(w.Unsplit()) ==> w.Unsplit()
    ensures old(w.Whole()) ==> w.Whole()
    ensures w.Payloads() == old(w.Payloads()) + Payload(op) || (w.State().err && w.Payloads() == old(w.Payloads()))
    ensures old(w.State().err) ==> w.Payloads() == old(w.Payloads())
  {
    n := 0;
    if op.WriteOp? {
      n, failed := w.Write(op.bs);
    } else {
      failed := w.Sync(op.syncFails);
    }
  }

  lemma NothingRun()
    ensures Flatten<Byte>([]) == [] && Flatten<Bytes>([]) == [] && WellObserved([], []) && StaysBroken([])
    ensures Written([]) == [] && Parts([], []) == []
  {
  }
}
