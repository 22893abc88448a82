/**
 zapio.Writer: a stream of writes logged line by line.
 */
module LineWriter {
  import opened Utf8

  const NEWLINE: Byte := 0x0A

  // ---- Splitting on newline ----

  predicate OneLine(s: Bytes) {
    NEWLINE !in s
  }

  /** Pieces joined by newlines. */
  function Join(pieces: seq<Bytes>): (s: Bytes)
    requires pieces != []
  {
    if |pieces| == 1 then pieces[0] else pieces[0] + [NEWLINE] + Join(pieces[1..])
  }

  predicate Lines(pieces: seq<Bytes>) {
    forall i :: 0 <= i < |pieces| ==> OneLine(pieces[i])
  }

  /** The pieces between newlines, one more than there are newlines. */
  function Pieces(s: Bytes): (r: seq<Bytes>)
    ensures r != [] && Lines(r) && Join(r) == s
  {
    if s == [] then [[]]
    else if s[0] == NEWLINE then
      assert s == [] + [NEWLINE] + s[1..];
      [[]] + Pieces(s[1..])
    else
      var rest := Pieces(s[1..]);
      assert s == [s[0]] + s[1..];
      assert ([[s[0]] + rest[0]] + rest[1..])[1..] == rest[1..];
      [[s[0]] + rest[0]] + rest[1..]
  }

  /** There is one way to cut a stream into lines. */
  lemma {:induction false} PiecesAreUnique(pieces: seq<Bytes>)
    requires pieces != [] && Lines(pieces)
    ensures Pieces(Join(pieces)) == pieces
    decreases |pieces|, |pieces[0]|
  {
    var s := Join(pieces);
    var first := pieces[0];
    if |pieces| == 1 {
      OneLineIsOnePiece(s);
    } else if first == [] {
      assert s == [NEWLINE] + Join(pieces[1..]);
      PiecesAreUnique(pieces[1..]);
    } else {
      var shorter := pieces[0 := first[1..]];
      assert shorter[1..] == pieces[1..];
      assert s == [first[0]] + Join(shorter);
      assert first[0] != NEWLINE && s[1..] == Join(shorter);
      PiecesAreUnique(shorter);
      assert [first[0]] + first[1..] == first;
      assert [[first[0]] + shorter[0]] + shorter[1..] == pieces;
    }
  }

  lemma {:induction false} OneLineIsOnePiece(s: Bytes)
    requires OneLine(s)
    ensures Pieces(s) == [s]
  {
    if s != [] {
      OneLineIsOnePiece(s[1..]);
    }
  }

  // ---- One byte at a time ----

  /** What happens to a writer: a byte arrives, Sync or Close is called, the level is switched on or off. */
  datatype Item = Data(b: Byte) | Flush | Toggle(on: bool)

  /** Whether the level is enabled, the line so far, and the messages given to the logger while enabled. */
  datatype State = State(on: bool, pending: Bytes, logged: seq<Bytes>)

  function Logged(s: State, message: Bytes): (r: State) {
    if s.on then s.(logged := s.logged + [message]) else s
  }

  function Take(s: State, item: Item): (r: State) {
    match item
    case Toggle(on) => s.(on := on)
    case Flush => (if s.pending == [] then s else Logged(s, s.pending)).(pending := [])
    case Data(b) =>
      if !s.on then s
      else if b == NEWLINE then Logged(s, s.pending).(pending := [])
      else s.(pending := s.pending + [b])
  }

  function TakeAll(s: State, items: seq<Item>): (r: State)
    decreases items
  {
    if items == [] then s else TakeAll(Take(s, items[0]), items[1..])
  }

  lemma {:induction false} TakeAllConcat(s: State, a: seq<Item>, b: seq<Item>)
    ensures TakeAll(s, a + b) == TakeAll(TakeAll(s, a), b)
    decreases a
  {
    hide Take;
    if a == [] {
      assert a + b == b;
    } else {
      assert (a + b)[1..] == a[1..] + b;
      TakeAllConcat(Take(s, a[0]), a[1..], b);
    }
  }

  function AllData(bs: Bytes): (r: seq<Item>)
    ensures |r| == |bs|
  {
    seq(|bs|, i requires 0 <= i < |bs| => Data(bs[i]))
  }

  lemma AllDataConcat(a: Bytes, b: Bytes)
    ensures AllData(a + b) == AllData(a) + AllData(b)
  {
  }

  lemma {:induction false} TakesPlainBytes(s: State, bs: Bytes)
    requires s.on && OneLine(bs)
    ensures TakeAll(s, AllData(bs)) == s.(pending := s.pending + bs)
    decreases bs
  {
    if bs == [] {
      assert s.pending + bs == s.pending;
    } else {
      assert AllData(bs)[1..] == AllData(bs[1..]);
      TakesPlainBytes(s.(pending := s.pending + [bs[0]]), bs[1..]);
      assert s.pending + [bs[0]] + bs[1..] == s.pending + bs;
    }
  }

  lemma TakesLine(s: State, line: Bytes)
    requires s.on && OneLine(line)
    ensures TakeAll(s, AllData(line + [NEWLINE])) == State(true, [], s.logged + [s.pending + line])
  {
    AllDataConcat(line, [NEWLINE]);
    TakeAllConcat(s, AllData(line), AllData([NEWLINE]));
    TakesPlainBytes(s, line);
    assert AllData([NEWLINE]) == [Data(NEWLINE)];
    var s' := s.(pending := s.pending + line);
    assert TakeAll(s', [Data(NEWLINE)]) == Take(s', Data(NEWLINE));
  }

  lemma {:induction false} IgnoresBytesWhenOff(s: State, bs: Bytes)
    requires !s.on
    ensures TakeAll(s, AllData(bs)) == s
    decreases bs
  {
    if bs != [] {
      assert AllData(bs)[1..] == AllData(bs[1..]);
      IgnoresBytesWhenOff(s, bs[1..]);
    }
  }

  lemma LineEnds(line: Bytes, rest: Bytes)
    requires OneLine(line)
    ensures Pieces(line + [NEWLINE] + rest) == [line] + Pieces(rest)
  {
    var pieces := [line] + Pieces(rest);
    assert pieces[1..] == Pieces(rest);
    PiecesAreUnique(pieces);
  }

  /**
   With the level enabled, messages logged so far followed by the buffer are the stream split on
   newline.
   */
  lemma {:induction false} StreamIsSplit(s: State, bs: Bytes)
    requires s.on && OneLine(s.pending)
    ensures var r := TakeAll(s, AllData(bs));
      r.on && r.logged + [r.pending] == s.logged + Pieces(s.pending + bs)
    decreases bs
  {
    hide Pieces;
    if bs == [] {
      assert s.pending + bs == s.pending;
      OneLineIsOnePiece(s.pending);
    } else {
      var b, later := bs[0], bs[1..];
      assert AllData(bs)[1..] == AllData(later);
      var s' := Take(s, Data(b));
      StreamIsSplit(s', later);
      if b == NEWLINE {
        LineEnds(s.pending, later);
        assert [] + later == later;
        assert s.pending + bs == s.pending + [NEWLINE] + later;
        assert s.logged + [s.pending] + Pieces(later) == s.logged + ([s.pending] + Pieces(later));
      } else {
        assert s.pending + [b] + later == s.pending + bs;
      }
    }
  }

  /** Ended by Sync or Close: every line, and the last piece exactly when it is not empty. */
  lemma FlushedStream(s: State, bs: Bytes)
    requires s.on && s.pending == []
    ensures var pieces := Pieces(bs);
      var n := |pieces| - 1;
      TakeAll(s, AllData(bs) + [Flush])
      == State(true, [], s.logged + if pieces[n] == [] then pieces[..n] else pieces)
  {
    hide Pieces, TakeAll;
    var pieces := Pieces(bs);
    var n := |pieces| - 1;
    var r := TakeAll(s, AllData(bs));
    StreamIsSplit(s, bs);
    assert [] + bs == bs;
    LastApart(r.logged, r.pending, s.logged, pieces);
    TakeAllConcat(s, AllData(bs), [Flush]);
    TakeOne(r, Flush);
    if pieces[n] != [] {
      assert s.logged + pieces[..n] + [pieces[n]] == s.logged + pieces;
    }
  }

  /** If the level is switched off in between, the last piece is dropped by the same Sync or Close. */
  lemma FlushedWhileOff(s: State, bs: Bytes)
    requires s.on && s.pending == []
    ensures var pieces := Pieces(bs);
      TakeAll(s, AllData(bs) + [Toggle(false), Flush]) == State(false, [], s.logged + pieces[..|pieces| - 1])
  {
    hide Pieces, TakeAll;
    var r := TakeAll(s, AllData(bs));
    StreamIsSplit(s, bs);
    assert [] + bs == bs;
    LastApart(r.logged, r.pending, s.logged, Pieces(bs));
    TakeAllConcat(s, AllData(bs), [Toggle(false), Flush]);
    assert [Toggle(false), Flush] == [Toggle(false)] + [Flush];
    TakeAllConcat(r, [Toggle(false)], [Flush]);
    TakeOne(r, Toggle(false));
    TakeOne(Take(r, Toggle(false)), Flush);
  }

  lemma LastApart(logged: seq<Bytes>, pending: Bytes, earlier: seq<Bytes>, pieces: seq<Bytes>)
    requires pieces != [] && logged + [pending] == earlier + pieces
    ensures var n := |pieces| - 1; logged == earlier + pieces[..n] && pending == pieces[n]
  {
    var n := |pieces| - 1;
    var all := logged + [pending];
    assert |logged| == |earlier| + n;
    assert all[|logged|] == pending && (earlier + pieces)[|logged|] == pieces[n];
    assert all[..|logged|] == logged;
    assert (earlier + pieces)[..|logged|] == earlier + pieces[..n];
  }

  // ---- The writer ----

  method IndexByte(s: Bytes, b: Byte) returns (idx: int)
    ensures idx < 0 ==> b !in s
    ensures idx >= 0 ==> idx < |s| && s[idx] == b && b !in s[..idx]
  {
    for i := 0 to |s|
      invariant b !in s[..i]
    {
      if s[i] == b {
        return i;
      }
    }
    return -1;
  }

  /** A call on a writer, or a change of level by others between calls. */
  datatype Event = Wrote(bs: Bytes) | Synced | Switched(on: bool)

  function ItemsOf(event: Event): (r: seq<Item>) {
    match event
    case Wrote(bs) => AllData(bs)
    case Synced => [Flush]
    case Switched(on) => [Toggle(on)]
  }

  function Items(events: seq<Event>): (r: seq<Item>) {
    if events == [] then [] else ItemsOf(events[0]) + Items(events[1..])
  }

  lemma TakeOne(s: State, item: Item)
    ensures TakeAll(s, [item]) == Take(s, item)
  {
  }

  class Writer {
    var on: bool
    var buff: Bytes
    var logged: seq<Bytes>

    ghost function Value(): (s: State)
      reads this
    {
      State(on, buff, logged)
    }

    constructor (on: bool)
      ensures Value() == State(on, [], [])
    {
      this.on, buff, logged := on, [], [];
    }

    method Log(message: Bytes)
      modifies this`logged
      ensures Value() == Logged(old(Value()), message)
    {
      if on {
        logged := logged + [message];
      }
    }

    method FlushBuffer(allowEmpty: bool)
      modifies this`buff, this`logged
      ensures var logged := if allowEmpty || old(buff) != [] then Logged(old(Value()), old(buff)) else old(Value());
        Value() == logged.(pending := [])
    {
      if allowEmpty || |buff| > 0 {
        Log(buff);
      }
      buff := [];
    }

    /** Consumes a line, or all there is. */
    method WriteLine(bs: Bytes) returns (remaining: Bytes)
      requires on && bs != []
      modifies this`buff, this`logged
      ensures |remaining| < |bs| && remaining == bs[|bs| - |remaining|..]
      ensures Value() == TakeAll(old(Value()), AllData(bs[..|bs| - |remaining|]))
    {
      var idx := IndexByte(bs, NEWLINE);
      if idx < 0 {
        TakesPlainBytes(Value(), bs);
        assert bs[..|bs|] == bs;
        buff := buff + bs;
        return [];
      }
      var line := bs[..idx];
      remaining := bs[idx + 1..];
      assert bs[..idx + 1] == line + [NEWLINE];
      TakesLine(Value(), line);
      if |buff| == 0 {
        assert buff + line == line;
        Log(line);
        return;
      }
      buff := buff + line;
      FlushBuffer(true);
    }

    /** Reports all bytes as written; how the stream is divided into calls makes no difference. */
    method Write(bs: Bytes) returns (n: nat)
      modifies this`buff, this`logged
      ensures n == |bs|
      ensures Value() == TakeAll(old(Value()), AllData(bs))
    {
      if !on {
        IgnoresBytesWhenOff(Value(), bs);
        return |bs|;
      }
      n := |bs|;
      var rest := bs;
      while |rest| > 0
        invariant on && |rest| <= |bs| && rest == bs[|bs| - |rest|..]
        invariant Value() == TakeAll(old(Value()), AllData(bs[..|bs| - |rest|]))
        decreases |rest|
      {
        ghost var done := bs[..|bs| - |rest|];
        ghost var before := rest;
        rest := WriteLine(rest);
        ghost var took := before[..|before| - |rest|];
        assert bs[..|bs| - |rest|] == done + took;
        AllDataConcat(done, took);
        TakeAllConcat(old(Value()), AllData(done), AllData(took));
      }
      assert bs[..|bs|] == bs;
    }

    method Sync()
      modifies this`buff, this`logged
      ensures Value() == Take(old(Value()), Flush)
    {
      FlushBuffer(false);
    }

    /** Any run, against the same events taken one byte at a time. */
    method Run(events: seq<Event>)
      modifies this
      ensures Value() == TakeAll(old(Value()), Items(events))
      decreases events
    {
      if |events| > 0 {
        ghost var start := Value();
        match events[0] {
          case Wrote(bs) => var n := Write(bs);
          case Synced =>
            Sync();
            TakeOne(start, Flush);
          case Switched(b) =>
            on := b;
            TakeOne(start, Toggle(b));
        }
        TakeAllConcat(start, ItemsOf(events[0]), Items(events[1..]));
        Run(events[1..]);
      }
    }
  }

  /** Two runs that agree once their writes are read as streams end alike. */
  method ChunkingDoesNotMatter(on: bool, a: seq<Event>, b: seq<Event>) returns (first: seq<Bytes>, second: seq<Bytes>)
    requires Items(a) == Items(b)
    ensures first == second == TakeAll(State(on, [], []), Items(a)).logged
  {
    var v := new Writer(on);
    var w := new Writer(on);
    v.Run(a);
    w.Run(b);
    return v.logged, w.logged;
  }
}
