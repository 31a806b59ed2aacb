/** The client's side of the local socket: accumulate, dispatch every whole frame, move the rest to the front. */
module LocalFraming {
  import opened Bytes
  import opened FrameCodec

  const CMD_HEADER_SIZE := 8

  /** The length field of a command header and the whole size of its frame. */
  function FrameSize(b: seq<byte>): nat
    requires |b| >= CMD_HEADER_SIZE
  {
    Unsigned16(b[6], b[7]) + CMD_HEADER_SIZE
  }

  /** The stream starts with a whole frame. */
  predicate HasFrame(b: seq<byte>) {
    |b| >= CMD_HEADER_SIZE && |b| >= FrameSize(b)
  }

  /** The greedy reading of a stream: its frames, and what is left over. */
  function Frames(b: seq<byte>): seq<seq<byte>>
    decreases |b|
  {
    if HasFrame(b) then [b[..FrameSize(b)]] + Frames(b[FrameSize(b)..]) else []
  }

  function Tail(b: seq<byte>): (t: seq<byte>)
    ensures |t| <= |b|
    decreases |b|
  {
    if HasFrame(b) then Tail(b[FrameSize(b)..]) else b
  }

  lemma ReadOne(b: seq<byte>)
    ensures HasFrame(b) ==>
              Frames(b) == [b[..FrameSize(b)]] + Frames(b[FrameSize(b)..]) && Tail(b) == Tail(b[FrameSize(b)..])
    ensures !HasFrame(b) ==> Frames(b) == [] && Tail(b) == b
  {
  }

  /** Reading a stream in two pieces is reading it at once. */
  lemma {:induction false} ReadInPieces(a: seq<byte>, b: seq<byte>)
    ensures Frames(a + b) == Frames(a) + Frames(Tail(a) + b)
    ensures Tail(a + b) == Tail(Tail(a) + b)
    decreases |a|
  {
    hide Frames, Tail;
    ReadOne(a);
    ReadOne(a + b);
    if HasFrame(a) {
      var n := FrameSize(a);
      assert (a + b)[6] == a[6] && (a + b)[7] == a[7];
      assert (a + b)[..n] == a[..n] && (a + b)[n..] == a[n..] + b;
      ReadInPieces(a[n..], b);
    }
  }

  // ---------- commands ----------

  /** A command between two modules, as `struct cmd_header` lays it out. */
  datatype Command = Command(host: nat, target: nat, cmd: nat, data: seq<byte>)

  predicate Fits(c: Command) {
    c.host < 0x1_0000 && c.target < 0x1_0000 && c.cmd < 0x1_0000 && |c.data| < 0x1_0000
  }

  function CommandFrame(c: Command): seq<byte> {
    Le16(c.host) + Le16(c.target) + Le16(c.cmd) + Le16(|c.data|) + c.data
  }

  function CommandOf(b: seq<byte>): Command
    requires |b| >= CMD_HEADER_SIZE
  {
    Command(Unsigned16(b[0], b[1]), Unsigned16(b[2], b[3]), Unsigned16(b[4], b[5]), b[8..])
  }

  lemma Le16Back(n: nat)
    requires n < 0x1_0000
    ensures Unsigned16(Le16(n)[0], Le16(n)[1]) == n
  {
    assert n / 256 < 256;
  }

  /** A command's frame has the size that its header says, and comes back as the command. */
  lemma CommandComesBack(c: Command)
    requires Fits(c)
    ensures var b := CommandFrame(c);
      |b| == CMD_HEADER_SIZE + |c.data| && FrameSize(b) == |b| && CommandOf(b) == c
  {
    hide Le16, Unsigned16;
    Le16Back(c.host);
    Le16Back(c.target);
    Le16Back(c.cmd);
    Le16Back(|c.data|);
    var b := CommandFrame(c);
    assert b[0] == Le16(c.host)[0] && b[1] == Le16(c.host)[1] && b[2] == Le16(c.target)[0] && b[3] == Le16(c.target)[1];
    assert b[4] == Le16(c.cmd)[0] && b[5] == Le16(c.cmd)[1];
    assert b[6] == Le16(|c.data|)[0] && b[7] == Le16(|c.data|)[1] && b[8..] == c.data;
  }

  function CommandFrames(cs: seq<Command>): (frames: seq<seq<byte>>)
    ensures |frames| == |cs|
  {
    seq(|cs|, i requires 0 <= i < |cs| => CommandFrame(cs[i]))
  }

  /** A stream of commands is read as those commands, and nothing is left over. */
  lemma {:induction false} CommandsComeBack(cs: seq<Command>)
    requires forall c <- cs :: Fits(c)
    ensures Frames(Flatten(CommandFrames(cs))) == CommandFrames(cs) && Tail(Flatten(CommandFrames(cs))) == []
  {
    hide CommandFrame, FrameSize;
    if |cs| > 0 {
      var f, fs, rest := CommandFrame(cs[0]), CommandFrames(cs), CommandFrames(cs[1..]);
      CommandComesBack(cs[0]);
      CommandsComeBack(cs[1..]);
      assert fs[0] == f && fs[1..] == rest;
      var b := Flatten(fs);
      assert b == f + Flatten(rest);
      SizeOfFront(f, Flatten(rest));
      assert b[..|f|] == f && b[|f|..] == Flatten(rest);
      assert fs == [f] + rest;
    }
  }

  lemma SizeOfFront(f: seq<byte>, rest: seq<byte>)
    requires |f| >= CMD_HEADER_SIZE
    ensures FrameSize(f + rest) == FrameSize(f)
  {
    assert (f + rest)[6] == f[6] && (f + rest)[7] == f[7];
  }

  class LocalConnection {
    const buffer: array<byte>
    var len: nat
    ghost var received: seq<byte>
    ghost var dispatched: seq<seq<byte>>

    /** Every whole frame of the connection's stream so far has been dispatched, and the buffer holds exactly the
        rest. */
    ghost predicate Valid()
      reads this, buffer
    {
      && buffer.Length == SOCKET_BUFFER_SIZE && len <= SOCKET_BUFFER_SIZE
      && dispatched == Frames(received) && buffer[..len] == Tail(received)
    }

    constructor ()
      ensures Valid() && received == [] && fresh(buffer)
    {
      buffer := new byte[SOCKET_BUFFER_SIZE](_ => 0);
      len := 0;
      received, dispatched := [], [];
    }

    /** `recv_local_server` after `recv` stored `chunk` behind the waiting bytes. An empty chunk is a closed or
        failed connection: everything waiting is dropped, and a new stream begins. */
    method RecvLocalServer(chunk: seq<byte>)
      requires Valid() && len + |chunk| <= SOCKET_BUFFER_SIZE
      modifies this, buffer
      ensures Valid() && received == if |chunk| == 0 then [] else old(received) + chunk
      ensures |chunk| > 0 ==> old(dispatched) <= dispatched
    {
      assert Frames([]) == [] && Tail([]) == [];
      hide Tail, Frames;
      if |chunk| == 0 {
        len := 0;
        forall i | 0 <= i < buffer.Length { buffer[i] := 0; }
        received, dispatched := [], [];
        return;
      }
      forall i | 0 <= i < |chunk| { buffer[len + i] := chunk[i]; }
      var sum := |chunk| + len;
      assert buffer[..sum] == old(buffer[..len]) + chunk;
      var idx, done := DispatchAll(sum);
      ReadInPieces(received, chunk);
      received := received + chunk;
      dispatched := dispatched + done;
      len := sum - idx;
      MoveToFront(idx);
    }

    /** The dispatch loop: `idx` moves over every whole frame of the first `sum` bytes, at least 8 bytes at a time. */
    method DispatchAll(sum: nat) returns (idx: nat, ghost done: seq<seq<byte>>)
      requires sum <= buffer.Length
      ensures idx <= sum
      ensures done == Frames(buffer[..sum]) && buffer[idx..sum] == Tail(buffer[..sum])
    {
      hide Frames, Tail;
      ghost var stream := buffer[..sum];
      idx := 0;
      done := [];
      while true
        invariant idx <= sum && done + Frames(stream[idx..]) == Frames(stream) && Tail(stream[idx..]) == Tail(stream)
        decreases sum - idx
      {
        ghost var rest := stream[idx..];
        ReadOne(rest);
        if sum < CMD_HEADER_SIZE + idx {
          break;
        }
        var size := Unsigned16(buffer[idx + 6], buffer[idx + 7]) + CMD_HEADER_SIZE;
        assert size == FrameSize(rest);
        if sum < size + idx {
          break;
        }
        assert rest[size..] == stream[idx + size..];
        assert done + ([rest[..size]] + Frames(rest[size..])) == done + [rest[..size]] + Frames(rest[size..]);
        done := done + [rest[..size]];
        idx := idx + size;
      }
      assert done + [] == done;
    }

    /** `memmove` of the unread bytes to the front and `memset` of what is behind them. */
    method MoveToFront(idx: nat)
      requires buffer.Length == SOCKET_BUFFER_SIZE && idx + len <= SOCKET_BUFFER_SIZE
      modifies buffer
      ensures buffer[..len] == old(buffer[idx..idx + len])
    {
      if idx != 0 {
        forall i | 0 <= i < len { buffer[i] := buffer[idx + i]; }
      }
      forall i | len <= i < buffer.Length { buffer[i] := 0; }
    }
  }

  /** What is waiting before chunk `k`. */
  function Waiting(chunks: seq<seq<byte>>, k: nat): nat
    requires k <= |chunks|
  {
    |Tail(Flatten(chunks[..k]))|
  }

  /** Every cut of a stream into chunks that fit the buffer dispatches the same frames: those of the whole stream. */
  method ReceiveChunks(chunks: seq<seq<byte>>) returns (conn: LocalConnection)
    requires forall k :: 0 <= k < |chunks| ==> |chunks[k]| > 0 && Waiting(chunks, k) + |chunks[k]| <= SOCKET_BUFFER_SIZE
    ensures conn.Valid() && conn.received == Flatten(chunks) && conn.dispatched == Frames(Flatten(chunks))
  {
    assert Flatten(chunks[..0]) == [];
    hide Tail, Frames, HasFrame, Flatten;
    conn := new LocalConnection();
    for k := 0 to |chunks|
      invariant fresh(conn) && fresh(conn.buffer) && conn.Valid() && conn.received == Flatten(chunks[..k])
    {
      assert Waiting(chunks, k) == |conn.buffer[..conn.len]|;
      conn.RecvLocalServer(chunks[k]);
      FlattenNext(chunks, k);
    }
    assert chunks[..|chunks|] == chunks;
  }
}
