/** The client's side of the remote connection: exact two-phase reads of one frame at a time. */
module RemoteFraming {
  import opened Bytes
  import opened WordBits
  import opened FrameCodec

  ghost predicate AllFrames(frames: seq<seq<byte>>) {
    forall f :: f in frames ==> IsFrame(f)
  }

  /** No length field that the reader gets to see exceeds the buffer. */
  ghost predicate WellFramed(s: seq<byte>)
    decreases |s|
  {
    |s| >= FRAME_FMT_SIZE ==>
      && SizeOf(s) <= SOCKET_BUFFER_SIZE
      && (|s| >= SizeOf(s) ==> WellFramed(s[SizeOf(s)..]))
  }

  lemma {:induction false} FramesAreWellFramed(frames: seq<seq<byte>>)
    requires AllFrames(frames)
    ensures WellFramed(Flatten(frames))
  {
    if |frames| > 0 {
      assert IsFrame(frames[0]);
      FramesAreWellFramed(frames[1..]);
      assert Flatten(frames)[|frames[0]|..] == Flatten(frames[1..]);
    }
  }

  /** A byte stream has only one reading as frames: what was delivered is a prefix of what was sent. */
  lemma {:induction false} UniqueReading(d: seq<seq<byte>>, r: seq<byte>, frames: seq<seq<byte>>)
    requires AllFrames(d) && AllFrames(frames) && Flatten(d) + r == Flatten(frames)
    ensures |d| <= |frames| && d == frames[..|d|] && r == Flatten(frames[|d|..])
  {
    if |d| > 0 {
      var f := d[0];
      assert Flatten(frames)[..|f|] == f;
      assert IsFrame(f);
      assert |frames| > 0;
      var g := frames[0];
      assert IsFrame(g);
      assert Flatten(frames)[1] == g[1] && Flatten(frames)[2] == g[2];
      assert f[1] == g[1] && f[2] == g[2];
      assert Flatten(d[1..]) + r == Flatten(frames[1..]) by {
        assert (Flatten(d) + r)[|f|..] == Flatten(d[1..]) + r;
        assert Flatten(frames)[|f|..] == Flatten(frames[1..]);
      }
      UniqueReading(d[1..], r, frames[1..]);
    } else {
      assert [] + r == r;
    }
  }

  /** The socket: `recv` hands over some of the bytes still to come, or nothing when it fails. */
  class Socket {
    var incoming: seq<byte>

    constructor (bytes: seq<byte>)
      ensures incoming == bytes
    {
      incoming := bytes;
    }

    /** At most `want` bytes, and no more than are `ready`. */
    method Recv(want: nat, ready: nat) returns (data: seq<byte>)
      modifies this
      ensures |data| <= want && (ready > 0 && want > 0 && |old(incoming)| > 0 ==> |data| > 0)
      ensures old(incoming) == data + incoming
    {
      var n := if ready < want then ready else want;
      n := if n < |incoming| then n else |incoming|;
      data := incoming[..n];
      incoming := incoming[n..];
    }
  }

  class RemoteConnection {
    const buffer: array<byte>
    var len: nat
    ghost var delivered: seq<seq<byte>>

    /** The buffer holds the beginning of one frame and no byte of the next. */
    ghost predicate Valid()
      reads this, buffer
    {
      && buffer.Length == SOCKET_BUFFER_SIZE && len < SOCKET_BUFFER_SIZE
      && (len >= FRAME_FMT_SIZE ==> len < SizeOf(buffer[..]) <= SOCKET_BUFFER_SIZE)
      && AllFrames(delivered)
    }

    constructor ()
      ensures Valid() && len == 0 && delivered == [] && fresh(buffer)
    {
      buffer := new byte[SOCKET_BUFFER_SIZE](_ => 0);
      len := 0;
      delivered := [];
    }

    /** One `recv` to the end of what the buffer already holds. */
    method Append(sock: Socket, want: nat, ready: nat) returns (ret: nat)
      requires buffer.Length == SOCKET_BUFFER_SIZE && len + want <= SOCKET_BUFFER_SIZE
      modifies this`len, buffer, sock
      ensures len == old(len) + ret && ret <= want
      ensures |sock.incoming| == |old(sock.incoming)| - ret
      ensures ready > 0 && want > 0 && old(sock.incoming) != [] ==> ret > 0
      ensures buffer[..len] + sock.incoming == old(buffer[..len] + sock.incoming)
      ensures buffer[..old(len)] == old(buffer[..len])
    {
      var data := sock.Recv(want, ready);
      forall i | 0 <= i < |data| {
        buffer[len + i] := data[i];
      }
      assert buffer[..len + |data|] == old(buffer[..len]) + data;
      ret := |data|;
      len := len + ret;
    }

    /** `process_remote_event` on a buffer that holds exactly one frame, and the clearing after it. */
    method Deliver(sock: Socket, ghost stream: seq<byte>)
      requires buffer.Length == SOCKET_BUFFER_SIZE && AllFrames(delivered)
      requires len == SizeOf(buffer[..]) <= SOCKET_BUFFER_SIZE
      requires stream == buffer[..len] + sock.incoming && WellFramed(stream)
      modifies this, buffer
      ensures Valid() && len == 0 && WellFramed(sock.incoming)
      ensures delivered == old(delivered) + [old(buffer[..len])]
      ensures Flatten(delivered) + sock.incoming == old(Flatten(delivered)) + stream
    {
      ghost var f := buffer[..len];
      assert stream[1] == f[1] && stream[2] == f[2] && stream[|f|..] == sock.incoming;
      FlattenAppend(delivered, f);
      assert Flatten(delivered) + stream == Flatten(delivered) + f + sock.incoming;
      delivered := delivered + [f];
      forall i | 0 <= i < buffer.Length {
        buffer[i] := 0;
      }
      len := 0;
    }

    /** `recv_remote_server`: the stream is conserved, and at most one whole frame is delivered. */
    method RecvRemoteServer(sock: Socket, ready1: nat, ready2: nat) returns (ret: int)
      requires Valid() && WellFramed(buffer[..len] + sock.incoming)
      modifies this, buffer, sock
      ensures Valid() && WellFramed(buffer[..len] + sock.incoming)
      ensures old(delivered) <= delivered && |delivered| <= |old(delivered)| + 1
      ensures Flatten(delivered) + (buffer[..len] + sock.incoming)
           == old(Flatten(delivered)) + old(buffer[..len] + sock.incoming)
      ensures ret == -1 ==> delivered == old(delivered)
      ensures ret == -1 && ready1 > 0 && ready2 > 0 ==> sock.incoming == []
      ensures |sock.incoming| <= |old(sock.incoming)|
      ensures ready1 > 0 && ready2 > 0 && old(sock.incoming) != [] ==> |sock.incoming| < |old(sock.incoming)|
    {
      hide IsFrame, WellFramed;
      ghost var stream := buffer[..len] + sock.incoming;
      if len < FRAME_FMT_SIZE {
        var got := Append(sock, FRAME_FMT_SIZE - len, ready1);
        if len < FRAME_FMT_SIZE {
          return if got == 0 then -1 else 0;
        }
        LengthSeen(stream, buffer[..len], sock.incoming);
      }
      var total := LenField(buffer[..]);
      if len < total {
        ghost var seen := buffer[..len];
        var got := Append(sock, total - len, ready2);
        assert buffer[..|seen|] == seen;
        assert buffer[1] == seen[1] && buffer[2] == seen[2];
        if len < total {
          return if got == 0 then -1 else 0;
        }
      }
      Deliver(sock, stream);
      assert buffer[..0] + sock.incoming == sock.incoming;
      return 0;
    }
  }

  lemma LengthSeen(stream: seq<byte>, b: seq<byte>, rest: seq<byte>)
    requires WellFramed(stream) && stream == b + rest && |b| >= FRAME_FMT_SIZE
    ensures SizeOf(b) <= SOCKET_BUFFER_SIZE
  {
    assert stream[1] == b[1] && stream[2] == b[2];
  }

  /** Bytes that do not reach the end of a frame are not a list of frames, unless there are none. */
  lemma PartialIsNotWhole(b: seq<byte>, frames: seq<seq<byte>>)
    requires AllFrames(frames) && b == Flatten(frames)
    ensures |frames| > 0 ==> |b| >= FRAME_FMT_SIZE && SizeOf(b) <= |b|
  {
    if |frames| > 0 {
      assert IsFrame(frames[0]);
      assert b[1] == frames[0][1] && b[2] == frames[0][2];
    }
  }

  /** Whatever the sizes of the reads, the frames that were sent are delivered in order and whole; once every byte
      has been read, all of them have been, and as many reads of any positive size as there are bytes see to that. */
  method ReceiveAll(frames: seq<seq<byte>>, readies: seq<(nat, nat)>) returns (conn: RemoteConnection, sock: Socket)
    requires AllFrames(frames)
    ensures |conn.delivered| <= |frames| && conn.delivered == frames[..|conn.delivered|]
    ensures sock.incoming == [] ==> conn.delivered == frames
    ensures (forall r <- readies :: r.0 > 0 && r.1 > 0) && |readies| >= |Flatten(frames)| ==> conn.delivered == frames
  {
    FramesAreWellFramed(frames);
    sock := new Socket(Flatten(frames));
    conn := new RemoteConnection();
    assert conn.buffer[..0] + sock.incoming == sock.incoming;
    for i := 0 to |readies|
      invariant fresh(conn) && fresh(conn.buffer) && fresh(sock)
      invariant conn.Valid() && WellFramed(conn.buffer[..conn.len] + sock.incoming)
      invariant Flatten(conn.delivered) + (conn.buffer[..conn.len] + sock.incoming) == Flatten(frames)
      invariant (forall r <- readies :: r.0 > 0 && r.1 > 0) ==>
                  sock.incoming == [] || |sock.incoming| + i <= |Flatten(frames)|
    {
      var ret := conn.RecvRemoteServer(sock, readies[i].0, readies[i].1);
      if ret == -1 {
        break;
      }
    }
    var rest := conn.buffer[..conn.len] + sock.incoming;
    UniqueReading(conn.delivered, rest, frames);
    if sock.incoming == [] {
      assert rest == conn.buffer[..conn.len];
      PartialIsNotWhole(rest, frames[|conn.delivered|..]);
    }
  }

  /** Consecutive frames of one encoder. */
  function EncodeAll(token: nat, cs: seq<Content>): (frames: seq<seq<byte>>)
    ensures |frames| == |cs|
    decreases |cs|
  {
    if |cs| == 0 then [] else [Encode(token, cs[0])] + EncodeAll((token + 1) % TWO_32, cs[1..])
  }

  /** What an encoder sends is what the reader decodes, in order. */
  lemma {:induction false} ContentsComeBack(token: nat, cs: seq<Content>)
    requires forall c :: c in cs ==> |c.id| == FRAME_TASK_ID_SIZE && |c.data| + FRAME_FMT_SIZE <= SOCKET_BUFFER_SIZE
    ensures AllFrames(EncodeAll(token, cs))
    ensures forall i :: 0 <= i < |cs| ==>
              |EncodeAll(token, cs)[i]| >= FRAME_FMT_SIZE && Decode(EncodeAll(token, cs)[i]) == cs[i]
    decreases |cs|
  {
    hide Encode, Decode;
    if |cs| > 0 {
      assert cs[0] in cs;
      RoundTrip(token, cs[0]);
      ContentsComeBack((token + 1) % TWO_32, cs[1..]);
    }
  }
}
