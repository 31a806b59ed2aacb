/** The frame layout shared with the remote server, and the encoder that fills it. */
module FrameCodec {
  import opened Bytes
  import opened WordBits
  import opened Md5Block
  import opened Md5Stream

  const FRAME_FMT_SIZE := 43
  const FRAME_DATA_BEFORE_SIZE := 26
  const FRAME_TASK_ID_SIZE := 16
  const FRAME_MD5_SIZE := 16
  const SOCKET_BUFFER_SIZE := 1400

  type short = x: int | -0x8000 <= x < 0x8000

  datatype Option<T> = None | Some(value: T)

  /** What a frame is for: its type, state, task id and data. */
  datatype Content = Content(taskType: byte, taskState: short, id: seq<byte>, data: seq<byte>)

  function Le16(n: nat): (b: seq<byte>)
    ensures |b| == 2
  {
    [n % 256, n / 256 % 256]
  }

  function Unsigned16(b0: byte, b1: byte): nat {
    b0 + 256 * b1
  }

  function Signed16(b0: byte, b1: byte): short {
    var n := Unsigned16(b0, b1);
    if n < 0x8000 then n else n - 0x1_0000
  }

  /** Two's complement. */
  function ShortBits(x: short): nat {
    if x < 0 then x + 0x1_0000 else x
  }

  /** The fixed fields: head, length, token, type and state. */
  function Fields(len: nat, token: nat, taskType: byte, taskState: short): (h: seq<byte>)
    ensures |h| == 10
  {
    [0xFE] + Le16(len) + LeBytes(token % TWO_32) + [taskType] + Le16(ShortBits(taskState))
  }

  function Covered(token: nat, c: Content): seq<byte> {
    Fields(|c.data| + FRAME_FMT_SIZE, token, c.taskType, c.taskState) + c.id + c.data
  }

  /** A whole frame: what the digest covers, the digest, and the end mark. */
  function Encode(token: nat, c: Content): seq<byte> {
    Covered(token, c) + Md5(Covered(token, c)) + [0xFF]
  }

  /** `chp->len` of a frame in a buffer. */
  function LenField(b: seq<byte>): nat
    requires |b| >= 3
  {
    Unsigned16(b[1], b[2])
  }

  function Decode(b: seq<byte>): Content
    requires |b| >= FRAME_FMT_SIZE
  {
    Content(b[7], Signed16(b[8], b[9]), b[10..26], b[26..|b| - 17])
  }

  /** How many bytes a receiver takes for the frame at the front of `b`: a smaller length field still counts as the
      fixed part. */
  function SizeOf(b: seq<byte>): (n: nat)
    requires |b| >= 3
    ensures n >= FRAME_FMT_SIZE && n >= LenField(b)
  {
    if LenField(b) < FRAME_FMT_SIZE then FRAME_FMT_SIZE else LenField(b)
  }

  ghost predicate IsFrame(b: seq<byte>) {
    FRAME_FMT_SIZE <= |b| <= SOCKET_BUFFER_SIZE && SizeOf(b) == |b|
  }

  lemma Md5Length(m: seq<byte>)
    ensures |Md5(m)| == 16
  {
    hide Absorb, Pad, LeBytes;
  }

  lemma FieldsDecode(len: nat, token: nat, taskType: byte, taskState: short)
    requires len < 0x1_0000
    ensures var h := Fields(len, token, taskType, taskState);
      Unsigned16(h[1], h[2]) == len && h[7] == taskType && Signed16(h[8], h[9]) == taskState
  {
    hide LeBytes;
    var h, n := Fields(len, token, taskType, taskState), ShortBits(taskState);
    assert h[1..3] == Le16(len) && h[8..10] == Le16(n);
    assert len / 256 < 256 && n / 256 < 256;
  }

  /** A built frame carries its own length and comes back with the same type, state, id and data. */
  lemma RoundTrip(token: nat, c: Content)
    requires |c.id| == FRAME_TASK_ID_SIZE && |c.data| + FRAME_FMT_SIZE < 0x1_0000
    ensures var b := Encode(token, c);
      |b| == |c.data| + FRAME_FMT_SIZE && LenField(b) == |b| && Decode(b) == c
  {
    hide Md5, Fields, Signed16, Unsigned16;
    Md5Length(Covered(token, c));
    FieldsDecode(|c.data| + FRAME_FMT_SIZE, token, c.taskType, c.taskState);
    var h, b := Fields(|c.data| + FRAME_FMT_SIZE, token, c.taskType, c.taskState), Encode(token, c);
    assert b[..10] == h && b[1] == h[1] && b[2] == h[2] && b[7] == h[7] && b[8] == h[8] && b[9] == h[9];
    assert b[10..26] == c.id && b[26..|b| - 17] == c.data;
  }

  function Pair(low: int, high: int): int {
    low + 256 * high
  }

  lemma FieldsLayout(len: nat, token: nat, taskType: byte, taskState: short)
    requires len < 0x1_0000
    ensures var h := Fields(len, token, taskType, taskState);
      && h[0] == 0xFE && Pair(h[1], h[2]) == len && WordOf(h[3], h[4], h[5], h[6]) == token % TWO_32
      && h[7] == taskType && (Pair(h[8], h[9]) - taskState) % 0x1_0000 == 0
  {
    hide LeBytes, WordOf;
    LittleEndianLoad(token % TWO_32);
    var h, w, n := Fields(len, token, taskType, taskState), LeBytes(token % TWO_32), ShortBits(taskState);
    assert h[3..7] == w && h[3] == w[0] && h[4] == w[1] && h[5] == w[2] && h[6] == w[3];
    assert h[1..3] == Le16(len) && h[8..10] == Le16(n);
    assert len / 256 < 256 && n / 256 < 256;
  }

  /** Byte by byte, the packed layout of `struct frame_fmt`: head, length, token, type, state, id, data, digest of all
      that comes before it, and end mark. */
  ghost predicate LaidOut(b: seq<byte>, token: nat, c: Content) {
    && |b| == |c.data| + 43
    && b[0] == 0xFE && Pair(b[1], b[2]) == |b| && WordOf(b[3], b[4], b[5], b[6]) == token % TWO_32
    && b[7] == c.taskType && (Pair(b[8], b[9]) - c.taskState) % 0x1_0000 == 0
    && b[10..26] == c.id && b[26..|b| - 17] == c.data
    && b[|b| - 17..|b| - 1] == Md5(b[..|b| - 17]) && b[|b| - 1] == 0xFF
  }

  lemma FrameLayout(token: nat, c: Content)
    requires |c.id| == FRAME_TASK_ID_SIZE && |c.data| + FRAME_FMT_SIZE < 0x1_0000
    ensures LaidOut(Encode(token, c), token, c)
  {
    hide Md5, Fields, WordOf, Pair;
    Md5Length(Covered(token, c));
    FieldsLayout(|c.data| + FRAME_FMT_SIZE, token, c.taskType, c.taskState);
    var h, b := Fields(|c.data| + FRAME_FMT_SIZE, token, c.taskType, c.taskState), Encode(token, c);
    forall i | 0 <= i < 10 ensures b[i] == h[i] { }
    assert b[..|b| - 17] == Covered(token, c) && b[|b| - 17..|b| - 1] == Md5(Covered(token, c));
    assert b[10..26] == c.id && b[26..|b| - 17] == c.data;
  }

  class Encoder {
    var localToken: nat

    constructor ()
      ensures localToken == 0
    {
      localToken := 0;
    }

    /** The fields, the id if there is one, and the data. */
    method FillFields(sb: array<byte>, fields: seq<byte>, id: Option<seq<byte>>, data: seq<byte>)
      requires |fields| == 10 && (id.Some? ==> |id.value| == FRAME_TASK_ID_SIZE) && |data| + 26 <= sb.Length
      modifies sb
      ensures var i := if id.Some? then id.value else old(sb[10..26]);
        sb[..] == fields + i + data + old(sb[26 + |data|..])
    {
      ghost var before := sb[..];
      CopyTo(sb, 26, data);
      ghost var one := sb[..];
      CopyTo(sb, 0, fields);
      ghost var two := sb[..];
      Layout(before, one, two, fields, before[10..26], data);
      if id.Some? {
        CopyTo(sb, 10, id.value);
        Layout(before, one, two, fields, id.value, data);
      }
    }

    /** The digest of the first `len` bytes and the end mark. */
    method Seal(sb: array<byte>, len: nat)
      requires len + 17 <= sb.Length && len < TWO_32
      modifies sb
      ensures sb[..] == old(sb[..len]) + Md5(old(sb[..len])) + [0xFF] + old(sb[len + 17..])
    {
      hide Md5;
      ghost var before := sb[..];
      var fcs := MakeMd5Fcs(sb[..len]);
      Md5Length(sb[..len]);
      CopyTo(sb, len, fcs);
      assert sb[..] == before[..len] + fcs + before[len + 16..];
      CopyTo(sb, len + FRAME_MD5_SIZE, [0xFF]);
    }

    /** `fill_frame_buffer`; without an id the sixteen id bytes of the buffer stay as they are. */
    method FillFrameBuffer(sb: array<byte>, taskType: byte, taskState: short, id: Option<seq<byte>>, data: seq<byte>)
      returns (len: nat)
      requires id.Some? ==> |id.value| == FRAME_TASK_ID_SIZE
      requires |data| + FRAME_FMT_SIZE <= sb.Length && |data| + FRAME_FMT_SIZE < 0x1_0000
      modifies this, sb
      ensures localToken == (old(localToken) + 1) % TWO_32
      ensures var c := Content(taskType, taskState, if id.Some? then id.value else old(sb[10..26]), data);
        len == |data| + FRAME_FMT_SIZE && sb[..] == Encode(old(localToken), c) + old(sb[len..])
    {
      hide Md5, Fields;
      ghost var before := sb[..];
      ghost var c := Content(taskType, taskState, if id.Some? then id.value else before[10..26], data);
      FillFields(sb, Fields(|data| + FRAME_FMT_SIZE, localToken, taskType, taskState), id, data);
      localToken := (localToken + 1) % TWO_32;
      len := FRAME_DATA_BEFORE_SIZE + |data|;
      assert sb[..len] == Covered(old(localToken), c) && sb[len + 17..] == before[len + 17..];
      Seal(sb, len);
      len := len + FRAME_MD5_SIZE + 1;
    }
  }

  lemma Layout(before: seq<byte>, one: seq<byte>, two: seq<byte>, fields: seq<byte>, id: seq<byte>, data: seq<byte>)
    requires |fields| == 10 && |id| == 16 && 26 + |data| <= |before| == |one| == |two|
    requires one == before[..26] + data + before[26 + |data|..] && two == fields + one[10..]
    ensures two[..10] + id + two[26..] == fields + id + data + before[26 + |data|..]
    ensures two == fields + before[10..26] + data + before[26 + |data|..]
  {
    assert one[10..] == before[10..26] + data + before[26 + |data|..];
    assert two[26..] == data + before[26 + |data|..];
  }
}
