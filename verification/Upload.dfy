/** Uploading a trace file that is still growing, 1024 bytes at a time. */
module Upload {
  import opened Bytes
  import opened WordBits
  import opened Md5Stream
  import opened FrameCodec
  import opened TaskTable

  const UPLOAD_FRAME_DATA_SIZE := 1024
  const TWO_31 := 0x8000_0000

  /** UPLOAD_UPLOADING, or UPLOAD_LATEST when `latest`. */
  datatype Reply = Reply(fragment: nat, data: seq<byte>, latest: bool)

  /** `lseek` and `read` of one fragment. */
  function ReadAt(file: seq<byte>, offset: nat): (r: seq<byte>)
    ensures |r| <= UPLOAD_FRAME_DATA_SIZE
  {
    if offset >= |file| then []
    else if offset + UPLOAD_FRAME_DATA_SIZE <= |file| then file[offset..offset + UPLOAD_FRAME_DATA_SIZE]
    else file[offset..]
  }

  /** Offsets and limits are 32-bit unsigned products. */
  function Offset(fragment: nat): nat {
    (UPLOAD_FRAME_DATA_SIZE * (fragment - 1)) % TWO_32
  }

  function Limit(fragment: nat): nat {
    UPLOAD_FRAME_DATA_SIZE * fragment % TWO_32
  }

  /** What `upload_file` sends for one fragment request. The result of `lseek` is an int: from 2^31 on, which fragment
      number 0 reaches too, it reads as an error. */
  function Answer(file: seq<byte>, uploading: bool, traceStop: bool, fragment: nat): Option<Reply> {
    var data := ReadAt(file, Offset(fragment));
    if Offset(fragment) >= TWO_31 then None
    else if |file| >= Limit(fragment) then
      Some(Reply(fragment, data + seq(UPLOAD_FRAME_DATA_SIZE - |data|, _ => 0), false))
    else if !uploading || !traceStop then None
    else Some(Reply(fragment, data, true))
  }

  // ---------- the frame of a reply ----------

  const UPLOAD_TASK: byte := 3
  const UPLOAD_UPLOADING := 303
  const UPLOAD_LATEST := 304

  /** The data of an upload frame: fragment, length, compression, the file name and the fragment's bytes. */
  function Payload(r: Reply, name: seq<byte>): seq<byte>
    requires r.fragment < TWO_32 && |name| < 256
  {
    LeBytes(r.fragment) + Le16(|r.data|) + [0, |name|] + name + r.data
  }

  /** `upload_frame`. */
  function UploadFrame(token: nat, id: seq<byte>, r: Reply, name: seq<byte>): seq<byte>
    requires r.fragment < TWO_32 && |name| < 256
  {
    Encode(token, Content(UPLOAD_TASK, if r.latest then UPLOAD_LATEST else UPLOAD_UPLOADING, id, Payload(r, name)))
  }

  /** How the server takes such a frame apart; byte 6 says that nothing is compressed. */
  function Unpack(c: Content): Option<Reply> {
    if c.taskType != UPLOAD_TASK || |c.data| < 8 || c.data[6] != 0 then None
    else
      var nameLen: nat, len := c.data[7], Unsigned16(c.data[4], c.data[5]);
      if |c.data| < 8 + nameLen + len then None
      else
        Some(Reply(WordOf(c.data[0], c.data[1], c.data[2], c.data[3]), c.data[8 + nameLen..8 + nameLen + len],
                   c.taskState == UPLOAD_LATEST))
  }

  lemma PayloadUnpacks(r: Reply, name: seq<byte>, id: seq<byte>)
    requires r.fragment < TWO_32 && |name| < 256 && |r.data| <= UPLOAD_FRAME_DATA_SIZE
    ensures var c := Content(UPLOAD_TASK, if r.latest then UPLOAD_LATEST else UPLOAD_UPLOADING, id, Payload(r, name));
      |c.data| == 8 + |name| + |r.data| && Unpack(c) == Some(r)
  {
    hide LeBytes, WordOf;
    LittleEndianLoad(r.fragment);
    var p, f, n := Payload(r, name), LeBytes(r.fragment), |r.data|;
    assert p[..4] == f && p[0] == f[0] && p[1] == f[1] && p[2] == f[2] && p[3] == f[3];
    assert p[4] == n % 256 && p[5] == n / 256 && p[6] == 0 && p[7] == |name|;
    assert p[8 + |name|..8 + |name| + n] == r.data;
  }

  /** Every reply fits the receiver's buffer as one frame, and comes back from it. */
  lemma ReplyComesBack(token: nat, id: seq<byte>, r: Reply, name: seq<byte>)
    requires r.fragment < TWO_32 && |name| < 256 && |r.data| <= UPLOAD_FRAME_DATA_SIZE && |id| == FRAME_TASK_ID_SIZE
    ensures var b := UploadFrame(token, id, r, name);
      && IsFrame(b) && Decode(b).id == id && Unpack(Decode(b)) == Some(r)
      && Decode(b).taskType == 3 && Decode(b).taskState == if r.latest then 304 else 303
  {
    hide Encode, Decode, Payload, Unpack;
    PayloadUnpacks(r, name, id);
    var c := Content(UPLOAD_TASK, if r.latest then UPLOAD_LATEST else UPLOAD_UPLOADING, id, Payload(r, name));
    RoundTrip(token, c);
  }

  /** The task is given up at the seventh failed look at its file in a row. */
  const PATIENCE := 6

  class Uploader {
    var fragmentId: nat
    var traceStop: bool
    var oldFileLen: nat
    var noFileCheck: nat

    constructor ()
      ensures fragmentId == 0 && traceStop && oldFileLen == 0 && noFileCheck == 0
    {
      fragmentId, traceStop, oldFileLen, noFileCheck := 0, true, 0, 0;
    }

    /** `upload_file` for the task found by its id, if any, with this status and trace file, if it can be opened. */
    method UploadFile(status: Option<Status>, file: Option<seq<byte>>, fragment: nat) returns (reply: Option<Reply>)
      requires (file.Some? ==> |file.value| < TWO_31) && fragment < TWO_32
      modifies `fragmentId
      ensures status.None? || file.None? ==> reply == None && fragmentId == old(fragmentId)
      ensures status.Some? && file.Some? ==>
                fragmentId == fragment && reply == Answer(file.value, status.value == Uploading, traceStop, fragment)
    {
      if status.None? || file.None? {
        return None;
      }
      var len := |file.value|;
      fragmentId := fragment;
      if len >= Limit(fragment) {
        if Offset(fragment) >= TWO_31 {
          return None;
        }
        var content := ReadAt(file.value, Offset(fragment));
        return Some(Reply(fragment, content + seq(UPLOAD_FRAME_DATA_SIZE - |content|, _ => 0), false));
      }
      if len < Limit(fragment) && (status.value != Uploading || !traceStop) {
        return None;
      }
      if len <= Limit(fragment) && status.value == Uploading {
        if Offset(fragment) >= TWO_31 {
          return None;
        }
        return Some(Reply(fragment, ReadAt(file.value, Offset(fragment)), true));
      }
      reply := None;
    }

    /** `check_and_request`: the trace has stopped when two looks see the same length; a task whose file stays
        missing is deleted. */
    method CheckAndRequest(file: Option<seq<byte>>, status: Status) returns (request: bool, delete: bool)
      requires file.Some? ==> |file.value| < TWO_31
      modifies `traceStop, `oldFileLen, `noFileCheck
      ensures file.None? ==> !request && traceStop == old(traceStop) && oldFileLen == old(oldFileLen)
      ensures file.None? ==> (delete <==> old(noFileCheck) >= 6)
      ensures file.None? ==> noFileCheck == if delete then 0 else old(noFileCheck) + 1
      ensures file.Some? ==>
                && traceStop == (old(oldFileLen) > 0 && old(oldFileLen) == |file.value|) && oldFileLen == |file.value|
                && (request <==> status == Uploading || |file.value| >= (fragmentId + 1) * UPLOAD_FRAME_DATA_SIZE)
                && noFileCheck == 0 && !delete
    {
      if file.None? {
        delete := noFileCheck >= PATIENCE;
        noFileCheck := noFileCheck + 1;
        if delete {
          noFileCheck := 0;
        }
        return false, delete;
      }
      noFileCheck := 0;
      var len := |file.value|;
      traceStop := oldFileLen > 0 && oldFileLen == len;
      oldFileLen := len;
      if status == Uploading {
        return true, false;
      }
      return len >= (fragmentId + 1) * UPLOAD_FRAME_DATA_SIZE, false;
    }

    /** The UPLOAD_SUCCESS branch of `upload_task_process`, as far as it concerns the upload. */
    method UploadSucceeded()
      modifies `fragmentId
      ensures fragmentId == 0
    {
      fragmentId := 0;
    }
  }

  // ---------- a server that asks for fragments 1, 2, 3, ... ----------

  /** The file, the client's view of it, and what the server has put together. */
  datatype Session = Session(file: seq<byte>, traceStop: bool, oldLen: nat, held: seq<byte>, next: nat, finished: bool)

  datatype Event = Grow(bytes: seq<byte>) | Check | Ask(uploading: bool)

  function Step(s: Session, e: Event): Session {
    match e
    case Grow(bytes) => s.(file := s.file + bytes)
    case Check => s.(traceStop := s.oldLen > 0 && s.oldLen == |s.file|, oldLen := |s.file|)
    case Ask(uploading) =>
      if s.finished then s
      else match Answer(s.file, uploading, s.traceStop, s.next)
        case None => s
        case Some(r) => s.(held := s.held + r.data, next := s.next + 1, finished := r.latest)
  }

  /** A new upload; the two statics may be left over from an earlier one. */
  function Fresh(file: seq<byte>, traceStop: bool, oldLen: nat): Session {
    Session(file, traceStop, oldLen, [], 1, false)
  }

  function Play(s: Session, events: seq<Event>): Session {
    if |events| == 0 then s else Step(Play(s, events[..|events| - 1]), events[|events| - 1])
  }

  /** The server holds whole fragments from the start of the file, until the last one. */
  ghost predicate InStep(s: Session) {
    && s.next >= 1 && s.held <= s.file
    && (!s.finished ==> |s.held| == UPLOAD_FRAME_DATA_SIZE * (s.next - 1))
  }

  /** No wrap-around while the file length fits an int. */
  lemma AnswerInStep(s: Session, uploading: bool)
    requires InStep(s) && !s.finished && |s.file| < TWO_31
    ensures var a, k := Answer(s.file, uploading, s.traceStop, s.next), |s.held|;
      && (|s.file| >= k + 1024 ==> a == Some(Reply(s.next, s.file[k..k + 1024], false)))
      && (|s.file| < k + 1024 ==>
            a == if uploading && s.traceStop then Some(Reply(s.next, s.file[k..], true)) else None)
  {
    var k := |s.held|;
    assert Offset(s.next) == k && Limit(s.next) == k + UPLOAD_FRAME_DATA_SIZE;
    var data := ReadAt(s.file, k);
    if |s.file| >= k + UPLOAD_FRAME_DATA_SIZE {
      assert data + seq(UPLOAD_FRAME_DATA_SIZE - |data|, _ => 0) == data;
    } else {
      assert data == s.file[k..];
    }
  }

  lemma StepKeeps(s: Session, e: Event)
    requires InStep(s) && |Step(s, e).file| < TWO_31
    ensures InStep(Step(s, e)) && s.file <= Step(s, e).file && s.held <= Step(s, e).held
    ensures !s.finished && Step(s, e).finished ==> Step(s, e).held == s.file && s.traceStop
  {
    hide Answer;
    if e.Ask? && !s.finished {
      AnswerInStep(s, e.uploading);
      var k := |s.held|;
      assert s.held == s.file[..k];
      if |s.file| >= k + 1024 {
        assert s.file[..k] + s.file[k..k + 1024] == s.file[..k + 1024];
      } else {
        assert s.file[..k] + s.file[k..] == s.file;
      }
    }
  }

  /** Main result: whatever grows, is checked or asked in between, the server always holds a prefix of the file. */
  lemma {:induction false} AlwaysPrefix(s0: Session, events: seq<Event>)
    requires InStep(s0) && |Play(s0, events).file| < TWO_31
    ensures InStep(Play(s0, events)) && s0.file <= Play(s0, events).file && s0.held <= Play(s0, events).held
    ensures s0.finished ==> Play(s0, events).finished && Play(s0, events).held == s0.held
  {
    hide InStep;
    if |events| > 0 {
      var prev := events[..|events| - 1];
      Grows(Play(s0, prev), events[|events| - 1]);
      AlwaysPrefix(s0, prev);
      StepKeeps(Play(s0, prev), events[|events| - 1]);
    }
  }

  /** ... in particular in every session that begins with nothing held, whatever the two statics were left at. */
  lemma FreshPrefix(file: seq<byte>, traceStop: bool, oldLen: nat, events: seq<Event>)
    requires |Play(Fresh(file, traceStop, oldLen), events).file| < TWO_31
    ensures InStep(Play(Fresh(file, traceStop, oldLen), events))
    ensures Play(Fresh(file, traceStop, oldLen), events).held <= Play(Fresh(file, traceStop, oldLen), events).file
  {
    AlwaysPrefix(Fresh(file, traceStop, oldLen), events);
  }

  lemma Grows(s: Session, e: Event)
    ensures s.file <= Step(s, e).file
    ensures s.finished ==> Step(s, e).finished && Step(s, e).held == s.held
  {
  }

  lemma {:induction false} PlayGrows(s: Session, events: seq<Event>)
    ensures s.file <= Play(s, events).file && |Play(s, events).file| == |s.file| + Written(events)
  {
    if |events| > 0 {
      PlayGrows(s, events[..|events| - 1]);
      Grows(Play(s, events[..|events| - 1]), events[|events| - 1]);
    }
  }

  // ---------- when UPLOAD_LATEST goes out ----------

  /** How many bytes a history writes to the file. */
  function Written(events: seq<Event>): nat {
    if |events| == 0 then 0
    else
      var e := events[|events| - 1];
      Written(events[..|events| - 1]) + if e.Grow? then |e.bytes| else 0
  }

  /** The file lengths that the checks of a history saw, when the file had `len` bytes at its beginning. */
  function Seen(len: nat, events: seq<Event>): seq<nat> {
    if |events| == 0 then []
    else
      var prev := events[..|events| - 1];
      if events[|events| - 1].Check? then Seen(len, prev) + [len + Written(prev)] else Seen(len, prev)
  }

  /** What `trace_stop` means: without a check it is what it was, and otherwise the last two lengths seen - the one left
      over from before counts as the first - are equal and not zero. */
  predicate LooksStopped(s0: Session, events: seq<Event>) {
    var seen := [s0.oldLen] + Seen(|s0.file|, events);
    if |seen| == 1 then s0.traceStop else seen[|seen| - 1] == seen[|seen| - 2] > 0
  }

  lemma {:induction false} TraceStopMeans(s0: Session, events: seq<Event>)
    ensures Play(s0, events).traceStop <==> LooksStopped(s0, events)
    ensures var seen := [s0.oldLen] + Seen(|s0.file|, events); Play(s0, events).oldLen == seen[|seen| - 1]
  {
    hide Play, Step, Seen, Written;
    PlayStep(s0, [], Check);
    SeenStep(|s0.file|, [], Check);
    if events == [] {
      assert [s0.oldLen] + [] == [s0.oldLen];
    } else {
      var prev, e := events[..|events| - 1], events[|events| - 1];
      assert events == prev + [e];
      TraceStopMeans(s0, prev);
      PlayGrows(s0, prev);
      StepStop(Play(s0, prev), e);
      PlayStep(s0, prev, e);
      SeenStep(|s0.file|, prev, e);
    }
  }

  lemma SeenStep(len: nat, events: seq<Event>, e: Event)
    ensures Seen(len, []) == []
    ensures Seen(len, events + [e]) ==
            if e.Check? then Seen(len, events) + [len + Written(events)] else Seen(len, events)
  {
    assert (events + [e])[..|events|] == events;
  }

  lemma StepStop(s: Session, e: Event)
    ensures var t := Step(s, e);
      if e.Check? then t.oldLen == |s.file| && (t.traceStop <==> s.oldLen == |s.file| > 0)
      else t.oldLen == s.oldLen && t.traceStop == s.traceStop
  {
  }

  /** Exactly which histories let a request be answered with UPLOAD_LATEST: the task is in status UPLOADING, less than a
      whole fragment of the file is still to be sent, and the lengths seen by the checks look stopped. */
  lemma LatestExactly(s0: Session, events: seq<Event>, uploading: bool)
    requires InStep(s0) && |s0.file| + Written(events) < TWO_31 && !Play(s0, events).finished
    ensures var s := Play(s0, events);
      Step(s, Ask(uploading)).finished <==>
      uploading && |s0.file| + Written(events) < UPLOAD_FRAME_DATA_SIZE * s.next && LooksStopped(s0, events)
  {
    hide Answer, LooksStopped;
    PlayGrows(s0, events);
    AlwaysPrefix(s0, events);
    TraceStopMeans(s0, events);
    AnswerInStep(Play(s0, events), uploading);
  }

  /** When UPLOAD_LATEST goes out the server holds the whole file as of that moment. From then on it holds the same
      bytes, so it ends with the whole file if and only if nothing more is written. */
  lemma LatestIsWhole(s0: Session, events: seq<Event>, uploading: bool, later: seq<Event>)
    requires InStep(s0) && !Play(s0, events).finished && Step(Play(s0, events), Ask(uploading)).finished
    requires |s0.file| + Written(events) + Written(later) < TWO_31
    ensures var s := Play(s0, events);
      var latest := Step(s, Ask(uploading)); var end := Play(latest, later);
      latest.held == s.file == end.held && (end.held == end.file <==> Written(later) == 0)
  {
    hide InStep, Answer;
    var s := Play(s0, events);
    var latest := Step(s, Ask(uploading));
    PlayGrows(s0, events);
    Grows(s, Ask(uploading));
    PlayGrows(latest, later);
    AlwaysPrefix(s0, events);
    StepKeeps(s, Ask(uploading));
    AnswerInStep(s, uploading);
    AlwaysPrefix(latest, later);
  }

  /** It can go out too early: before any check, on the initial `trace_stop`, and after two checks that saw a pause. */
  lemma LatestTooEarly(x: byte, checks: bool, traceStop: bool, oldLen: nat)
    requires checks || traceStop
    ensures var events := (if checks then [Check, Check] else []) + [Ask(true), Grow([x])];
      var end := Play(Fresh([x], traceStop, oldLen), events);
      end.finished && end.held == [x] && end.file == [x, x]
  {
    var s0 := Fresh([x], traceStop, oldLen);
    var before := if checks then [Check, Check] else [];
    if checks {
      PlayStep(s0, [], Check);
      PlayStep(s0, [Check], Check);
      assert [] + [Check] == [Check] && [Check] + [Check] == [Check, Check];
    }
    PlayStep(s0, before, Ask(true));
    PlayStep(s0, before + [Ask(true)], Grow([x]));
    assert before + [Ask(true)] + [Grow([x])] == before + [Ask(true), Grow([x])];
    AnswerInStep(Play(s0, before), true);
  }

  lemma PlayStep(s: Session, events: seq<Event>, e: Event)
    ensures Play(s, events + [e]) == Step(Play(s, events), e) && Play(s, []) == s
  {
    assert (events + [e])[..|events|] == events;
  }

  /** A full fragment, once sent, is sent the same for ever, however the file grows. */
  lemma FragmentsKeepMeaning(file: seq<byte>, more: seq<byte>, uploading: bool, uploading': bool,
                             stop: bool, stop': bool, fragment: nat)
    requires fragment >= 1 && UPLOAD_FRAME_DATA_SIZE * fragment <= |file|
    requires |file + more| < TWO_31
    ensures Answer(file + more, uploading', stop', fragment) == Answer(file, uploading, stop, fragment)
  {
    var k := UPLOAD_FRAME_DATA_SIZE * (fragment - 1);
    assert Offset(fragment) == k && Limit(fragment) == k + UPLOAD_FRAME_DATA_SIZE;
    assert (file + more)[k..k + UPLOAD_FRAME_DATA_SIZE] == file[k..k + UPLOAD_FRAME_DATA_SIZE];
  }

  /** Asking `n` times in a row. */
  function AskTimes(s: Session, n: nat): Session
    decreases n
  {
    if n == 0 then s else AskTimes(Step(s, Ask(true)), n - 1)
  }

  /** Once the trace has stopped and the task uploads, one ask for each remaining fragment ends with the whole file -
      one more, empty, fragment when the length is a multiple of 1024. */
  lemma {:induction false} AskingFinishes(s: Session, n: nat)
    requires InStep(s) && !s.finished && s.traceStop && |s.file| < TWO_31
    requires n == (|s.file| - |s.held|) / UPLOAD_FRAME_DATA_SIZE + 1
    ensures AskTimes(s, n).finished && AskTimes(s, n).held == s.file && AskTimes(s, n).next == s.next + n
    decreases n
  {
    hide Answer;
    AnswerInStep(s, true);
    var t := Step(s, Ask(true));
    if |s.file| >= |s.held| + UPLOAD_FRAME_DATA_SIZE {
      AskingFinishes(t, n - 1);
    } else {
      assert n == 1 && AskTimes(s, 1) == AskTimes(t, 0);
    }
  }

  /** A request goes out before the end of a task exactly when the next fragment would be answered. */
  lemma RequestIsAnswered(file: seq<byte>, traceStop: bool, fragment: nat)
    requires |file| < TWO_31 && UPLOAD_FRAME_DATA_SIZE * (fragment + 1) < TWO_31
    ensures |file| >= (fragment + 1) * UPLOAD_FRAME_DATA_SIZE <==> Answer(file, false, traceStop, fragment + 1).Some?
  {
    assert Offset(fragment + 1) == UPLOAD_FRAME_DATA_SIZE * fragment;
    assert Limit(fragment + 1) == UPLOAD_FRAME_DATA_SIZE * (fragment + 1);
  }

  /** The uploader itself in a session: the server asks it, the clock makes it look at the file, and the trace grows. */
  method Serve(file: seq<byte>, events: seq<Event>) returns (held: seq<byte>, finished: bool)
    requires |file| + Written(events) < TWO_31
    ensures var end := Play(Fresh(file, true, 0), events); held == end.held && finished == end.finished
  {
    var u := new Uploader();
    var now := file;
    var next := 1;
    held, finished := [], false;
    ghost var s0 := Fresh(file, true, 0);
    assert events[..0] == [];
    for i := 0 to |events|
      invariant fresh(u)
      invariant Play(s0, events[..i]) == Session(now, u.traceStop, u.oldFileLen, held, next, finished)
      invariant |now| == |file| + Written(events[..i])
    {
      WrittenGrows(events, i);
      assert events[..i + 1] == events[..i] + [events[i]];
      PlayStep(s0, events[..i], events[i]);
      InStepAt(file, events, i);
      match events[i]
      case Grow(bytes) => now := now + bytes;
      case Check => var _, _ := u.CheckAndRequest(Some(now), Testing);
      case Ask(uploading) =>
        if !finished {
          var r := u.UploadFile(Some(if uploading then Uploading else Testing), Some(now), next);
          match r
          case None =>
          case Some(reply) => held, next, finished := held + reply.data, next + 1, reply.latest;
        }
    }
    assert events[..|events|] == events;
  }

  lemma InStepAt(file: seq<byte>, events: seq<Event>, i: nat)
    requires i <= |events| && |file| + Written(events[..i]) < TWO_31
    ensures Play(Fresh(file, true, 0), events[..i]).next < TWO_32
  {
    var s0 := Fresh(file, true, 0);
    PlayGrows(s0, events[..i]);
    FreshPrefix(file, true, 0, events[..i]);
    NextBound(s0, events[..i]);
  }

  /** Each fragment but the last takes 1024 bytes of the file. */
  lemma {:induction false} NextBound(s0: Session, events: seq<Event>)
    requires InStep(s0) && s0.next <= |s0.held| / UPLOAD_FRAME_DATA_SIZE + 2
    requires |Play(s0, events).file| < TWO_31
    ensures Play(s0, events).next <= |Play(s0, events).held| / UPLOAD_FRAME_DATA_SIZE + 2
    ensures Play(s0, events).next < TWO_32
  {
    hide Answer;
    AlwaysPrefix(s0, events);
    if |events| > 0 {
      var prev, e := events[..|events| - 1], events[|events| - 1];
      var p := Play(s0, prev);
      Grows(p, e);
      NextBound(s0, prev);
      AlwaysPrefix(s0, prev);
      if e.Ask? && !p.finished {
        AnswerInStep(p, e.uploading);
      }
    }
  }

  lemma {:induction false} WrittenGrows(events: seq<Event>, i: nat)
    requires i < |events|
    ensures Written(events[..i]) <= Written(events[..i + 1]) <= Written(events)
    ensures Written(events[..i + 1]) == Written(events[..i]) + if events[i].Grow? then |events[i].bytes| else 0
    decreases |events|
  {
    assert events[..i + 1][..i] == events[..i];
    if i + 1 < |events| {
      var prev := events[..|events| - 1];
      assert prev[..i] == events[..i] && prev[..i + 1] == events[..i + 1];
      WrittenGrows(prev, i);
    } else {
      assert events[..i + 1] == events;
    }
  }
}
