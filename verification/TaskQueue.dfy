/** The task table as the client keeps it: one array, searched and updated in place. */
module TaskQueue {
  import opened TaskTable

  /** The first entry that overlaps a new window decides between the two refusals. */
  ghost predicate Refusal(t: Table, fmt: TaskFmt, i: nat, code: int) {
    && i < |t| && Occupied(t[i]) && !Apart(fmt, t[i].task)
    && (forall k :: 0 <= k < i && Occupied(t[k]) ==> Apart(fmt, t[k].task))
    && code == if fmt.start == t[i].task.start && fmt.stop == t[i].task.stop then -12 else -8
  }

  class TaskDatabase {
    const tt: array<Slot>

    constructor (size: nat)
      ensures tt.Length == size && fresh(tt) && tt[..] == EmptyTable(size)
    {
      tt := new Slot[size](_ => EMPTY);
    }

    /** `get_void_task`, `get_running_task`, `get_stop_task` and `get_task_by_id`: the first match, or none. */
    method Find(w: Wanted) returns (i: nat)
      ensures i == First(tt[..], w, 0)
    {
      i := 0;
      while i < tt.Length
        invariant i <= tt.Length && First(tt[..], w, 0) == First(tt[..], w, i)
      {
        if Matches(tt[i], w) {
          return;
        }
        i := i + 1;
      }
    }

    /** `check_new_task`. */
    method CheckNewTask(fmt: TaskFmt, now: int) returns (code: int)
      ensures code == 0 <==> Admissible(tt[..], fmt, now)
      ensures now >= ToUnix(fmt.stop) ==> code == -8
      ensures now < ToUnix(fmt.stop) && code != 0 ==> exists i :: Refusal(tt[..], fmt, i, code)
    {
      if now >= ToUnix(fmt.stop) {
        return -8;
      }
      for i := 0 to tt.Length
        invariant forall k :: 0 <= k < i && Occupied(tt[k]) ==> Apart(fmt, tt[k].task)
      {
        if tt[i].task.len != 0 {
          if !(fmt.stop < tt[i].task.start || fmt.start > tt[i].task.stop) {
            code := if fmt.start == tt[i].task.start && fmt.stop == tt[i].task.stop then -12 else -8;
            assert Refusal(tt[..], fmt, i, code);
            return;
          }
        }
      }
      code := 0;
    }

    /** `update_task`. */
    method UpdateTask(i: nat, status: Status)
      requires i < tt.Length
      modifies tt
      ensures tt[..] == old(tt[..])[i := old(tt[i]).(status := status)]
    {
      tt[i] := tt[i].(status := status);
    }

    /** `del_task`. */
    method DelTask(i: nat)
      requires i < tt.Length
      modifies tt
      ensures tt[..] == old(tt[..])[i := EMPTY]
    {
      tt[i] := EMPTY;
    }

    /** `recv_task`: id and status are written only when the record configures module 0. */
    method RecvTask(now: int, id: nat, module0: bool, fmt: TaskFmt)
      modifies tt
      ensures tt[..] == Apply(old(tt[..]), Recv(now, id, module0, fmt))
    {
      var i := Find(Free);
      if i == tt.Length {
        return;
      }
      var code := CheckNewTask(fmt, now);
      if code < 0 {
        return;
      }
      if module0 {
        tt[i] := tt[i].(id := id, status := Queue);
      }
      tt[i] := tt[i].(task := fmt);
    }

    /** `start_task`; `accept` stands for the answer of its mistyped admission check. */
    method StartTask(i: nat, accept: bool) returns (ret: int)
      requires i < tt.Length
      modifies tt
      ensures tt[..] == old(tt[..])[i := StartSlot(old(tt[i]), accept)]
      ensures ret == 0 <==> accept && Occupied(old(tt[i])) && old(tt[i]).status == Queue
    {
      if !accept {
        return -8;
      }
      if tt[i].task.len != 0 && tt[i].status == Queue {
        UpdateTask(i, Testing);
        return 0;
      }
      return -1;
    }

    method StartTaskManual(id: nat, accept: bool) returns (ret: int)
      modifies tt
      ensures tt[..] == Apply(old(tt[..]), Start(id, accept))
      ensures ret == 0 <==> old(tt[..]) != tt[..]
    {
      var i := Find(Running);
      if i != tt.Length {
        return -1;
      }
      i := Find(WithId(id));
      if i == tt.Length {
        return -1;
      }
      ret := StartTask(i, accept);
    }

    method StopTask(i: nat, manual: bool) returns (ret: int)
      requires i < tt.Length
      modifies tt
      ensures tt[..] == old(tt[..])[i := StopSlot(old(tt[i]), manual)]
      ensures ret == 0 <==> Occupied(old(tt[i])) && old(tt[i]).status in {Testing, Queue}
    {
      if tt[i].task.len != 0 && tt[i].status == Testing {
        UpdateTask(i, if manual then StopManu else StopAuto);
        return 0;
      } else if tt[i].task.len != 0 && tt[i].status == Queue {
        DelTask(i);
      } else {
        return -1;
      }
      return 0;
    }

    method StopTaskManual(id: nat) returns (ret: int)
      modifies tt
      ensures tt[..] == Apply(old(tt[..]), Stop(id))
      ensures ret == 0 <==> old(tt[..]) != tt[..]
    {
      var i := Find(WithId(id));
      if i == tt.Length {
        return -1;
      }
      ret := StopTask(i, true);
    }

    method CancelTask(id: nat)
      modifies tt
      ensures tt[..] == Apply(old(tt[..]), Cancel(id))
    {
      var i := Find(WithId(id));
      if i == tt.Length {
        return;
      }
      if tt[i].status == Queue {
        DelTask(i);
      }
    }

    /** `report_stop_reason`: a stopped task goes on to uploading. */
    method ReportStopReason(id: nat)
      modifies tt
      ensures tt[..] == Apply(old(tt[..]), StopReason(id))
    {
      var i := Find(WithId(id));
      if i != tt.Length && tt[i].task.len != 0 && (tt[i].status == StopAuto || tt[i].status == StopManu) {
        UpdateTask(i, Uploading);
      }
    }

    /** The UPLOAD_SUCCESS branch of `upload_task_process`. */
    method UploadDone(id: nat)
      modifies tt
      ensures tt[..] == Apply(old(tt[..]), UploadSuccess(id))
    {
      var i := Find(WithId(id));
      if i != tt.Length {
        DelTask(i);
      }
    }

    /** `check_and_process_task`: stops and starts by the clock, entry by entry. */
    method CheckAndProcessTask(now: int, accepts: nat -> bool)
      modifies tt
      ensures tt[..] == Apply(old(tt[..]), Tick(now, accepts))
    {
      ghost var t := tt[..];
      for i := 0 to tt.Length
        invariant forall k :: 0 <= k < i ==> tt[k] == TickSlot(t[k], now, accepts(k))
        invariant forall k :: i <= k < tt.Length ==> tt[k] == t[k]
      {
        if tt[i].task.len != 0 && tt[i].status == Testing {
          var tmp := ToUnix(tt[i].task.stop) - now;
          if tmp < 0 {
            var _ := StopTask(i, false);
          }
        }
        if tt[i].task.len != 0 && tt[i].status == Queue {
          var tmp := ToUnix(tt[i].task.start) - now;
          if tmp <= 0 {
            var _ := StartTask(i, accepts(i));
          }
        }
      }
    }

    /** `get_task_interval`; its two clamping expressions have no effect. */
    method GetTaskInterval(now: int) returns (ret: int)
      ensures ret == TaskInterval(tt[..], now)
    {
      ret := 61;
      for i := 0 to tt.Length
        invariant ret == LeastInterval(tt[..], now, i)
      {
        if tt[i].task.len != 0 && tt[i].status == Testing {
          var tmp := ToUnix(tt[i].task.stop) - now;
          ret := if ret < tmp then ret else tmp;
        }
        if tt[i].task.len != 0 && tt[i].status == Queue {
          var tmp := ToUnix(tt[i].task.start) - now;
          ret := if ret < tmp then ret else tmp;
        }
      }
      ret := if ret <= 0 then 1 else ret;
    }
  }
}
