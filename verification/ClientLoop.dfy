/** One turn of `setup_event_loop` on the task table in place, against the loop over time. */
module ClientLoop {
  import opened TaskTable
  import opened EventLoop
  import opened TaskQueue

  /** `task_process` and `upload_task_process`: the handler that a message selects. */
  method Dispatch(db: TaskDatabase, a: Action)
    modifies db.tt
    ensures db.tt[..] == Apply(old(db.tt[..]), a)
  {
    match a
    case Tick(now, accepts) => db.CheckAndProcessTask(now, accepts);
    case Recv(now, id, module0, fmt) => db.RecvTask(now, id, module0, fmt);
    case Start(id, accept) => var _ := db.StartTaskManual(id, accept);
    case Stop(id) => var _ := db.StopTaskManual(id);
    case Cancel(id) => db.CancelTask(id);
    case StopReason(id) => db.ReportStopReason(id);
    case UploadSuccess(id) => db.UploadDone(id);
    case FileMissing(slot) =>
      if slot < db.tt.Length {
        db.DelTask(slot);
      }
  }

  method DispatchAll(db: TaskDatabase, msgs: seq<Action>)
    modifies db.tt
    ensures db.tt[..] == Run(old(db.tt[..]), msgs)
  {
    hide Apply;
    ghost var t := db.tt[..];
    assert msgs[..0] == [];
    for i := 0 to |msgs|
      invariant db.tt[..] == Run(t, msgs[..i])
    {
      Dispatch(db, msgs[i]);
      assert msgs[..i + 1][..i] == msgs[..i];
    }
    assert msgs[..|msgs|] == msgs;
  }

  method DropMissing(db: TaskDatabase, gone: seq<nat>)
    modifies db.tt
    ensures db.tt[..] == Missing(old(db.tt[..]), gone)
  {
    hide Apply;
    ghost var t := db.tt[..];
    assert gone[..0] == [];
    for i := 0 to |gone|
      invariant db.tt[..] == Missing(t, gone[..i])
    {
      Dispatch(db, FileMissing(gone[i]));
      assert gone[..i + 1][..i] == gone[..i];
    }
    assert gone[..|gone|] == gone;
  }

  /** A turn: the tasks by the clock, the timeout, and after the sleep the messages. The timeout and the new table are
      those of the loop over time. */
  method OneTurn(db: TaskDatabase, c: Clock, turn: Turn) returns (timeout: int)
    requires db.tt[..] == c.table
    modifies db.tt
    ensures timeout == Timeout(c, turn) && db.tt[..] == Next(c, turn).table
  {
    hide Apply, Run, Missing, TaskInterval;
    Dispatch(db, Tick(Now(c), _ => true));
    DropMissing(db, turn.missing);
    var t1 := db.GetTaskInterval(Now(c));
    var t2, t3 := PeriodInterval(60, turn.oldReport, Now(c)), PeriodInterval(10, turn.oldUpload, Now(c));
    var remote := if t1 < t2 then t1 else t2;
    remote := if remote <= t3 then remote else t3;
    timeout := (if turn.local < remote then turn.local else remote) * MICROS + c.left;
    DispatchAll(db, turn.msgs);
  }

  /** Any number of turns, from an empty table. */
  method Turns(n: nat, micros: int, turns: seq<Turn>) returns (db: TaskDatabase)
    ensures fresh(db) && fresh(db.tt) && db.tt[..] == Loop(Initial(n, micros), turns).table
  {
    hide Next, Timeout;
    db := new TaskDatabase(n);
    var c := Initial(n, micros);
    ghost var c0 := c;
    assert turns[..0] == [];
    for i := 0 to |turns|
      invariant fresh(db) && fresh(db.tt) && c == Loop(c0, turns[..i]) && db.tt[..] == c.table
    {
      var _ := OneTurn(db, c, turns[i]);
      assert turns[..i + 1][..i] == turns[..i];
      c := Next(c, turns[i]);
    }
    assert turns[..|turns|] == turns;
  }
}
