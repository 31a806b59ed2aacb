/** The task table of the railway client as a value: what each message and each clock tick makes of it. */
module TaskTable {

  const EPOCH := 621355968000000000
  const SECOND := 10000000
  const TWO_62 := 0x4000_0000_0000_0000
  const TWO_64 := 0x1_0000_0000_0000_0000

  datatype Status = Queue | Testing | StopAuto | StopManu | Uploading

  /** A window as it arrives: raw 64-bit date-times, and the length of the task record. */
  datatype TaskFmt = TaskFmt(len: nat, start: nat, stop: nat)

  /** One entry of tt[]; sixteen id bytes are one number, and an entry with `len` 0 is free. */
  datatype Slot = Slot(id: nat, status: Status, task: TaskFmt)

  type Table = seq<Slot>

  const EMPTY := Slot(0, Queue, TaskFmt(0, 0, 0))

  datatype Action =
    | Tick(now: int, accepts: nat -> bool)
    | Recv(now: int, id: nat, module0: bool, fmt: TaskFmt)
    | Start(id: nat, accept: bool)
    | Stop(id: nat)
    | Cancel(id: nat)
    | StopReason(id: nat)
    | UploadSuccess(id: nat)
    | FileMissing(slot: nat)

  /** `datetime_to_unix`, with its unsigned wrap-around below the epoch. */
  function ToUnix(data: nat): int {
    (data % TWO_62 - EPOCH) % TWO_64 / SECOND
  }

  predicate Occupied(s: Slot) {
    s.task.len != 0
  }

  predicate Apart(a: TaskFmt, b: TaskFmt) {
    a.stop < b.start || a.start > b.stop
  }

  /** What the lookups of the table search for. */
  datatype Wanted = Free | Running | Stopped | WithId(id: nat)

  predicate Matches(s: Slot, w: Wanted) {
    match w
    case Free => s.task.len == 0
    case Running => s.status == Testing
    case Stopped => s.status == StopAuto || s.status == StopManu
    case WithId(id) => s.id == id
  }

  /** The first entry from `i` on that is wanted, or the length of the table. */
  function First(t: Table, w: Wanted, i: nat): (r: nat)
    requires i <= |t|
    ensures i <= r <= |t| && (r < |t| ==> Matches(t[r], w)) && forall k :: i <= k < r ==> !Matches(t[k], w)
    decreases |t| - i
  {
    if i == |t| || Matches(t[i], w) then i else First(t, w, i + 1)
  }

  /** `check_new_task` answers 0. */
  predicate Admissible(t: Table, fmt: TaskFmt, now: int) {
    now < ToUnix(fmt.stop) && forall i :: 0 <= i < |t| && Occupied(t[i]) ==> Apart(fmt, t[i].task)
  }

  function StartSlot(s: Slot, accept: bool): Slot {
    if accept && Occupied(s) && s.status == Queue then s.(status := Testing) else s
  }

  function StopSlot(s: Slot, manual: bool): Slot {
    if Occupied(s) && s.status == Testing then s.(status := if manual then StopManu else StopAuto)
    else if Occupied(s) && s.status == Queue then EMPTY
    else s
  }

  /** One entry in `check_and_process_task`: first the stop test, then the start test. */
  function TickSlot(s: Slot, now: int, accept: bool): Slot {
    var a := if Occupied(s) && s.status == Testing && ToUnix(s.task.stop) - now < 0 then StopSlot(s, false) else s;
    if Occupied(a) && a.status == Queue && ToUnix(a.task.start) - now <= 0 then StartSlot(a, accept) else a
  }

  function At(t: Table, i: nat, s: Slot): Table {
    if i < |t| then t[i := s] else t
  }

  function Apply(t: Table, a: Action): (r: Table)
    ensures |r| == |t|
  {
    match a
    case Tick(now, accepts) => seq(|t|, i requires 0 <= i < |t| => TickSlot(t[i], now, accepts(i)))
    case Recv(now, id, module0, fmt) =>
      var i := First(t, Free, 0);
      if i == |t| || !Admissible(t, fmt, now) then t
      else t[i := Slot(if module0 then id else t[i].id, if module0 then Queue else t[i].status, fmt)]
    case Start(id, accept) =>
      if First(t, Running, 0) < |t| then t
      else var i := First(t, WithId(id), 0); if i == |t| then t else t[i := StartSlot(t[i], accept)]
    case Stop(id) => var i := First(t, WithId(id), 0); if i == |t| then t else t[i := StopSlot(t[i], true)]
    case Cancel(id) => var i := First(t, WithId(id), 0); if i == |t| || t[i].status != Queue then t else t[i := EMPTY]
    case StopReason(id) =>
      var i := First(t, WithId(id), 0);
      if i < |t| && Occupied(t[i]) && t[i].status in {StopAuto, StopManu} then t[i := t[i].(status := Uploading)] else t
    case UploadSuccess(id) => At(t, First(t, WithId(id), 0), EMPTY)
    case FileMissing(slot) => At(t, slot, EMPTY)
  }

  /** The table after a list of actions. */
  function Run(t: Table, acts: seq<Action>): (r: Table)
    ensures |r| == |t|
  {
    if |acts| == 0 then t else Apply(Run(t, acts[..|acts| - 1]), acts[|acts| - 1])
  }

  function EmptyTable(n: nat): Table {
    seq(n, _ => EMPTY)
  }

  // ---------- what each event does to an entry ----------

  /** Entry `i` is the first one with this id. */
  predicate Named(t: Table, id: nat, i: nat) {
    i < |t| && t[i].id == id && forall k :: 0 <= k < i ==> t[k].id != id
  }

  /** CANCEL or STOP of a waiting task, UPLOAD_SUCCESS, or a trace file that stays missing. */
  predicate Clears(t: Table, a: Action, i: nat)
    requires i < |t|
  {
    match a
    case Cancel(id) => Named(t, id, i) && t[i].status == Queue
    case Stop(id) => Named(t, id, i) && t[i].status == Queue
    case UploadSuccess(id) => Named(t, id, i)
    case FileMissing(slot) => slot == i
    case _ => false
  }

  /** The clock reaches the start, or START names a waiting task while none runs. */
  predicate Starts(t: Table, a: Action, i: nat)
    requires i < |t|
  {
    && t[i].status == Queue
    && match a
       case Tick(now, accepts) => accepts(i) && ToUnix(t[i].task.start) <= now
       case Start(id, accept) => accept && Named(t, id, i) && forall k :: 0 <= k < |t| ==> t[k].status != Testing
       case _ => false
  }

  predicate StopsByHand(t: Table, a: Action, i: nat)
    requires i < |t|
  {
    a.Stop? && Named(t, a.id, i) && t[i].status == Testing
  }

  predicate StopsByClock(t: Table, a: Action, i: nat)
    requires i < |t|
  {
    a.Tick? && t[i].status == Testing && ToUnix(t[i].task.stop) < a.now
  }

  predicate Hands(t: Table, a: Action, i: nat)
    requires i < |t|
  {
    a.StopReason? && Named(t, a.id, i) && (t[i].status == StopAuto || t[i].status == StopManu)
  }

  /** The life cycle: which event changes an occupied entry, how, and that no other does. */
  lemma {:induction false} LifeCycle(t: Table, a: Action, i: nat)
    requires i < |t| && Occupied(t[i])
    ensures Apply(t, a)[i] ==
            if Clears(t, a, i) then EMPTY
            else if Starts(t, a, i) then t[i].(status := Testing)
            else if StopsByHand(t, a, i) then t[i].(status := StopManu)
            else if StopsByClock(t, a, i) then t[i].(status := StopAuto)
            else if Hands(t, a, i) then t[i].(status := Uploading)
            else t[i]
  {
    hide ToUnix, First;
    match a
    case Tick(now, accepts) => assert Apply(t, a)[i] == TickSlot(t[i], now, accepts(i));
    case Recv(_, _, _, _) =>
    case Start(id, accept) =>
      FirstIs(t, Running);
      FirstNamed(t, id, i);
    case Stop(id) => FirstNamed(t, id, i);
    case Cancel(id) => FirstNamed(t, id, i);
    case StopReason(id) => FirstNamed(t, id, i);
    case UploadSuccess(id) => FirstNamed(t, id, i);
    case FileMissing(slot) =>
  }

  /** A free entry stays free, except that an admissible task fills the first one. */
  lemma {:induction false} FreeEntry(t: Table, a: Action, i: nat)
    requires i < |t| && !Occupied(t[i]) && t[i].status == Queue
    ensures var r := Apply(t, a)[i];
      if a.Recv? && (forall k :: 0 <= k < i ==> Occupied(t[k])) && a.now < ToUnix(a.fmt.stop)
         && (forall k :: 0 <= k < |t| && Occupied(t[k]) ==>
               a.fmt.stop < t[k].task.start || t[k].task.stop < a.fmt.start)
      then r.task == a.fmt && r.status == Queue && (a.module0 ==> r.id == a.id)
      else !Occupied(r) && r.status == Queue
  {
    hide ToUnix, First;
    FirstIs(t, Free);
    if a.Tick? {
      assert Apply(t, a)[i] == TickSlot(t[i], a.now, a.accepts(i));
    }
  }

  lemma {:induction false} FirstIs(t: Table, w: Wanted)
    ensures var f := First(t, w, 0);
      f <= |t| && (f < |t| ==> Matches(t[f], w)) && forall k :: 0 <= k < f ==> !Matches(t[k], w)
  {
  }

  lemma {:induction false} FirstNamed(t: Table, id: nat, i: nat)
    requires i < |t|
    ensures First(t, WithId(id), 0) == i <==> Named(t, id, i)
  {
    hide First;
    FirstIs(t, WithId(id));
  }

  // ---------- how long nothing happens ----------

  function Min(a: int, b: int): int {
    if a < b then a else b
  }

  /** What one entry asks of `get_task_interval`. */
  function SlotInterval(s: Slot, now: int, ret: int): int {
    if Occupied(s) && s.status == Testing then Min(ret, ToUnix(s.task.stop) - now)
    else if Occupied(s) && s.status == Queue then Min(ret, ToUnix(s.task.start) - now)
    else ret
  }

  function LeastInterval(t: Table, now: int, n: nat): int
    requires n <= |t|
  {
    if n == 0 then 61 else SlotInterval(t[n - 1], now, LeastInterval(t, now, n - 1))
  }

  function TaskInterval(t: Table, now: int): int {
    var ret := LeastInterval(t, now, |t|);
    if ret <= 0 then 1 else ret
  }

  // ---------- invariants of every reachable table ----------

  ghost predicate Disjoint(t: Table) {
    forall i, j :: 0 <= i < j < |t| && Occupied(t[i]) && Occupied(t[j]) ==> Apart(t[i].task, t[j].task)
  }

  ghost predicate FreeQueued(t: Table) {
    forall i :: 0 <= i < |t| && !Occupied(t[i]) ==> t[i].status == Queue
  }

  function Rank(s: Status): nat {
    match s case Queue => 0 case Testing => 1 case StopAuto => 2 case StopManu => 2 case Uploading => 3
  }

  /** What one action may do to one entry: leave it, fill it when free, clear it, or move its status one step on. */
  predicate Moves(a: Slot, b: Slot) {
    || a == b
    || (!Occupied(a) && b.status == Queue)
    || b == EMPTY
    || (Occupied(a) && b == a.(status := b.status) && Rank(b.status) == Rank(a.status) + 1)
  }

  lemma {:induction false} ActionKeeps(t: Table, a: Action)
    requires Disjoint(t) && FreeQueued(t)
    ensures Disjoint(Apply(t, a)) && FreeQueued(Apply(t, a))
    ensures forall i :: 0 <= i < |t| ==> Moves(t[i], Apply(t, a)[i])
  {
    hide ToUnix, First;
    var r := Apply(t, a);
    if a.Recv? {
      var i := First(t, Free, 0);
      if i < |t| && Admissible(t, a.fmt, a.now) {
        forall j, k | 0 <= j < k < |t| && Occupied(r[j]) && Occupied(r[k]) ensures Apart(r[j].task, r[k].task) {
          assert j != i ==> r[j] == t[j];
          assert k != i ==> r[k] == t[k];
        }
      }
    } else {
      forall i | 0 <= i < |t|
        ensures Moves(t[i], r[i]) && (Occupied(r[i]) ==> Occupied(t[i]) && r[i].task == t[i].task)
      {
        SlotKeeps(t, a, i);
      }
    }
  }

  lemma {:induction false} SlotKeeps(t: Table, a: Action, i: nat)
    requires i < |t| && !a.Recv? && FreeQueued(t)
    ensures var s := Apply(t, a)[i];
      Moves(t[i], s) && (Occupied(s) ==> Occupied(t[i]) && s.task == t[i].task) && (!Occupied(s) ==> s.status == Queue)
  {
    hide ToUnix, First;
    match a
    case Tick(now, accepts) => assert Apply(t, a)[i] == TickSlot(t[i], now, accepts(i));
    case Start(id, accept) => assert Apply(t, a)[i] in {t[i], StartSlot(t[i], accept)};
    case Stop(id) => assert Apply(t, a)[i] in {t[i], StopSlot(t[i], true)};
    case Cancel(id) => assert Apply(t, a)[i] in {t[i], EMPTY};
    case StopReason(id) =>
      var j := First(t, WithId(id), 0);
      if i == j && Occupied(t[j]) && t[j].status in {StopAuto, StopManu} {
        assert Apply(t, a)[i] == t[i].(status := Uploading);
      } else {
        assert Apply(t, a)[i] == t[i];
      }
    case UploadSuccess(id) => assert Apply(t, a)[i] in {t[i], EMPTY};
    case FileMissing(slot) => assert Apply(t, a)[i] in {t[i], EMPTY};
  }

  /** Any interleaving of messages, ticks and refusals keeps occupied windows pairwise apart. */
  lemma {:induction false} ReachableTables(n: nat, acts: seq<Action>)
    ensures Disjoint(Run(EmptyTable(n), acts)) && FreeQueued(Run(EmptyTable(n), acts))
  {
    if |acts| > 0 {
      ReachableTables(n, acts[..|acts| - 1]);
      ActionKeeps(Run(EmptyTable(n), acts[..|acts| - 1]), acts[|acts| - 1]);
    }
  }

  /** While an entry stays occupied it is the same task in the same window, and its status never goes back. */
  lemma {:induction false} TaskHistory(n: nat, acts: seq<Action>, from: nat, i: nat)
    requires from <= |acts| && i < n
    requires forall k :: from <= k <= |acts| ==> Occupied(Run(EmptyTable(n), acts[..k])[i])
    ensures var a, b := Run(EmptyTable(n), acts[..from])[i], Run(EmptyTable(n), acts)[i];
      a.id == b.id && a.task == b.task && Rank(a.status) <= Rank(b.status)
    decreases |acts|
  {
    assert acts[..|acts|] == acts;
    if from < |acts| {
      var prev := acts[..|acts| - 1];
      forall k | from <= k <= |prev| ensures Occupied(Run(EmptyTable(n), prev[..k])[i]) {
        assert prev[..k] == acts[..k];
      }
      TaskHistory(n, prev, from, i);
      assert prev[..from] == acts[..from];
      ReachableTables(n, prev);
      ActionKeeps(Run(EmptyTable(n), prev), acts[|acts| - 1]);
    }
  }

  // ---------- a cancelled task ----------

  /** Nothing is received into the free entry `i`: each RECV is refused or finds an earlier free entry. */
  ghost predicate NotRefilled(t: Table, acts: seq<Action>, i: nat) {
    forall k :: 0 <= k < |acts| && acts[k].Recv? ==> PassesBy(Run(t, acts[..k]), acts[k], i)
  }

  ghost predicate PassesBy(t: Table, a: Action, i: nat)
    requires a.Recv?
  {
    (exists j :: 0 <= j < i && j < |t| && !Occupied(t[j])) || !Admissible(t, a.fmt, a.now)
  }

  /** An empty entry stays empty, and its task runs at no later tick, until it is received again. */
  lemma {:induction false} StaysFree(t: Table, acts: seq<Action>, i: nat)
    requires i < |t| && !Occupied(t[i]) && t[i].status == Queue && NotRefilled(t, acts, i)
    ensures var s := Run(t, acts)[i]; !Occupied(s) && s.status == Queue
  {
    if |acts| > 0 {
      var prev, a := acts[..|acts| - 1], acts[|acts| - 1];
      forall k | 0 <= k < |prev| && prev[k].Recv? ensures PassesBy(Run(t, prev[..k]), prev[k], i) {
        assert prev[..k] == acts[..k];
      }
      assert a.Recv? ==> PassesBy(Run(t, prev), a, i);
      StaysFree(t, prev, i);
      hide Apply, ToUnix;
      FreeEntry(Run(t, prev), a, i);
    }
  }

  /** CANCEL of a waiting task: the entry is empty from then on, until a task is received into it, and the window that
      it had is admissible again as long as it is not over. */
  lemma {:induction false} CancelledForGood(t: Table, id: nat, i: nat, acts: seq<Action>, now: int)
    requires Named(t, id, i) && Occupied(t[i]) && t[i].status == Queue && Disjoint(t)
    requires NotRefilled(Apply(t, Cancel(id)), acts, i)
    ensures var after := Apply(t, Cancel(id));
      && !Occupied(Run(after, acts)[i]) && Run(after, acts)[i].status == Queue
      && (now < ToUnix(t[i].task.stop) ==> Admissible(after, t[i].task, now))
  {
    hide ToUnix, Run;
    var after := Apply(t, Cancel(id));
    forall k: nat | k < |t| ensures after[k] == if k == i then EMPTY else t[k] {
      FirstNamed(t, id, i);
    }
    StaysFree(after, acts, i);
  }

  // ---------- the calendar ----------

  /** Days from the first of January of the year 1 to that of `year`. */
  function DaysBefore(year: nat): int
    requires year > 0
  {
    var y := year - 1; 365 * y + y / 4 - y / 100 + y / 400
  }

  /** Date-times count tenths of microseconds from the year 1; the result counts seconds from 1970, and the two topmost
      bits do not matter. */
  lemma {:induction false} UnixTime(seconds: nat, fraction: nat, kind: nat)
    requires fraction < SECOND && kind < 4
    requires DaysBefore(1970) * 86400 * SECOND + seconds * SECOND + fraction < 0x4000_0000_0000_0000
    ensures ToUnix(kind * 0x4000_0000_0000_0000 + DaysBefore(1970) * 86400 * SECOND + seconds * SECOND + fraction)
            == seconds
  {
    assert DaysBefore(1970) * 86400 * SECOND == EPOCH;
    var x := EPOCH + seconds * SECOND + fraction;
    assert (kind * TWO_62 + x) % TWO_62 == x;
    assert (x - EPOCH) % TWO_64 == x - EPOCH;
  }
}
