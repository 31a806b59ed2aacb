/** The event loop over time, in microseconds: a turn ticks the table, computes a timeout, sleeps no longer than that,
    and then handles messages; the next turn starts when the sleep ended. */
module EventLoop {
  import opened TaskTable

  /** Microseconds in a second of the clock that `time` reads. */
  const MICROS := 1_000_000

  /** `get_report_interval` and `get_upload_interval`: what is left of a period since `oldMoment`. */
  function PeriodInterval(period: int, oldMoment: int, now: int): int {
    var tmp := period - (now - oldMoment);
    if tmp > 0 then tmp else 1
  }

  /** `get_minimal_interval`; `local` is what `get_local_interval` answers, at least 1. */
  function MinimalInterval(t: Table, now: int, oldReport: int, oldUpload: int, local: int): int {
    Min(local, Min(Min(TaskInterval(t, now), PeriodInterval(60, oldReport, now)), PeriodInterval(10, oldUpload, now)))
  }

  /** One turn: the sleep is in microseconds, and `keeps` says that `select` wrote the unslept time back, as it does on
      Linux. */
  datatype Turn = Turn(missing: seq<nat>, oldReport: int, oldUpload: int, local: int, sleep: nat, keeps: bool,
                       msgs: seq<Action>)

  /** The table, the time, and `timer.tv_usec`, which no turn sets. */
  datatype Clock = Clock(table: Table, micros: int, left: nat)

  function Now(c: Clock): int {
    c.micros / MICROS
  }

  function Initial(n: nat, micros: int): (c: Clock)
    ensures |c.table| == n
  {
    Clock(EmptyTable(n), micros, 0)
  }

  /** The table when `check_and_process_task` returns, every start accepted. */
  function Ticked(c: Clock): (r: Table)
    ensures |r| == |c.table|
  {
    Apply(c.table, Tick(Now(c), _ => true))
  }

  function Missing(t: Table, gone: seq<nat>): (r: Table)
    ensures |r| == |t|
  {
    if |gone| == 0 then t else Apply(Missing(t, gone[..|gone| - 1]), FileMissing(gone[|gone| - 1]))
  }

  function Asleep(c: Clock, turn: Turn): (r: Table)
    ensures |r| == |c.table|
  {
    Missing(Ticked(c), turn.missing)
  }

  /** Whole seconds from `get_minimal_interval`. */
  function Seconds(c: Clock, turn: Turn): int {
    MinimalInterval(Asleep(c, turn), Now(c), turn.oldReport, turn.oldUpload, turn.local)
  }

  /** What `select` gets: the seconds just computed and the microseconds left over from earlier. */
  function Timeout(c: Clock, turn: Turn): int {
    Seconds(c, turn) * MICROS + c.left
  }

  function Next(c: Clock, turn: Turn): (r: Clock)
    ensures |r.table| == |c.table|
  {
    Clock(Run(Asleep(c, turn), turn.msgs), c.micros + turn.sleep,
          if turn.keeps then (Timeout(c, turn) - turn.sleep) % MICROS else c.left)
  }

  function Loop(c: Clock, turns: seq<Turn>): (r: Clock)
    ensures |r.table| == |c.table|
  {
    if |turns| == 0 then c else Next(Loop(c, turns[..|turns| - 1]), turns[|turns| - 1])
  }

  // ---------- which turns are considered ----------

  /** The left-over microseconds carry the timeout into one more second of the clock. */
  predicate Carries(c: Clock) {
    c.micros % MICROS + c.left >= MICROS
  }

  /** `whole`: windows are whole seconds. `late`: timeouts may carry; without it only runs in which none does are
      meant, as where `select` leaves the timer alone. */
  datatype Rules = Rules(whole: bool, late: bool)

  predicate WellFormed(fmt: TaskFmt) {
    EPOCH <= fmt.start <= fmt.stop < TWO_62
  }

  predicate WholeSeconds(fmt: TaskFmt) {
    fmt.start % SECOND == 0 && fmt.stop % SECOND == 0
  }

  /** Start and stop within one second of the clock. */
  predicate Brief(fmt: TaskFmt) {
    ToUnix(fmt.start) == ToUnix(fmt.stop)
  }

  predicate Fits(fmt: TaskFmt, rules: Rules) {
    WellFormed(fmt) && (rules.whole ==> WholeSeconds(fmt) && (rules.late ==> fmt.start < fmt.stop))
  }

  /** The last second at whose tick a task may run: its stop, or one more for a brief task that is started late. */
  function Limit(fmt: TaskFmt, rules: Rules): int {
    if rules.late && Brief(fmt) then ToUnix(fmt.stop) + 1 else ToUnix(fmt.stop)
  }

  /** The start second of the queued task that START names has come. */
  predicate Due(t: Table, id: nat, now: int) {
    var i := First(t, WithId(id), 0);
    i < |t| && Occupied(t[i]) && t[i].status == Queue ==> ToUnix(t[i].task.start) <= now
  }

  /** Messages handled at time `now`: any but a manual START before its time. */
  ghost predicate GoodMessage(t: Table, a: Action, now: int, rules: Rules) {
    match a
    case Tick(_, _) => false
    case Start(id, _) => Due(t, id, now)
    case Recv(at, _, _, fmt) => at == now && Fits(fmt, rules)
    case _ => true
  }

  ghost predicate GoodMessages(t: Table, msgs: seq<Action>, now: int, rules: Rules) {
    forall j :: 0 <= j < |msgs| ==> GoodMessage(Run(t, msgs[..j]), msgs[j], now, rules)
  }

  ghost predicate GoodTurn(c: Clock, turn: Turn, rules: Rules) {
    && turn.local >= 1
    && turn.sleep <= Timeout(c, turn)
    && (Carries(c) ==> rules.late)
    && GoodMessages(Asleep(c, turn), turn.msgs, Now(Next(c, turn)), rules)
  }

  ghost predicate GoodLoop(c: Clock, turns: seq<Turn>, rules: Rules) {
    forall k :: 0 <= k < |turns| ==> GoodTurn(Loop(c, turns[..k]), turns[k], rules)
  }

  // ---------- what holds at each point of a turn ----------

  /** Before a tick. */
  ghost predicate Ready(t: Table, now: int, rules: Rules) {
    && Disjoint(t) && FreeQueued(t)
    && forall i :: 0 <= i < |t| && Occupied(t[i]) ==>
         && Fits(t[i].task, rules)
         && (t[i].status == Queue ==> now <= Limit(t[i].task, rules))
         && (t[i].status == Testing ==> ToUnix(t[i].task.start) <= now)
  }

  /** After a tick: nothing waits past its start, nothing runs outside its window. */
  ghost predicate Settled(t: Table, now: int, rules: Rules) {
    && Disjoint(t) && FreeQueued(t)
    && forall i :: 0 <= i < |t| && Occupied(t[i]) ==>
         && Fits(t[i].task, rules)
         && (t[i].status == Queue ==> now < ToUnix(t[i].task.start))
         && (t[i].status == Testing ==> ToUnix(t[i].task.start) <= now <= Limit(t[i].task, rules))
  }

  lemma {:induction false} UnixIs(a: nat)
    requires EPOCH <= a < TWO_62
    ensures ToUnix(a) == (a - EPOCH) / SECOND
  {
    assert a % TWO_62 == a;
    assert (a - EPOCH) % TWO_64 == a - EPOCH;
  }

  lemma {:induction false} UnixOrder(a: nat, b: nat)
    requires EPOCH <= a <= b < TWO_62
    ensures ToUnix(a) <= ToUnix(b)
    ensures a % SECOND == 0 && b % SECOND == 0 && a < b ==> ToUnix(a) < ToUnix(b)
  {
    hide ToUnix;
    UnixIs(a);
    UnixIs(b);
    var p, q := a - EPOCH, b - EPOCH;
    assert p == p / SECOND * SECOND + p % SECOND && q == q / SECOND * SECOND + q % SECOND;
    if a % SECOND == 0 && b % SECOND == 0 && a < b {
      assert a == a / SECOND * SECOND && b == b / SECOND * SECOND;
      assert p % SECOND == 0 && q % SECOND == 0;
    }
  }

  lemma {:induction false} TickSettles(c: Clock, rules: Rules)
    requires Ready(c.table, Now(c), rules)
    ensures Settled(Ticked(c), Now(c), rules)
  {
    hide ToUnix, Disjoint, FreeQueued;
    var t, r, now := c.table, Ticked(c), Now(c);
    ActionKeeps(t, Tick(now, _ => true));
    forall i | 0 <= i < |t| && Occupied(r[i])
      ensures Fits(r[i].task, rules)
      ensures r[i].status == Queue ==> now < ToUnix(r[i].task.start)
      ensures r[i].status == Testing ==> ToUnix(r[i].task.start) <= now <= Limit(r[i].task, rules)
    {
      assert r[i] == TickSlot(t[i], now, true);
    }
  }

  lemma {:induction false} MissingKeeps(t: Table, gone: seq<nat>, now: int, rules: Rules)
    requires Settled(t, now, rules)
    ensures Settled(Missing(t, gone), now, rules)
  {
    hide ToUnix, Disjoint, FreeQueued, Limit, Fits;
    if |gone| > 0 {
      var rest, a := gone[..|gone| - 1], FileMissing(gone[|gone| - 1]);
      MissingKeeps(t, rest, now, rules);
      ActionKeeps(Missing(t, rest), a);
    }
  }

  /** The timeout lies between 1 and 61 seconds and passes over no start and at most one second over a stop. */
  lemma {:induction false} LeastBounds(t: Table, now: int, n: nat, i: nat)
    requires i < n <= |t|
    ensures LeastInterval(t, now, n) <= 61
    ensures LeastInterval(t, now, n) <= SlotInterval(t[i], now, 61)
    decreases n
  {
    hide ToUnix;
    if i < n - 1 {
      LeastBounds(t, now, n - 1, i);
    } else {
      LeastCap(t, now, n - 1);
    }
  }

  lemma {:induction false} LeastCap(t: Table, now: int, n: nat)
    requires n <= |t|
    ensures LeastInterval(t, now, n) <= 61
  {
    if n > 0 {
      LeastCap(t, now, n - 1);
    }
  }

  lemma {:induction false} TimeoutBounds(t: Table, now: int, oldReport: int, oldUpload: int, local: int)
    requires local >= 1
    ensures 1 <= MinimalInterval(t, now, oldReport, oldUpload, local) <= 61
    ensures forall i :: 0 <= i < |t| ==> MinimalInterval(t, now, oldReport, oldUpload, local) <=
                                         (var s := SlotInterval(t[i], now, 61); if s <= 0 then 1 else s)
  {
    hide ToUnix, SlotInterval;
    LeastCap(t, now, |t|);
    forall i | 0 <= i < |t| ensures LeastInterval(t, now, |t|) <= SlotInterval(t[i], now, 61) {
      LeastBounds(t, now, |t|, i);
    }
  }

  /** What an entry waits for: its stop when it runs, its start when it is queued. */
  predicate Awaits(s: Slot, second: int) {
    && Occupied(s)
    && ((s.status == Testing && second == ToUnix(s.task.stop)) || (s.status == Queue && second == ToUnix(s.task.start)))
  }

  lemma {:induction false} LeastAsked(t: Table, now: int, n: nat)
    requires n <= |t|
    ensures var r := LeastInterval(t, now, n); r == 61 || exists i :: 0 <= i < n && Awaits(t[i], now + r)
  {
    hide ToUnix;
    if n > 0 {
      LeastAsked(t, now, n - 1);
      var r, q := LeastInterval(t, now, n), LeastInterval(t, now, n - 1);
      if r == q && q != 61 {
        var i :| 0 <= i < n - 1 && Awaits(t[i], now + q);
      } else if r != q {
        assert Awaits(t[n - 1], now + r);
      }
    }
  }

  /** The loop does not wake without a reason: when the timeout ends the local side asked for it, or a minute has
      passed, or an entry's boundary has come (a second later when it was overdue), or the report or the upload period
      is over. */
  lemma {:induction false} WakesForAReason(t: Table, now: int, oldReport: int, oldUpload: int, local: int)
    requires local >= 1
    ensures var d := MinimalInterval(t, now, oldReport, oldUpload, local);
      || d == local || d == 61
      || (exists i, second :: 0 <= i < |t| && Awaits(t[i], second) && (now + d == second || (d == 1 && second <= now)))
      || now + d == oldReport + 60 || now + d == oldUpload + 10
      || (d == 1 && (oldReport + 60 <= now || oldUpload + 10 <= now))
  {
    hide ToUnix, Awaits, LeastInterval;
    LeastAsked(t, now, |t|);
  }

  /** It wakes in time for the report of every minute and for the upload of every ten seconds. */
  lemma {:induction false} WakesForPeriods(t: Table, now: int, oldReport: int, oldUpload: int, local: int)
    ensures var d := MinimalInterval(t, now, oldReport, oldUpload, local);
      && (now < oldReport + 60 ==> now + d <= oldReport + 60) && (oldReport + 60 <= now ==> d <= 1)
      && (now < oldUpload + 10 ==> now + d <= oldUpload + 10) && (oldUpload + 10 <= now ==> d <= 1)
  {
    hide ToUnix, LeastInterval;
  }

  function Slack(rules: Rules): nat {
    if rules.late then 1 else 0
  }

  /** Waking up: no queued task is later than the slack allows, and a running one is at most a second past that. */
  lemma {:induction false} SleepKeeps(t: Table, now: int, next: int, turn: Turn, rules: Rules)
    requires Settled(t, now, rules) && turn.local >= 1
    requires now <= next <= now + MinimalInterval(t, now, turn.oldReport, turn.oldUpload, turn.local) + Slack(rules)
    ensures Ready(t, next, rules)
    ensures forall i :: 0 <= i < |t| && Occupied(t[i]) && t[i].status == Queue ==>
              next <= ToUnix(t[i].task.start) + Slack(rules)
    ensures forall i :: 0 <= i < |t| && Occupied(t[i]) && t[i].status == Testing ==>
              next <= Limit(t[i].task, rules) + 1 + Slack(rules)
  {
    hide ToUnix, Disjoint, FreeQueued, MinimalInterval;
    TimeoutBounds(t, now, turn.oldReport, turn.oldUpload, turn.local);
    forall i | 0 <= i < |t| && Occupied(t[i])
      ensures ToUnix(t[i].task.start) <= ToUnix(t[i].task.stop)
      ensures t[i].status == Queue ==> next <= ToUnix(t[i].task.start) + Slack(rules)
      ensures t[i].status == Testing ==> next <= Limit(t[i].task, rules) + 1 + Slack(rules)
    {
      UnixOrder(t[i].task.start, t[i].task.stop);
    }
  }

  /** In seconds of the clock a sleep exceeds the computed interval by at most one, and only when the timeout
      carries. */
  lemma {:induction false} SleepInSeconds(c: Clock, turn: Turn)
    requires turn.sleep <= Timeout(c, turn) && c.left < MICROS
    ensures Now(c) <= Now(Next(c, turn)) <= Now(c) + Seconds(c, turn) + if Carries(c) then 1 else 0
    ensures Next(c, turn).left < MICROS
  {
    hide Seconds, Run, Asleep;
    assert c.micros == Now(c) * MICROS + c.micros % MICROS;
    assert c.micros + turn.sleep <= (Now(c) + Seconds(c, turn)) * MICROS + (c.micros % MICROS + c.left);
  }

  lemma {:induction false} MessageKeeps(t: Table, a: Action, now: int, rules: Rules)
    requires Ready(t, now, rules) && GoodMessage(t, a, now, rules)
    ensures Ready(Apply(t, a), now, rules)
  {
    hide ToUnix, Disjoint, FreeQueued, First, Fits;
    var r := Apply(t, a);
    ActionKeeps(t, a);
    forall i | 0 <= i < |t| && Occupied(r[i])
      ensures Fits(r[i].task, rules)
      ensures r[i].status == Queue ==> now <= Limit(r[i].task, rules)
      ensures r[i].status == Testing ==> ToUnix(r[i].task.start) <= now
    {
      if a.Recv? && r[i] != t[i] {
        assert r[i].task == a.fmt && Admissible(t, a.fmt, now);
      } else if a.Start? && r[i] != t[i] {
        assert i == First(t, WithId(a.id), 0) && Due(t, a.id, now);
      }
    }
  }

  /** A manual START keeps what holds before a tick if and only if it does nothing or the start second has come. */
  lemma {:induction false} StartKeepsExactly(t: Table, id: nat, accept: bool, now: int, rules: Rules)
    requires Ready(t, now, rules)
    ensures Ready(Apply(t, Start(id, accept)), now, rules) <==> Apply(t, Start(id, accept)) == t || Due(t, id, now)
  {
    hide ToUnix, Disjoint, FreeQueued, First, Fits;
    var r, i := Apply(t, Start(id, accept)), First(t, WithId(id), 0);
    if Due(t, id, now) {
      MessageKeeps(t, Start(id, accept), now, rules);
    } else if r != t {
      assert Occupied(r[i]) && r[i].status == Testing && r[i].task == t[i].task;
    }
  }

  lemma {:induction false} MessagesKeep(t: Table, msgs: seq<Action>, now: int, rules: Rules)
    requires Ready(t, now, rules) && GoodMessages(t, msgs, now, rules)
    ensures Ready(Run(t, msgs), now, rules)
  {
    hide Ready, GoodMessage;
    if |msgs| > 0 {
      var prev := msgs[..|msgs| - 1];
      forall j | 0 <= j < |prev| ensures GoodMessage(Run(t, prev[..j]), prev[j], now, rules) {
        assert prev[..j] == msgs[..j];
      }
      MessagesKeep(t, prev, now, rules);
      MessageKeeps(Run(t, prev), msgs[|msgs| - 1], now, rules);
    }
  }

  // ---------- every run ----------

  lemma {:induction false} TurnKeeps(c: Clock, turn: Turn, rules: Rules)
    requires Ready(c.table, Now(c), rules) && c.left < MICROS && GoodTurn(c, turn, rules)
    ensures Ready(Next(c, turn).table, Now(Next(c, turn)), rules) && Next(c, turn).left < MICROS
  {
    hide Ready, Settled, MinimalInterval, GoodMessages, Run, Missing, Apply, Now, Ticked;
    TickSettles(c, rules);
    MissingKeeps(Ticked(c), turn.missing, Now(c), rules);
    SleepInSeconds(c, turn);
    SleepKeeps(Asleep(c, turn), Now(c), Now(Next(c, turn)), turn, rules);
    MessagesKeep(Asleep(c, turn), turn.msgs, Now(Next(c, turn)), rules);
  }

  lemma {:induction false} EveryTurnReady(n: nat, micros: int, turns: seq<Turn>, rules: Rules)
    requires GoodLoop(Initial(n, micros), turns, rules)
    ensures var c := Loop(Initial(n, micros), turns);
      Ready(c.table, Now(c), rules) && c.left < MICROS && |c.table| == n
    decreases |turns|
  {
    hide GoodTurn, Next, Now;
    var start := Initial(n, micros);
    if |turns| > 0 {
      hide Ready;
      var prev, turn := turns[..|turns| - 1], turns[|turns| - 1];
      forall k | 0 <= k < |prev| ensures GoodTurn(Loop(start, prev[..k]), prev[k], rules) {
        assert prev[..k] == turns[..k];
      }
      EveryTurnReady(n, micros, prev, rules);
      TurnKeeps(Loop(start, prev), turn, rules);
    }
  }

  /** Main result: in every run with accepted starts, whatever arrives but a START before its time, at the end of every
      tick no queued task is past its start and every running task is inside its window - or, if timeouts may carry,
      one second past a brief one. */
  lemma {:induction false} RunningInsideWindow(n: nat, micros: int, turns: seq<Turn>, rules: Rules)
    requires GoodLoop(Initial(n, micros), turns, rules)
    ensures var c := Loop(Initial(n, micros), turns); Settled(Ticked(c), Now(c), rules)
  {
    hide Ready, Settled;
    EveryTurnReady(n, micros, turns, rules);
    TickSettles(Loop(Initial(n, micros), turns), rules);
  }

  /** The earlier window may still be running in the second in which the later one starts. */
  predicate Meets(a: TaskFmt, b: TaskFmt, late: bool) {
    || ToUnix(a.stop) == ToUnix(b.start)
    || (late && Brief(a) && ToUnix(a.stop) + 1 == ToUnix(b.start))
  }

  /** Of two running tasks the earlier one meets the later one. */
  lemma {:induction false} TwoRunningMeet(n: nat, micros: int, turns: seq<Turn>, rules: Rules, i: nat, j: nat)
    requires GoodLoop(Initial(n, micros), turns, rules) && i < n && j < n && i != j
    requires var t := Ticked(Loop(Initial(n, micros), turns));
      Occupied(t[i]) && Occupied(t[j]) && t[i].status == t[j].status == Testing
    ensures var t := Ticked(Loop(Initial(n, micros), turns));
      if t[i].task.stop < t[j].task.start then Meets(t[i].task, t[j].task, rules.late)
      else t[j].task.stop < t[i].task.start && Meets(t[j].task, t[i].task, rules.late)
  {
    hide ToUnix, Loop, GoodLoop, Ticked;
    RunningInsideWindow(n, micros, turns, rules);
    var t := Ticked(Loop(Initial(n, micros), turns));
    var a, b := t[i].task, t[j].task;
    assert Apart(a, b);
    if a.stop < b.start {
      UnixOrder(a.stop, b.start);
    } else {
      UnixOrder(b.stop, a.start);
    }
  }

  /** With whole-second windows at most one task runs; if timeouts may carry, the windows must not be brief. */
  lemma {:induction false} AtMostOneRunning(n: nat, micros: int, turns: seq<Turn>, late: bool, i: nat, j: nat)
    requires GoodLoop(Initial(n, micros), turns, Rules(true, late)) && i < n && j < n
    ensures var t := Ticked(Loop(Initial(n, micros), turns));
      Occupied(t[i]) && Occupied(t[j]) && t[i].status == t[j].status == Testing ==> i == j
  {
    hide ToUnix, Loop, GoodLoop, Ticked;
    var rules := Rules(true, late);
    RunningInsideWindow(n, micros, turns, rules);
    var t := Ticked(Loop(Initial(n, micros), turns));
    if Occupied(t[i]) && Occupied(t[j]) && t[i].status == t[j].status == Testing && i != j {
      TwoRunningMeet(n, micros, turns, rules, i, j);
      var a, b := t[i].task, t[j].task;
      UnixOrder(a.start, a.stop);
      UnixOrder(b.start, b.stop);
      if a.stop < b.start {
        UnixOrder(a.stop, b.start);
      } else {
        UnixOrder(b.stop, a.start);
      }
      assert false;
    }
  }

  /** A queued task that is still there after the next messages is passed over by no more than the carry of the timeout,
      and the tick of the next turn starts it as soon as its start has come. */
  lemma {:induction false} StartsAtItsStart(n: nat, micros: int, turns: seq<Turn>, turn: Turn, i: nat, rules: Rules)
    requires GoodLoop(Initial(n, micros), turns, rules) && i < n
    requires GoodTurn(Loop(Initial(n, micros), turns), turn, rules)
    requires var c := Loop(Initial(n, micros), turns); var s := Asleep(c, turn)[i];
      Occupied(s) && s.status == Queue && Next(c, turn).table[i] == s
    ensures var c := Loop(Initial(n, micros), turns); var c', s := Next(c, turn), Asleep(c, turn)[i];
      && Now(c') <= ToUnix(s.task.start) + Slack(rules)
      && Ticked(c')[i] == if Now(c') >= ToUnix(s.task.start) then s.(status := Testing) else s
  {
    hide ToUnix, MinimalInterval, Run, Missing, Settled, Ready, Now, Ticked, Loop, GoodMessages;
    var c := Loop(Initial(n, micros), turns);
    WakesInTime(n, micros, turns, turn, rules);
    assert Settled(Asleep(c, turn), Now(c), rules);
    QueuedFits(Asleep(c, turn), Now(c), rules, i);
    TickAt(Next(c, turn), i);
  }

  /** A running task that no message stops is stopped by a tick at most one second, and the carry, past its limit. */
  lemma {:induction false} StopsAfterItsStop(n: nat, micros: int, turns: seq<Turn>, turn: Turn, i: nat, rules: Rules)
    requires GoodLoop(Initial(n, micros), turns, rules) && i < n
    requires GoodTurn(Loop(Initial(n, micros), turns), turn, rules)
    requires var c := Loop(Initial(n, micros), turns); var s := Asleep(c, turn)[i];
      Occupied(s) && s.status == Testing && Next(c, turn).table[i] == s
    ensures var c := Loop(Initial(n, micros), turns); var c', s := Next(c, turn), Asleep(c, turn)[i];
      && Now(c') <= Limit(s.task, rules) + 1 + Slack(rules)
      && Ticked(c')[i] == if Now(c') > ToUnix(s.task.stop) then s.(status := StopAuto) else s
  {
    hide ToUnix, MinimalInterval, Run, Missing, Settled, Ready, Now, Ticked, Loop, GoodMessages;
    WakesInTime(n, micros, turns, turn, rules);
    TickAt(Next(Loop(Initial(n, micros), turns), turn), i);
  }

  lemma {:induction false} QueuedFits(t: Table, now: int, rules: Rules, i: nat)
    requires Settled(t, now, rules) && i < |t| && Occupied(t[i])
    ensures Fits(t[i].task, rules)
  {
  }

  lemma {:induction false} WakesInTime(n: nat, micros: int, turns: seq<Turn>, turn: Turn, rules: Rules)
    requires GoodLoop(Initial(n, micros), turns, rules)
    requires GoodTurn(Loop(Initial(n, micros), turns), turn, rules)
    ensures var c := Loop(Initial(n, micros), turns); var t, next := Asleep(c, turn), Now(Next(c, turn));
      && Settled(t, Now(c), rules) && Now(c) <= next
      && (forall i :: 0 <= i < |t| && Occupied(t[i]) && t[i].status == Queue ==>
            next <= ToUnix(t[i].task.start) + Slack(rules))
      && (forall i :: 0 <= i < |t| && Occupied(t[i]) && t[i].status == Testing ==>
            next <= Limit(t[i].task, rules) + 1 + Slack(rules))
  {
    hide ToUnix, MinimalInterval, Run, Missing, Settled, Ready, Now, Ticked, Loop, GoodMessages;
    var c := Loop(Initial(n, micros), turns);
    EveryTurnReady(n, micros, turns, rules);
    RunningInsideWindow(n, micros, turns, rules);
    MissingKeeps(Ticked(c), turn.missing, Now(c), rules);
    SleepInSeconds(c, turn);
    SleepKeeps(Asleep(c, turn), Now(c), Now(Next(c, turn)), turn, rules);
  }

  // ---------- one task over a whole run ----------

  /** What has become of the queued task `s` at a tick, when nothing but the clock touches it: queued before its start,
      running until its stop, stopped after its limit; a brief task that was started late may run in between. */
  predicate ByClock(s: Slot, now: int, rules: Rules, r: Slot) {
    if now < ToUnix(s.task.start) then r == s.(status := Queue)
    else if now <= ToUnix(s.task.stop) then r == s.(status := Testing)
    else if now > Limit(s.task, rules) then r == s.(status := StopAuto)
    else r == s.(status := Testing) || r == s.(status := StopAuto)
  }

  /** Neither a missing file nor a message of this turn touches entry `i`. */
  ghost predicate Untouched(c: Clock, turn: Turn, i: nat) {
    i < |c.table| && Asleep(c, turn)[i] == Ticked(c)[i] == Next(c, turn).table[i]
  }

  /** The loop from an empty table as it stands when turn `k` begins. */
  function Began(n: nat, micros: int, turns: seq<Turn>, k: nat): (c: Clock)
    requires k <= |turns|
    ensures |c.table| == n
  {
    Loop(Initial(n, micros), turns[..k])
  }

  /** Some turn from `k` on, or the end, is at a second between the two. */
  ghost predicate Visits(n: nat, micros: int, turns: seq<Turn>, k: nat, from: int, to: int) {
    exists l: nat :: k <= l <= |turns| && from <= Now(Began(n, micros, turns, l)) <= to
  }

  lemma {:induction false} BeganStep(n: nat, micros: int, turns: seq<Turn>, rules: Rules)
    requires |turns| > 0 && GoodLoop(Initial(n, micros), turns, rules)
    ensures var prev, turn := turns[..|turns| - 1], turns[|turns| - 1];
      && GoodLoop(Initial(n, micros), prev, rules)
      && GoodTurn(Began(n, micros, prev, |prev|), turn, rules)
      && Began(n, micros, turns, |turns|) == Next(Began(n, micros, prev, |prev|), turn)
      && forall l: nat :: l <= |prev| ==> Began(n, micros, prev, l) == Began(n, micros, turns, l)
  {
    hide GoodTurn, Next;
    var prev := turns[..|turns| - 1];
    forall l: nat | l <= |prev| ensures prev[..l] == turns[..l] { }
    assert turns[..|turns|] == turns;
  }

  /** One turn: from one tick to the next the entry goes by the clock, and neither boundary is passed over by more than
      the slack. */
  lemma {:induction false} TurnFollows(c: Clock, turn: Turn, rules: Rules, i: nat, s: Slot)
    requires Settled(Ticked(c), Now(c), rules) && c.left < MICROS && GoodTurn(c, turn, rules) && Untouched(c, turn, i)
    requires Occupied(s) && Fits(s.task, rules) && ByClock(s, Now(c), rules, Ticked(c)[i])
    ensures ByClock(s, Now(Next(c, turn)), rules, Ticked(Next(c, turn))[i]) && Now(c) <= Now(Next(c, turn))
    ensures Now(c) < ToUnix(s.task.start) ==> Now(Next(c, turn)) <= ToUnix(s.task.start) + Slack(rules)
    ensures Now(c) <= ToUnix(s.task.stop) ==> Now(Next(c, turn)) <= Limit(s.task, rules) + 1 + Slack(rules)
  {
    hide ToUnix, MinimalInterval, Run, Missing, Settled, Ready, Ticked, Now, GoodMessages;
    UnixOrder(s.task.start, s.task.stop);
    MissingKeeps(Ticked(c), turn.missing, Now(c), rules);
    SleepInSeconds(c, turn);
    SleepKeeps(Asleep(c, turn), Now(c), Now(Next(c, turn)), turn, rules);
    TickAt(Next(c, turn), i);
  }

  lemma {:induction false} ArrivalFollows(c: Clock, rules: Rules, i: nat)
    requires Ready(c.table, Now(c), rules) && i < |c.table| && Occupied(c.table[i]) && c.table[i].status == Queue
    ensures Fits(c.table[i].task, rules) && ByClock(c.table[i], Now(c), rules, Ticked(c)[i])
    ensures Now(c) <= Limit(c.table[i].task, rules)
  {
    hide ToUnix, Disjoint, FreeQueued, Now;
    TickAt(c, i);
  }

  /** A task that is in the queue when turn `k` begins - it may have arrived late - and that no message touches from
      then on is queued until its start, runs until its stop and is stopped after its limit, at every later tick; and
      some turn is at its start or, if timeouts may carry, one second later, and some turn soon after its stop. */
  lemma {:induction false} FollowsClock(n: nat, micros: int, turns: seq<Turn>, k: nat, i: nat, s: Slot, rules: Rules)
    requires GoodLoop(Initial(n, micros), turns, rules) && k <= |turns| && i < n
    requires Began(n, micros, turns, k).table[i] == s && Occupied(s) && s.status == Queue
    requires forall l: nat :: k <= l < |turns| ==> Untouched(Began(n, micros, turns, l), turns[l], i)
    ensures var first, last := Began(n, micros, turns, k), Began(n, micros, turns, |turns|);
      && Fits(s.task, rules) && ByClock(s, Now(last), rules, Ticked(last)[i]) && Now(first) <= Now(last)
      && (Now(first) < ToUnix(s.task.start) <= Now(last) ==>
            Visits(n, micros, turns, k, ToUnix(s.task.start), ToUnix(s.task.start) + Slack(rules)))
      && (ToUnix(s.task.stop) < Now(last) ==>
            Visits(n, micros, turns, k, ToUnix(s.task.stop) + 1, Limit(s.task, rules) + 1 + Slack(rules)))
    decreases |turns|
  {
    hide ToUnix, GoodLoop, GoodTurn, Untouched, Ready, Settled, Ticked, ByClock, Fits, Next, Began, Now, Limit;
    if k == |turns| {
      var c := Began(n, micros, turns, k);
      BeganReady(n, micros, turns, rules);
      ArrivalFollows(c, rules, i);
      assert ToUnix(s.task.stop) < Now(c) ==>
        Visits(n, micros, turns, k, ToUnix(s.task.stop) + 1, Limit(s.task, rules) + 1 + Slack(rules));
    } else {
      var prev, turn := turns[..|turns| - 1], turns[|turns| - 1];
      BeganStep(n, micros, turns, rules);
      FollowsClock(n, micros, prev, k, i, s, rules);
      var c := Began(n, micros, prev, |prev|);
      BeganReady(n, micros, prev, rules);
      assert Untouched(Began(n, micros, turns, |prev|), turns[|prev|], i);
      TurnFollows(c, turn, rules, i, s);
      forall from, to | Visits(n, micros, prev, k, from, to) ensures Visits(n, micros, turns, k, from, to) {
        var l: nat :| k <= l <= |prev| && from <= Now(Began(n, micros, prev, l)) <= to;
        assert Began(n, micros, turns, l) == Began(n, micros, prev, l);
      }
      assert forall from, to :: from <= Now(Began(n, micros, turns, |turns|)) <= to ==>
          Visits(n, micros, turns, k, from, to);
    }
  }

  lemma {:induction false} BeganReady(n: nat, micros: int, turns: seq<Turn>, rules: Rules)
    requires GoodLoop(Initial(n, micros), turns, rules)
    ensures var c := Began(n, micros, turns, |turns|);
      Ready(c.table, Now(c), rules) && c.left < MICROS && Settled(Ticked(c), Now(c), rules)
  {
    hide GoodLoop, Ready, Settled, Loop, Ticked, Now;
    assert turns[..|turns|] == turns;
    EveryTurnReady(n, micros, turns, rules);
    RunningInsideWindow(n, micros, turns, rules);
  }

  // ---------- when timeouts carry ----------

  lemma {:induction false} LeftOver(seconds: int, slept: nat)
    requires slept < MICROS
    ensures (seconds * MICROS - slept) % MICROS == if slept == 0 then 0 else MICROS - slept
  {
  }

  /** A timeout carries only after a message has cut a sleep short and `select` has kept the rest: a run in which
      neither happens to any turn never has microseconds left. */
  lemma {:induction false} NeverCarries(n: nat, micros: int, turns: seq<Turn>)
    requires forall k :: 0 <= k < |turns| ==>
               !turns[k].keeps || turns[k].sleep == Timeout(Loop(Initial(n, micros), turns[..k]), turns[k])
    ensures Loop(Initial(n, micros), turns).left == 0 && !Carries(Loop(Initial(n, micros), turns))
  {
    hide Timeout, Run, Asleep;
    if |turns| > 0 {
      var prev := turns[..|turns| - 1];
      forall k | 0 <= k < |prev| ensures prev[..k] == turns[..k] { }
      NeverCarries(n, micros, prev);
      assert turns[..|turns| - 1] == prev;
    }
  }

  lemma {:induction false} LoopStep(c: Clock, turns: seq<Turn>, turn: Turn)
    ensures Loop(c, turns + [turn]) == Next(Loop(c, turns), turn) && Loop(c, []) == c
  {
    assert (turns + [turn])[..|turns|] == turns;
  }

  lemma {:induction false} RunStep(t: Table, acts: seq<Action>, a: Action)
    ensures Run(t, acts + [a]) == Apply(Run(t, acts), a) && Run(t, []) == t
  {
    assert (acts + [a])[..|acts|] == acts;
  }

  lemma {:induction false} TickAt(c: Clock, i: nat)
    requires i < |c.table|
    ensures Ticked(c)[i] == TickSlot(c.table[i], Now(c), true)
  {
  }

  lemma {:induction false} TwoReceived(t: Table, now: int, a: TaskFmt, b: TaskFmt)
    requires |t| >= 2 && forall i :: 0 <= i < |t| ==> t[i] == EMPTY
    requires a.len != 0 && b.len != 0 && a.stop < b.start && now < ToUnix(a.stop) && now < ToUnix(b.stop)
    ensures var r := Run(t, [Recv(now, 1, true, a), Recv(now, 2, true, b)]);
      r[0] == Slot(1, Queue, a) && r[1] == Slot(2, Queue, b) && forall i :: 2 <= i < |r| ==> r[i] == EMPTY
  {
    hide ToUnix, Run;
    var ma, mb := Recv(now, 1, true, a), Recv(now, 2, true, b);
    RunStep(t, [], ma);
    RunStep(t, [ma], mb);
    assert [] + [ma] == [ma] && [ma] + [mb] == [ma, mb];
    var t1 := Apply(t, ma);
    assert t1 == t[0 := Slot(1, Queue, a)];
    assert Admissible(t1, b, now);
  }

  // ---------- the condition is exact ----------

  /** Some run ends a tick with tasks a and b both running. */
  ghost predicate RunTogether(n: nat, a: TaskFmt, b: TaskFmt, late: bool) {
    exists micros: int, turns: seq<Turn>, i: nat, j: nat :: Together(n, a, b, late, micros, turns, i, j)
  }

  ghost predicate Together(n: nat, a: TaskFmt, b: TaskFmt, late: bool, micros: int, turns: seq<Turn>, i: nat, j: nat) {
    var t := Ticked(Loop(Initial(n, micros), turns));
    && GoodLoop(Initial(n, micros), turns, Rules(false, late)) && i < n && j < n
    && t[i].task == a && t[j].task == b && t[i].status == t[j].status == Testing
  }

  lemma {:induction false} TogetherMeets(n: nat, a: TaskFmt, b: TaskFmt, late: bool, micros: int, turns: seq<Turn>,
                                         i: nat, j: nat)
    requires a.len != 0 && b.len != 0 && WellFormed(a) && WellFormed(b) && a.stop < b.start
    requires Together(n, a, b, late, micros, turns, i, j)
    ensures Meets(a, b, late)
  {
    hide ToUnix, Loop, GoodLoop, Ticked, Meets;
    TwoRunningMeet(n, micros, turns, Rules(false, late), i, j);
  }

  /** Two admissible windows can be run at the same time if and only if the earlier one stops in the clock second in
      which the later one starts or, if timeouts may carry, is brief and stops one second before. */
  lemma {:induction false} TogetherExactly(n: nat, a: TaskFmt, b: TaskFmt, late: bool)
    requires n >= 2 && a.len != 0 && b.len != 0 && WellFormed(a) && WellFormed(b) && a.stop < b.start
    ensures RunTogether(n, a, b, late) <==> Meets(a, b, late)
  {
    hide ToUnix, Together;
    if RunTogether(n, a, b, late) {
      var micros: int, turns: seq<Turn>, i: nat, j: nat :| Together(n, a, b, late, micros, turns, i, j);
      TogetherMeets(n, a, b, late, micros, turns, i, j);
    }
    if ToUnix(a.stop) == ToUnix(b.start) {
      var turns := SharedSecondRun(n, a, b, late);
    } else if Meets(a, b, late) {
      var turns := CarriedRun(n, a, b);
    }
  }

  /** Both tasks arrive `slept` microseconds after the beginning of the second `now`. */
  lemma {:induction false} ArriveTogether(n: nat, a: TaskFmt, b: TaskFmt, now: int, slept: nat, rules: Rules)
    returns (turn: Turn)
    requires n >= 2 && a.len != 0 && b.len != 0 && Fits(a, rules) && Fits(b, rules) && a.stop < b.start
    requires now < ToUnix(a.stop) && now < ToUnix(b.stop) && slept < MICROS
    ensures var c0 := Initial(n, now * MICROS); var c := Next(c0, turn);
      && GoodTurn(c0, turn, rules)
      && c.table[0] == Slot(1, Queue, a) && c.table[1] == Slot(2, Queue, b)
      && c.micros == now * MICROS + slept && c.left == if slept == 0 then 0 else MICROS - slept
  {
    hide ToUnix, Run, MinimalInterval, Ticked, Fits;
    var c0, ma, mb := Initial(n, now * MICROS), Recv(now, 1, true, a), Recv(now, 2, true, b);
    turn := Turn([], now, now, 61, slept, true, [ma, mb]);
    forall i: nat | i < n ensures Ticked(c0)[i] == EMPTY {
      TickAt(c0, i);
    }
    TimeoutBounds(Asleep(c0, turn), now, now, now, 61);
    TwoReceived(Asleep(c0, turn), now, a, b);
    LeftOver(Seconds(c0, turn), slept);
  }

  lemma {:induction false} TwoTurns(c0: Clock, one: Turn, two: Turn, rules: Rules)
    requires GoodTurn(c0, one, rules) && GoodTurn(Next(c0, one), two, rules)
    ensures GoodLoop(c0, [one, two], rules) && Loop(c0, [one, two]) == Next(Next(c0, one), two)
    ensures Loop(c0, [one]) == Next(c0, one)
  {
    hide GoodTurn, Next, Loop;
    LoopStep(c0, [], one);
    LoopStep(c0, [one], two);
    assert [] + [one] == [one] && [one] + [two] == [one, two] && [one, two][..1] == [one] && [one, two][..0] == [];
  }

  /** Both tasks wait in the second before the later one starts, which is that of the earlier one's stop. */
  lemma {:induction false} SharedSecondRun(n: nat, a: TaskFmt, b: TaskFmt, late: bool) returns (turns: seq<Turn>)
    requires n >= 2 && a.len != 0 && b.len != 0 && WellFormed(a) && WellFormed(b) && a.stop < b.start
    requires ToUnix(a.stop) == ToUnix(b.start)
    ensures Together(n, a, b, late, (ToUnix(b.start) - 1) * MICROS, turns, 0, 1)
  {
    hide ToUnix, MinimalInterval, Run, Loop, Ticked, GoodLoop;
    UnixOrder(a.start, a.stop);
    UnixOrder(b.start, b.stop);
    var rules, now := Rules(false, late), ToUnix(b.start) - 1;
    var c0 := Initial(n, now * MICROS);
    var one := ArriveTogether(n, a, b, now, 0, rules);
    var c1, two := Next(c0, one), Turn([], now, now, 61, MICROS, true, []);
    TimeoutBounds(Asleep(c1, two), now, now, now, 61);
    NoMessages(Asleep(c1, two));
    var c2 := Next(c1, two);
    TwoTurns(c0, one, two, rules);
    turns := [one, two];
    TickAt(c1, 0);
    TickAt(c1, 1);
    TickAt(c2, 0);
    TickAt(c2, 1);
    assert c2.table[1] == Slot(2, Queue, b) && c2.table[0] in {Slot(1, Queue, a), Slot(1, Testing, a)};
  }

  lemma {:induction false} NoMessages(t: Table)
    ensures Run(t, []) == t
  {
  }

  /** The messages come in the middle of a second and leave half a second in the timer: the next timeout passes over the
      start second of the task that was to start then. */
  lemma {:induction false} StartPassedOver(n: nat, a: TaskFmt, b: TaskFmt) returns (turns: seq<Turn>)
    requires n >= 2 && a.len != 0 && b.len != 0 && WellFormed(a) && WellFormed(b) && a.stop < b.start
    ensures var c0 := Initial(n, (ToUnix(a.start) - 1) * MICROS); var c := Loop(c0, turns);
      && GoodLoop(c0, turns, Rules(false, true))
      && (forall k :: 0 <= k <= |turns| ==> Now(Loop(c0, turns[..k])) != ToUnix(a.start))
      && Now(c) == ToUnix(a.start) + 1 && Ticked(c)[0] == Slot(1, Testing, a)
      && Ticked(c)[1] == Slot(2, if ToUnix(b.start) <= Now(c) then Testing else Queue, b)
  {
    hide ToUnix, MinimalInterval, Run, Loop, Ticked, GoodLoop;
    UnixOrder(a.start, a.stop);
    UnixOrder(a.stop, b.start);
    UnixOrder(b.start, b.stop);
    var rules, now := Rules(false, true), ToUnix(a.start) - 1;
    var c0 := Initial(n, now * MICROS);
    var one := ArriveTogether(n, a, b, now, 500_000, rules);
    var c1, two := Next(c0, one), Turn([], now, now, 61, MICROS + 500_000, true, []);
    TickAt(c1, 0);
    TickAt(c1, 1);
    TimeoutBounds(Asleep(c1, two), now, now, now, 61);
    NoMessages(Asleep(c1, two));
    var c2 := Next(c1, two);
    TwoTurns(c0, one, two, rules);
    turns := [one, two];
    LoopStep(c0, [], one);
    assert turns[..0] == [] && turns[..1] == [one] && turns[..2] == turns;
    TickAt(c2, 0);
    TickAt(c2, 1);
  }

  /** So a brief task is still running one second after its stop, when the next one starts. */
  lemma {:induction false} CarriedRun(n: nat, a: TaskFmt, b: TaskFmt) returns (turns: seq<Turn>)
    requires n >= 2 && a.len != 0 && b.len != 0 && WellFormed(a) && WellFormed(b) && a.stop < b.start
    requires Brief(a) && ToUnix(a.stop) + 1 == ToUnix(b.start)
    ensures Together(n, a, b, true, (ToUnix(a.start) - 1) * MICROS, turns, 0, 1)
  {
    hide ToUnix, Loop, Ticked, GoodLoop;
    turns := StartPassedOver(n, a, b);
  }

  // ---------- with manual START before its time ----------

  /** Turns in which the server may send START at any time. */
  ghost predicate ManualTurn(c: Clock, turn: Turn) {
    && turn.local >= 1
    && turn.sleep <= Timeout(c, turn)
    && forall j :: 0 <= j < |turn.msgs| ==>
         turn.msgs[j].Start?
         || GoodMessage(Run(Asleep(c, turn), turn.msgs[..j]), turn.msgs[j], Now(Next(c, turn)), Rules(false, false))
  }

  ghost predicate ManualLoop(c: Clock, turns: seq<Turn>) {
    forall k :: 0 <= k < |turns| ==> ManualTurn(Loop(c, turns[..k]), turns[k])
  }

  lemma {:induction false} ManualLoopStep(c: Clock, turns: seq<Turn>, turn: Turn)
    requires ManualLoop(c, turns) && ManualTurn(Loop(c, turns), turn)
    ensures ManualLoop(c, turns + [turn]) && Loop(c, turns + [turn]) == Next(Loop(c, turns), turn)
  {
    hide ManualTurn, Loop;
    LoopStep(c, turns, turn);
    var all := turns + [turn];
    forall k | 0 <= k < |all| ensures ManualTurn(Loop(c, all[..k]), all[k]) {
      if k < |turns| {
        assert all[..k] == turns[..k];
      } else {
        assert all[..k] == turns;
      }
    }
  }

  /** The table in which the later task already runs and the earlier one still waits. */
  predicate Started(t: Table, a: TaskFmt, b: TaskFmt) {
    && |t| >= 2 && t[0] == Slot(1, Queue, a) && t[1] == Slot(2, Testing, b)
    && forall i :: 2 <= i < |t| ==> t[i] == EMPTY
  }

  /** A turn at a time before both boundaries changes nothing. */
  lemma {:induction false} IdleTick(c: Clock, a: TaskFmt, b: TaskFmt)
    requires Started(c.table, a, b) && a.len != 0
    requires Now(c) < ToUnix(a.start) && Now(c) <= ToUnix(b.stop)
    ensures Ticked(c) == c.table
  {
    hide ToUnix;
    forall i: nat | i < |c.table| ensures Ticked(c)[i] == c.table[i] {
      TickAt(c, i);
    }
  }

  /** ... so the loop can pass the seconds up to the start of the earlier task one by one. */
  lemma {:induction false} IdleUntil(c0: Clock, turns: seq<Turn>, a: TaskFmt, b: TaskFmt, end: int)
    returns (longer: seq<Turn>)
    requires ManualLoop(c0, turns) && a.len != 0
    requires var c := Loop(c0, turns); Started(c.table, a, b) && c.micros % MICROS == 0 && c.left == 0 && Now(c) <= end
    requires end <= ToUnix(a.start) && end <= ToUnix(b.stop)
    ensures ManualLoop(c0, longer) && Started(Loop(c0, longer).table, a, b) && Now(Loop(c0, longer)) == end
    decreases end - Now(Loop(c0, turns))
  {
    hide ToUnix, Loop, ManualLoop, Started, Ticked, MinimalInterval;
    var c := Loop(c0, turns);
    if Now(c) == end {
      longer := turns;
    } else {
      var turn := Turn([], Now(c), Now(c), 61, MICROS, true, []);
      IdleTick(c, a, b);
      TimeoutBounds(Asleep(c, turn), Now(c), Now(c), Now(c), 61);
      LeftOver(Seconds(c, turn) - 1, 0);
      NoMessages(Asleep(c, turn));
      assert Next(c, turn) == Clock(c.table, c.micros + MICROS, 0);
      ManualLoopStep(c0, turns, turn);
      longer := IdleUntil(c0, turns + [turn], a, b, end);
    }
  }

  /** The first turn: both tasks arrive, and the server starts the later one by hand. */
  lemma {:induction false} StartByHand(n: nat, a: TaskFmt, b: TaskFmt, now: int) returns (turn: Turn)
    requires n >= 2 && a.len != 0 && b.len != 0 && WellFormed(a) && WellFormed(b) && a.stop < b.start
    requires now < ToUnix(a.stop) && now < ToUnix(b.stop)
    ensures ManualTurn(Initial(n, now * MICROS), turn)
    ensures var c := Next(Initial(n, now * MICROS), turn);
      Started(c.table, a, b) && c.micros == now * MICROS && c.left == 0
  {
    hide ToUnix, Run, MinimalInterval, Ticked;
    var c, start := Initial(n, now * MICROS), Start(2, true);
    var two := [Recv(now, 1, true, a), Recv(now, 2, true, b)];
    turn := Turn([], now, now, 61, 0, true, two + [start]);
    forall i: nat | i < n ensures Ticked(c)[i] == EMPTY {
      TickAt(c, i);
    }
    var t := Asleep(c, turn);
    TimeoutBounds(t, now, now, now, 61);
    TwoReceived(t, now, a, b);
    RunStep(t, two, start);
    var t2 := Run(t, two);
    assert First(t2, Running, 0) == n;
    assert First(t2, WithId(2), 0) == 1;
    assert Apply(t2, start) == t2[1 := Slot(2, Testing, b)];
  }

  /** A START before its time breaks the claim for any two disjoint windows: there is a run from the moment both are
      admitted to the start of the earlier one, started early by hand the later one is running then, and the tick of
      that second starts the earlier one beside it. */
  lemma {:induction false} ManualStartRunsTwo(n: nat, a: TaskFmt, b: TaskFmt, now: int) returns (turns: seq<Turn>)
    requires n >= 2 && a.len != 0 && b.len != 0 && WellFormed(a) && WellFormed(b) && a.stop < b.start
    requires now <= ToUnix(a.start) && now < ToUnix(a.stop)
    ensures ManualLoop(Initial(n, now * MICROS), turns)
    ensures var c := Loop(Initial(n, now * MICROS), turns);
      Now(c) == ToUnix(a.start) && Ticked(c)[0] == Slot(1, Testing, a) && Ticked(c)[1] == Slot(2, Testing, b)
  {
    hide ToUnix, Loop, ManualLoop, ManualTurn, Next, Ticked;
    UnixOrder(a.start, a.stop);
    UnixOrder(a.stop, b.start);
    UnixOrder(b.start, b.stop);
    var c0 := Initial(n, now * MICROS);
    var first := StartByHand(n, a, b, now);
    NothingYet(c0);
    ManualLoopStep(c0, [], first);
    assert [] + [first] == [first];
    turns := IdleUntil(c0, [first], a, b, ToUnix(a.start));
    var c := Loop(c0, turns);
    TickAt(c, 0);
    TickAt(c, 1);
  }

  lemma {:induction false} NothingYet(c: Clock)
    ensures ManualLoop(c, []) && Loop(c, []) == c
  {
  }
}
