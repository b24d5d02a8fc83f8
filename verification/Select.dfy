/** lwip_select and event_callback (lib/lwip/api/sockets.c) as a step system: one step is
    one protected region or one semaphore operation of a task, in any interleaving of
    tasks that select and of callbacks that report events. */
module Select {
  import opened Lists

  /** rcvevent, sendevent, errevent and select_waiting of a socket, and whether it has a
      lastdata that a recv has not used up. */
  datatype Sock = Sock(rcv: int, send: bool, err: bool, waiting: int, lastdata: bool)

  datatype Event = RcvPlus | RcvMinus | SendPlus | SendMinus | Error

  /** Where a task is in lwip_select. */
  datatype Phase = Idle | Scan1(i: nat) | Push | Inc(i: nat) | Scan2(i: nat) | Sleep | Dec(i: nat) | Unlink
                 | Scan3(i: nat)

  /** The sockets it watches, below max; whether the running scan has found one ready;
      sem_signalled of its select_cb, which is also the count of its semaphore; whether its
      sleep ended in a timeout; and the timeout it gave. */
  datatype Task = Task(phase: Phase, max: nat, rd: set<nat>, wr: set<nat>, ex: set<nat>, found: bool, signalled: bool,
                       timedOut: bool, limit: Limit)

  /** A timeout of zero, another one, or none. */
  datatype Limit = AtOnce | Finite | Forever

  /** A callback between two protected regions: its socket, the select_cb it has just
      looked at, and the change counter it has read. */
  datatype Callback = Off | At(s: nat, scb: nat, seen: nat)

  /** list is select_cb_list from its head, each entry named by its task; ctr is select_cb_ctr. */
  datatype State = State(socks: seq<Sock>, tasks: seq<Task>, list: seq<nat>, ctr: nat, callbacks: seq<Callback>)

  datatype Step =
    | Begin(t: nat, max: nat, rd: set<nat>, wr: set<nat>, ex: set<nat>, limit: Limit)
    | Look(t: nat) | NoSemaphore(t: nat) | Link(t: nat) | Count(t: nat) | Wake(t: nat) | TimeOut(t: nat)
    | Uncount(t: nat) | Leave(t: nat)
    | Report(k: nat, s: nat, evt: Event) | Continue(k: nat)
    | Receive(s: nat, lastdata: bool)

  /** What lwip_selscan counts as ready: an event, or data left over from the last recv. */
  predicate Ready(sock: Sock, t: Task, s: nat) { Pending(sock, t, s) || (s in t.rd && sock.lastdata) }

  /** The socket has an event for task t: readable, writable or in error. */
  predicate Pending(sock: Sock, t: Task, s: nat) {
    (s in t.rd && sock.rcv > 0) || (s in t.wr && sock.send) || (s in t.ex && sock.err)
  }

  predicate Watches(t: Task, s: nat) { s < t.max && (s in t.rd || s in t.wr || s in t.ex) }

  // ------------------------------------------------------------------ the list

  /** What follows a in the list. */
  function Rest(list: seq<nat>, a: nat): seq<nat> {
    if list == [] then [] else if list[0] == a then list[1..] else Rest(list[1..], a)
  }

  // ---------------------------------------------------------------------- steps

  predicate Enabled(st: State, step: Step) {
    match step
    case Begin(t, max, _, _, _, _) => t < |st.tasks| && st.tasks[t].phase.Idle? && max <= |st.socks|
    case Look(t) => t < |st.tasks| && (st.tasks[t].phase.Scan1? || st.tasks[t].phase.Scan2? || st.tasks[t].phase.Scan3?)
    case NoSemaphore(t) => t < |st.tasks| && st.tasks[t].phase.Push?
    case Link(t) => t < |st.tasks| && st.tasks[t].phase.Push?
    case Count(t) => t < |st.tasks| && st.tasks[t].phase.Inc?
    case Wake(t) => t < |st.tasks| && st.tasks[t].phase.Sleep? && st.tasks[t].signalled
    case TimeOut(t) => t < |st.tasks| && st.tasks[t].phase.Sleep? && !st.tasks[t].limit.Forever?
    case Uncount(t) => t < |st.tasks| && st.tasks[t].phase.Dec?
    case Leave(t) => t < |st.tasks| && st.tasks[t].phase.Unlink?
    case Report(k, s, _) => k < |st.callbacks| && st.callbacks[k].Off? && s < |st.socks|
    case Continue(k) => k < |st.callbacks| && st.callbacks[k].At? && st.callbacks[k].s < |st.socks|
    case Receive(s, _) => s < |st.socks|
  }

  function SetTask(st: State, t: nat, task: Task): State
    requires t < |st.tasks|
  {
    st.(tasks := st.tasks[t := task])
  }

  /** The phase after a scan: the first returns if it found something or may not wait, and
      goes to sleep only through the list; the second sleeps if it found nothing; the third
      returns. */
  function AfterScan(t: Task): Phase {
    if t.phase.Scan1? then (if t.found || t.limit.AtOnce? then Idle else Push)
    else if t.phase.Scan2? then (if t.found then Dec(0) else Sleep)
    else Idle
  }

  function NextScan(ph: Phase): Phase {
    match ph
    case Scan1(i) => Scan1(i + 1)
    case Scan2(i) => Scan2(i + 1)
    case Scan3(i) => Scan3(i + 1)
    case _ => ph
  }

  /** One socket of lwip_selscan, or its end. */
  function Looked(st: State, task: Task): Task
    requires task.phase.Scan1? || task.phase.Scan2? || task.phase.Scan3?
  {
    if task.phase.i < task.max && task.phase.i < |st.socks| then
      task.(phase := NextScan(task.phase), found := task.found || Ready(st.socks[task.phase.i], task, task.phase.i))
    else task.(phase := AfterScan(task))
  }

  function Counted(st: State, t: nat, task: Task): State
    requires t < |st.tasks| && task.phase.Inc?
  {
    var i := task.phase.i;
    if i >= task.max || i >= |st.socks| then SetTask(st, t, task.(phase := Scan2(0), found := false))
    else if Watches(task, i) then
      SetTask(st, t, task.(phase := Inc(i + 1)))
        .(socks := st.socks[i := st.socks[i].(waiting := st.socks[i].waiting + 1)])
    else SetTask(st, t, task.(phase := Inc(i + 1)))
  }

  function Uncounted(st: State, t: nat, task: Task): State
    requires t < |st.tasks| && task.phase.Dec?
  {
    var i := task.phase.i;
    if i >= task.max || i >= |st.socks| then SetTask(st, t, task.(phase := Unlink))
    else if Watches(task, i) then
      SetTask(st, t, task.(phase := Dec(i + 1)))
        .(socks := st.socks[i := st.socks[i].(waiting := st.socks[i].waiting - 1)])
    else SetTask(st, t, task.(phase := Dec(i + 1)))
  }

  function Changed(sock: Sock, evt: Event): Sock {
    match evt
    case RcvPlus => sock.(rcv := sock.rcv + 1)
    case RcvMinus => sock.(rcv := sock.rcv - 1)
    case SendPlus => sock.(send := true)
    case SendMinus => sock.(send := false)
    case Error => sock.(err := true)
  }

  /** Callback k looks at the first entry of `ahead`, signals its task if socket s has
      something for it, and lets go of the protection; with nothing ahead it ends. */
  function Visit(st: State, k: nat, s: nat, ahead: seq<nat>): State
    requires k < |st.callbacks| && s < |st.socks|
  {
    if ahead == [] || ahead[0] >= |st.tasks| then st.(callbacks := st.callbacks[k := Off])
    else
      var u := ahead[0];
      var seen := st.(callbacks := st.callbacks[k := At(s, u, st.ctr)]);
      if !st.tasks[u].signalled && Pending(st.socks[s], st.tasks[u], s) then
        SetTask(seen, u, st.tasks[u].(signalled := true)) else seen
  }

  /** event_callback up to the end of its first protected region. */
  function Reported(st: State, k: nat, s: nat, evt: Event): State
    requires k < |st.callbacks| && s < |st.socks|
  {
    var changed := st.(socks := st.socks[s := Changed(st.socks[s], evt)]);
    if st.socks[s].waiting == 0 then changed else Visit(changed, k, s, st.list)
  }

  /** The next one: the list from its head if it has changed, the next entry otherwise. */
  function Continued(st: State, k: nat, cb: Callback): State
    requires k < |st.callbacks| && cb.At? && cb.s < |st.socks|
  {
    Visit(st, k, cb.s, if cb.seen != st.ctr then st.list else Rest(st.list, cb.scb))
  }

  function Apply(st: State, step: Step): State
    requires Enabled(st, step)
  {
    match step
    case Begin(t, max, rd, wr, ex, limit) =>
      SetTask(st, t, Task(Scan1(0), max, rd, wr, ex, false, false, false, limit))
    case Look(t) => SetTask(st, t, Looked(st, st.tasks[t]))
    case NoSemaphore(t) => SetTask(st, t, st.tasks[t].(phase := Idle))
    case Link(t) =>
      SetTask(st, t, st.tasks[t].(phase := Inc(0), signalled := false)).(list := [t] + st.list, ctr := st.ctr + 1)
    case Count(t) => Counted(st, t, st.tasks[t])
    case Wake(t) => SetTask(st, t, st.tasks[t].(phase := Dec(0)))
    case TimeOut(t) => SetTask(st, t, st.tasks[t].(phase := Dec(0), timedOut := true))
    case Uncount(t) => Uncounted(st, t, st.tasks[t])
    case Leave(t) =>
      SetTask(st, t, st.tasks[t].(phase := if st.tasks[t].timedOut then Idle else Scan3(0), found := false))
        .(list := Without(st.list, t), ctr := st.ctr + 1)
    case Report(k, s, evt) => Reported(st, k, s, evt)
    case Continue(k) => Continued(st, k, st.callbacks[k])
    case Receive(s, lastdata) => st.(socks := st.socks[s := st.socks[s].(lastdata := lastdata)])
  }

  // ------------------------------------------------------------------ invariant

  /** Between Link and Leave. */
  predicate Linked(ph: Phase) { ph.Inc? || ph.Scan2? || ph.Sleep? || ph.Dec? || ph.Unlink? }

  /** The task has socket s counted in select_waiting. */
  predicate Counts(t: Task, s: nat) {
    Watches(t, s) && match t.phase
                     case Inc(i) => s < i
                     case Scan2(_) => true
                     case Sleep => true
                     case Dec(i) => s >= i
                     case _ => false
  }

  /** How many of the first n tasks count socket s. */
  function Counters(tasks: seq<Task>, s: nat, n: nat): nat
    requires n <= |tasks|
  {
    if n == 0 then 0 else Counters(tasks, s, n - 1) + (if Counts(tasks[n - 1], s) then 1 else 0)
  }

  /** The second scan of the task is past socket s, or the task sleeps. */
  predicate Passed(t: Task, s: nat) {
    s < t.max && ((t.phase.Scan2? && s < t.phase.i) || t.phase.Sleep?)
  }

  /** The callback is at work on socket s and will still look at task t. */
  ghost predicate WillVisit(st: State, k: nat, s: nat, t: nat)
    requires k < |st.callbacks|
  {
    st.callbacks[k].At? && st.callbacks[k].s == s
      && (st.callbacks[k].seen != st.ctr || t in Rest(st.list, st.callbacks[k].scb))
  }

  /** The task will not sleep, because its second scan has found something. */
  predicate WillNotSleep(t: Task) { t.phase.Scan2? && t.found }

  /** Task t, unless it found something itself, has been signalled or will be, if socket s
      has something for it that it can no longer see. */
  ghost predicate NotLost(st: State, t: nat, s: nat)
    requires t < |st.tasks| && s < |st.socks|
  {
    Passed(st.tasks[t], s) && !WillNotSleep(st.tasks[t]) && Pending(st.socks[s], st.tasks[t], s) ==>
      st.tasks[t].signalled || exists k: nat | k < |st.callbacks| :: WillVisit(st, k, s, t)
  }

  /** A callback that will follow a pointer holds one into the list. */
  ghost predicate CallbackOk(st: State, k: nat)
    requires k < |st.callbacks|
  {
    st.callbacks[k].At? ==>
      && st.callbacks[k].s < |st.socks| && st.callbacks[k].seen <= st.ctr
      && (st.callbacks[k].seen == st.ctr ==> st.callbacks[k].scb in st.list)
  }

  ghost predicate Inv(st: State) {
    && Distinct(st.list)
    && (forall t: nat {:trigger t in st.list} :: t in st.list <==> t < |st.tasks| && Linked(st.tasks[t].phase))
    && (forall t: nat {:trigger st.tasks[t]} | t < |st.tasks| :: st.tasks[t].max <= |st.socks|)
    && (forall s: nat {:trigger st.socks[s]} | s < |st.socks| ::
          st.socks[s].waiting == Counters(st.tasks, s, |st.tasks|))
    && (forall k: nat {:trigger CallbackOk(st, k)} | k < |st.callbacks| :: CallbackOk(st, k))
    && (forall t: nat, s: nat {:trigger NotLost(st, t, s)} | t < |st.tasks| && s < |st.socks| :: NotLost(st, t, s))
  }

  // ------------------------------------------------------------------ list facts

  /** One entry further. */
  lemma {:induction false} RestStep(list: seq<nat>, a: nat)
    requires Distinct(list) && Rest(list, a) != []
    ensures Rest(list, a)[0] in list && Rest(list, Rest(list, a)[0]) == Rest(list, a)[1..]
  {
    if list[0] == a {
      assert list[1..][0] == list[1] && list[0] != list[1];
      assert Rest(list[1..], list[1]) == list[1..][1..];
    } else {
      RestStep(list[1..], a);
      var b := Rest(list[1..], a)[0];
      assert b in list[1..];
      assert b != list[0];
    }
  }

  lemma RestOfHead(list: seq<nat>)
    requires list != []
    ensures Rest(list, list[0]) == list[1..]
  {
  }

  // ---------------------------------------------------------------- counting

  lemma {:induction false} CountersUpdate(tasks: seq<Task>, t: nat, task: Task, s: nat, n: nat)
    requires t < |tasks| && n <= |tasks|
    ensures Counters(tasks[t := task], s, n) == Counters(tasks, s, n)
              + (if t < n && Counts(task, s) then 1 else 0) - (if t < n && Counts(tasks[t], s) then 1 else 0)
    decreases n
  {
    if n > 0 {
      CountersUpdate(tasks, t, task, s, n - 1);
    }
  }

  lemma {:induction false} CountersPositive(tasks: seq<Task>, t: nat, s: nat, n: nat)
    requires t < n <= |tasks| && Counts(tasks[t], s)
    ensures Counters(tasks, s, n) > 0
    decreases n
  {
    if t < n - 1 {
      CountersPositive(tasks, t, s, n - 1);
    }
  }

  // ----------------------------------------------------------------- task steps

  /** A step of task t that changes no list and no count. */
  lemma TaskStep(st: State, t: nat, task: Task)
    requires Inv(st) && t < |st.tasks| && Linked(task.phase) == Linked(st.tasks[t].phase) && task.max <= |st.socks|
    requires forall s: nat {:trigger Counts(task, s)} :: Counts(task, s) == Counts(st.tasks[t], s)
    requires forall s: nat {:trigger NotLost(SetTask(st, t, task), t, s)} | s < |st.socks| ::
      NotLost(SetTask(st, t, task), t, s)
    ensures Inv(SetTask(st, t, task))
  {
    var st' := SetTask(st, t, task);
    forall s: nat | s < |st.socks| ensures st'.socks[s].waiting == Counters(st'.tasks, s, |st'.tasks|) {
      assert st.socks[s].waiting == Counters(st.tasks, s, |st.tasks|);
      CountersUpdate(st.tasks, t, task, s, |st.tasks|);
      assert Counts(task, s) == Counts(st.tasks[t], s);
    }
    forall k: nat | k < |st'.callbacks| ensures CallbackOk(st', k) {
      assert CallbackOk(st, k);
    }
    forall u: nat, s: nat | u < |st'.tasks| && s < |st'.socks| ensures NotLost(st', u, s) {
      if u != t {
        assert NotLost(st, u, s);
        SameVisits(st, st', u, s);
      }
    }
    forall u: nat ensures u in st'.list <==> u < |st'.tasks| && Linked(st'.tasks[u].phase) {
      assert u in st.list <==> u < |st.tasks| && Linked(st.tasks[u].phase);
    }
  }

  lemma SameVisits(st: State, st': State, t: nat, s: nat)
    requires st'.callbacks == st.callbacks && st'.list == st.list && st'.ctr == st.ctr
    ensures (exists k: nat | k < |st.callbacks| :: WillVisit(st, k, s, t))
      <==> (exists k: nat | k < |st'.callbacks| :: WillVisit(st', k, s, t))
  {
    forall k: nat | k < |st.callbacks| ensures WillVisit(st, k, s, t) <==> WillVisit(st', k, s, t) {
    }
  }

  lemma KeepsBegin(st: State, t: nat, max: nat, rd: set<nat>, wr: set<nat>, ex: set<nat>, limit: Limit)
    requires Inv(st) && Enabled(st, Begin(t, max, rd, wr, ex, limit))
    ensures Inv(Apply(st, Begin(t, max, rd, wr, ex, limit)))
  {
    TaskStep(st, t, Task(Scan1(0), max, rd, wr, ex, false, false, false, limit));
  }

  lemma KeepsNoSemaphore(st: State, t: nat)
    requires Inv(st) && Enabled(st, NoSemaphore(t))
    ensures Inv(Apply(st, NoSemaphore(t)))
  {
    TaskStep(st, t, st.tasks[t].(phase := Idle));
  }

  lemma KeepsLook(st: State, t: nat)
    requires Inv(st) && Enabled(st, Look(t))
    ensures Inv(Apply(st, Look(t)))
  {
    var task := Looked(st, st.tasks[t]);
    var st' := SetTask(st, t, task);
    forall s: nat | s < |st.socks| ensures NotLost(st', t, s) {
      assert NotLost(st, t, s);
      SameVisits(st, st', t, s);
    }
    hide Inv, NotLost;
    assert st.tasks[t].max <= |st.socks| by { MaxInRange(st, t); }
    TaskStep(st, t, task);
  }

  lemma MaxInRange(st: State, t: nat)
    requires Inv(st) && t < |st.tasks|
    ensures st.tasks[t].max <= |st.socks|
  {
  }

  lemma KeepsWake(st: State, t: nat, timedOut: bool)
    requires Inv(st) && t < |st.tasks| && st.tasks[t].phase.Sleep?
    ensures Inv(SetTask(st, t, st.tasks[t].(phase := Dec(0), timedOut := timedOut)))
  {
    MaxInRange(st, t);
    TaskStep(st, t, st.tasks[t].(phase := Dec(0), timedOut := timedOut));
  }

  // ------------------------------------------------------------- list and counts

  /** A step of task t that links or unlinks it: every callback at work will start again. */
  lemma ListStep(st: State, st': State, t: nat)
    requires Inv(st) && t < |st.tasks| == |st'.tasks|
      && st' == st.(tasks := st.tasks[t := st'.tasks[t]], list := st'.list, ctr := st.ctr + 1)
    requires st'.tasks[t].max == st.tasks[t].max && Distinct(st'.list)
    requires forall u: nat {:trigger u in st'.list} :: u in st'.list <==> u < |st'.tasks| && Linked(st'.tasks[u].phase)
    requires forall s: nat {:trigger Counts(st'.tasks[t], s)} :: Counts(st'.tasks[t], s) == Counts(st.tasks[t], s)
    requires !st'.tasks[t].phase.Scan2? && !st'.tasks[t].phase.Sleep?
    ensures Inv(st')
  {
    MaxInRange(st, t);
    forall s: nat | s < |st.socks| ensures st'.socks[s].waiting == Counters(st'.tasks, s, |st'.tasks|) {
      assert st.socks[s].waiting == Counters(st.tasks, s, |st.tasks|);
      CountersUpdate(st.tasks, t, st'.tasks[t], s, |st.tasks|);
      assert Counts(st'.tasks[t], s) == Counts(st.tasks[t], s);
    }
    forall k: nat | k < |st'.callbacks| ensures CallbackOk(st', k) {
      assert CallbackOk(st, k);
    }
    forall u: nat, s: nat | u < |st'.tasks| && s < |st'.socks| ensures NotLost(st', u, s) {
      assert NotLost(st, u, s);
      if u != t && exists k: nat | k < |st.callbacks| :: WillVisit(st, k, s, u) {
        var k: nat :| k < |st.callbacks| && WillVisit(st, k, s, u);
        assert CallbackOk(st, k);
        assert WillVisit(st', k, s, u);
      }
    }
  }

  lemma KeepsLink(st: State, t: nat)
    requires Inv(st) && Enabled(st, Link(t))
    ensures Inv(Apply(st, Link(t)))
  {
    var st' := Apply(st, Link(t));
    assert t !in st.list;
    forall u: nat ensures u in st'.list <==> u < |st'.tasks| && Linked(st'.tasks[u].phase) {
      assert u in st.list <==> u < |st.tasks| && Linked(st.tasks[u].phase);
    }
    hide Inv;
    ListStep(st, st', t);
  }

  lemma KeepsLeave(st: State, t: nat)
    requires Inv(st) && Enabled(st, Leave(t))
    ensures Inv(Apply(st, Leave(t)))
  {
    var st' := Apply(st, Leave(t));
    WithoutMembers(st.list, t);
    WithoutDistinct(st.list, t);
    forall u: nat ensures u in st'.list <==> u < |st'.tasks| && Linked(st'.tasks[u].phase) {
      assert u in st.list <==> u < |st.tasks| && Linked(st.tasks[u].phase);
      assert u in Without(st.list, t) <==> u in st.list && u != t;
    }
    hide Inv;
    ListStep(st, st', t);
  }

  /** A step of task t on select_waiting of socket i. */
  lemma CountStep(st: State, t: nat, task: Task, i: nat, delta: int)
    requires Inv(st) && t < |st.tasks| && i < |st.socks| && Linked(task.phase) && Linked(st.tasks[t].phase)
      && task.max == st.tasks[t].max
    requires forall s: nat {:trigger Counts(task, s)} | s != i :: Counts(task, s) == Counts(st.tasks[t], s)
    requires delta == (if Counts(task, i) then 1 else 0) - (if Counts(st.tasks[t], i) then 1 else 0)
    requires !task.phase.Scan2? && !task.phase.Sleep?
    ensures Inv(SetTask(st, t, task).(socks := st.socks[i := st.socks[i].(waiting := st.socks[i].waiting + delta)]))
  {
    var st' := SetTask(st, t, task).(socks := st.socks[i := st.socks[i].(waiting := st.socks[i].waiting + delta)]);
    MaxInRange(st, t);
    forall s: nat | s < |st.socks| ensures st'.socks[s].waiting == Counters(st'.tasks, s, |st'.tasks|) {
      assert st.socks[s].waiting == Counters(st.tasks, s, |st.tasks|);
      CountersUpdate(st.tasks, t, task, s, |st.tasks|);
      assert s != i ==> Counts(task, s) == Counts(st.tasks[t], s);
    }
    forall k: nat | k < |st'.callbacks| ensures CallbackOk(st', k) {
      assert CallbackOk(st, k);
    }
    forall u: nat, s: nat | u < |st'.tasks| && s < |st'.socks| ensures NotLost(st', u, s) {
      assert NotLost(st, u, s);
      SameVisits(st, st', u, s);
    }
    forall u: nat ensures u in st'.list <==> u < |st'.tasks| && Linked(st'.tasks[u].phase) {
      assert u in st.list <==> u < |st.tasks| && Linked(st.tasks[u].phase);
    }
  }

  lemma KeepsCount(st: State, t: nat)
    requires Inv(st) && Enabled(st, Count(t))
    ensures Inv(Apply(st, Count(t)))
  {
    hide Inv;
    var task := st.tasks[t];
    var i := task.phase.i;
    MaxInRange(st, t);
    if i >= task.max || i >= |st.socks| {
      TaskStep(st, t, task.(phase := Scan2(0), found := false));
    } else if Watches(task, i) {
      CountStep(st, t, task.(phase := Inc(i + 1)), i, 1);
    } else {
      TaskStep(st, t, task.(phase := Inc(i + 1)));
    }
  }

  lemma KeepsUncount(st: State, t: nat)
    requires Inv(st) && Enabled(st, Uncount(t))
    ensures Inv(Apply(st, Uncount(t)))
  {
    hide Inv;
    var task := st.tasks[t];
    var i := task.phase.i;
    MaxInRange(st, t);
    if i >= task.max || i >= |st.socks| {
      TaskStep(st, t, task.(phase := Unlink));
    } else if Watches(task, i) {
      CountStep(st, t, task.(phase := Dec(i + 1)), i, -1);
    } else {
      TaskStep(st, t, task.(phase := Dec(i + 1)));
    }
  }

  // ------------------------------------------------------------- callback steps

  /** NotLost, when callback k is about to go through `ahead` for socket v. */
  ghost predicate NotLostBut(st: State, k: nat, v: nat, ahead: seq<nat>, t: nat, s: nat)
    requires t < |st.tasks| && s < |st.socks|
  {
    Passed(st.tasks[t], s) && !WillNotSleep(st.tasks[t]) && Pending(st.socks[s], st.tasks[t], s) ==>
      || st.tasks[t].signalled || (s == v && t in ahead)
      || exists j: nat | j < |st.callbacks| && j != k :: WillVisit(st, j, s, t)
  }

  ghost predicate InvBut(st: State, k: nat, v: nat, ahead: seq<nat>) {
    && Distinct(st.list)
    && (forall t: nat {:trigger t in st.list} :: t in st.list <==> t < |st.tasks| && Linked(st.tasks[t].phase))
    && (forall t: nat {:trigger st.tasks[t]} | t < |st.tasks| :: st.tasks[t].max <= |st.socks|)
    && (forall s: nat {:trigger st.socks[s]} | s < |st.socks| ::
          st.socks[s].waiting == Counters(st.tasks, s, |st.tasks|))
    && (forall j: nat {:trigger CallbackOk(st, j)} | j < |st.callbacks| && j != k :: CallbackOk(st, j))
    && (forall t: nat, s: nat {:trigger NotLostBut(st, k, v, ahead, t, s)} | t < |st.tasks| && s < |st.socks| ::
          NotLostBut(st, k, v, ahead, t, s))
  }

  /** The callback k has looked at u and will go on with `later`. */
  lemma VisitKeeps(st: State, k: nat, v: nat, ahead: seq<nat>)
    requires k < |st.callbacks| && v < |st.socks| && InvBut(st, k, v, ahead)
    requires ahead != [] ==> ahead[0] in st.list && Rest(st.list, ahead[0]) == ahead[1..]
    ensures Inv(Visit(st, k, v, ahead))
  {
    var st' := Visit(st, k, v, ahead);
    assert ahead != [] ==> ahead[0] < |st.tasks|;
    assert st'.socks == st.socks && st'.list == st.list && st'.ctr == st.ctr && |st'.tasks| == |st.tasks|;
    forall t: nat | t < |st.tasks|
      ensures st'.tasks[t] == st.tasks[t].(signalled := st'.tasks[t].signalled)
        && (st.tasks[t].signalled ==> st'.tasks[t].signalled)
    {
    }
    forall s: nat | s < |st.socks| ensures st'.socks[s].waiting == Counters(st'.tasks, s, |st'.tasks|) {
      assert st.socks[s].waiting == Counters(st.tasks, s, |st.tasks|);
      SignalNotCounted(st.tasks, st'.tasks, s, |st.tasks|);
    }
    forall j: nat | j < |st'.callbacks| ensures CallbackOk(st', j) {
      assert j != k ==> CallbackOk(st, j);
    }
    forall t: nat, s: nat | t < |st'.tasks| && s < |st'.socks| ensures NotLost(st', t, s) {
      assert NotLostBut(st, k, v, ahead, t, s);
      VisitVisits(st, st', k, v, ahead, t, s);
    }
    forall t: nat ensures t in st'.list <==> t < |st'.tasks| && Linked(st'.tasks[t].phase) {
      assert t in st.list <==> t < |st.tasks| && Linked(st.tasks[t].phase);
    }
  }

  lemma VisitVisits(st: State, st': State, k: nat, v: nat, ahead: seq<nat>, t: nat, s: nat)
    requires k < |st.callbacks| && v < |st.socks| && t < |st.tasks| && s < |st.socks| && st' == Visit(st, k, v, ahead)
      && |st'.tasks| == |st.tasks|
    requires ahead != [] ==> ahead[0] < |st.tasks| && Rest(st.list, ahead[0]) == ahead[1..]
    requires NotLostBut(st, k, v, ahead, t, s)
    requires st'.tasks[t] == st.tasks[t].(signalled := st'.tasks[t].signalled)
      && (st.tasks[t].signalled ==> st'.tasks[t].signalled)
    ensures NotLost(st', t, s)
  {
    if Passed(st.tasks[t], s) && !WillNotSleep(st.tasks[t]) && Pending(st.socks[s], st.tasks[t], s)
      && !st'.tasks[t].signalled {
      if s == v && t in ahead {
        assert t != ahead[0];
        assert t in ahead[1..];
        assert WillVisit(st', k, s, t);
      } else {
        var j: nat :| j < |st.callbacks| && j != k && WillVisit(st, j, s, t);
        assert WillVisit(st', j, s, t);
      }
    }
  }

  lemma {:induction false} SignalNotCounted(tasks: seq<Task>, tasks': seq<Task>, s: nat, n: nat)
    requires n <= |tasks| == |tasks'|
    requires forall t: nat | t < |tasks| :: tasks'[t] == tasks[t].(signalled := tasks'[t].signalled)
    ensures Counters(tasks', s, n) == Counters(tasks, s, n)
    decreases n
  {
    if n > 0 {
      SignalNotCounted(tasks, tasks', s, n - 1);
      assert Counts(tasks'[n - 1], s) == Counts(tasks[n - 1], s);
    }
  }

  lemma KeepsContinue(st: State, k: nat)
    requires Inv(st) && Enabled(st, Continue(k))
    ensures Inv(Apply(st, Continue(k)))
  {
    var cb := st.callbacks[k];
    var ahead := if cb.seen != st.ctr then st.list else Rest(st.list, cb.scb);
    forall t: nat, s: nat | t < |st.tasks| && s < |st.socks| ensures NotLostBut(st, k, cb.s, ahead, t, s) {
      assert NotLost(st, t, s);
      if Passed(st.tasks[t], s) {
        assert t in st.list;
        if exists j: nat | j < |st.callbacks| :: WillVisit(st, j, s, t) {
          var j: nat :| j < |st.callbacks| && WillVisit(st, j, s, t);
          assert j == k ==> s == cb.s && t in ahead;
        }
      }
    }
    assert InvBut(st, k, cb.s, ahead);
    if cb.seen == st.ctr {
      if ahead != [] { RestStep(st.list, cb.scb); }
    } else if ahead != [] {
      RestOfHead(st.list);
    }
    hide Inv, InvBut;
    VisitKeeps(st, k, cb.s, ahead);
  }

  lemma KeepsReport(st: State, k: nat, v: nat, evt: Event)
    requires Inv(st) && Enabled(st, Report(k, v, evt))
    ensures Inv(Apply(st, Report(k, v, evt)))
  {
    var st1 := st.(socks := st.socks[v := Changed(st.socks[v], evt)]);
    assert forall s: nat | s < |st.socks| :: st1.socks[s].waiting == st.socks[s].waiting;
    forall s: nat | s < |st.socks| ensures st1.socks[s].waiting == Counters(st1.tasks, s, |st1.tasks|) {
      assert st.socks[s].waiting == Counters(st.tasks, s, |st.tasks|);
    }
    forall j: nat | j < |st.callbacks| ensures CallbackOk(st1, j) {
      assert CallbackOk(st, j);
    }
    forall t: nat, s: nat | t < |st.tasks| && s < |st.socks|
      ensures (s != v || !Passed(st.tasks[t], s) || WillNotSleep(st.tasks[t]) || !Pending(st1.socks[s], st.tasks[t],
          s)) ==> NotLost(st1, t, s)
      ensures NotLostBut(st1, k, v, st.list, t, s)
    {
      assert NotLost(st, t, s) && (t in st.list || t !in st.list);
      SameVisits(st, st1, t, s);
      if exists j: nat | j < |st.callbacks| :: WillVisit(st, j, s, t) {
        var j: nat :| j < |st.callbacks| && WillVisit(st, j, s, t);
        assert WillVisit(st1, j, s, t);
      }
    }
    if st.socks[v].waiting == 0 {
      forall t: nat, s: nat | t < |st.tasks| && s < |st.socks| ensures NotLost(st1, t, s) {
        if s == v && Passed(st.tasks[t], s) && Pending(st1.socks[s], st.tasks[t], s) {
          CountersPositive(st.tasks, t, s, |st.tasks|);
        }
      }
    } else {
      assert InvBut(st1, k, v, st.list);
      if st.list != [] { RestOfHead(st.list); }
      hide Inv, InvBut;
      VisitKeeps(st1, k, v, st.list);
    }
  }

  lemma KeepsReceive(st: State, v: nat, lastdata: bool)
    requires Inv(st) && v < |st.socks|
    ensures Inv(st.(socks := st.socks[v := st.socks[v].(lastdata := lastdata)]))
  {
    var st' := st.(socks := st.socks[v := st.socks[v].(lastdata := lastdata)]);
    forall s: nat | s < |st.socks| ensures st'.socks[s].waiting == Counters(st'.tasks, s, |st'.tasks|) {
      assert st.socks[s].waiting == Counters(st.tasks, s, |st.tasks|);
    }
    forall j: nat | j < |st.callbacks| ensures CallbackOk(st', j) {
      assert CallbackOk(st, j);
    }
    forall t: nat, s: nat | t < |st.tasks| && s < |st.socks| ensures NotLost(st', t, s) {
      assert NotLost(st, t, s);
      SameVisits(st, st', t, s);
    }
  }

  // ----------------------------------------------------------------------- runs

  lemma StepKeeps(st: State, step: Step)
    requires Inv(st) && Enabled(st, step)
    ensures Inv(Apply(st, step))
  {
    hide Inv;
    match step
    case Begin(t, max, rd, wr, ex, limit) => KeepsBegin(st, t, max, rd, wr, ex, limit);
    case NoSemaphore(t) => KeepsNoSemaphore(st, t);
    case Look(t) => KeepsLook(st, t);
    case Link(t) => KeepsLink(st, t);
    case Count(t) => KeepsCount(st, t);
    case Wake(t) => KeepsWake(st, t, st.tasks[t].timedOut);
    case TimeOut(t) => KeepsWake(st, t, true);
    case Uncount(t) => KeepsUncount(st, t);
    case Leave(t) => KeepsLeave(st, t);
    case Report(k, s, evt) => KeepsReport(st, k, s, evt);
    case Continue(k) => KeepsContinue(st, k);
    case Receive(s, lastdata) => KeepsReceive(st, s, lastdata);
  }

  /** Nobody selects yet, whatever the sockets have. */
  ghost predicate Start(st: State) {
    && st.list == []
    && (forall t: nat {:trigger st.tasks[t]} | t < |st.tasks| ::
          st.tasks[t].phase.Idle? && st.tasks[t].max <= |st.socks|)
    && (forall s: nat {:trigger st.socks[s]} | s < |st.socks| :: st.socks[s].waiting == 0)
    && (forall k: nat {:trigger st.callbacks[k]} | k < |st.callbacks| :: st.callbacks[k].Off?)
  }

  predicate CanRun(st: State, steps: seq<Step>)
    decreases |steps|
  {
    steps == [] || (Enabled(st, steps[0]) && CanRun(Apply(st, steps[0]), steps[1..]))
  }

  function After(st: State, steps: seq<Step>): State
    requires CanRun(st, steps)
    decreases |steps|
  {
    if steps == [] then st else After(Apply(st, steps[0]), steps[1..])
  }

  lemma {:induction false} IdleCountNothing(tasks: seq<Task>, s: nat, n: nat)
    requires n <= |tasks| && forall t: nat | t < |tasks| :: tasks[t].phase.Idle?
    ensures Counters(tasks, s, n) == 0
    decreases n
  {
    if n > 0 {
      IdleCountNothing(tasks, s, n - 1);
    }
  }

  lemma {:induction false} RunKeeps(st: State, steps: seq<Step>)
    requires Inv(st) && CanRun(st, steps)
    ensures Inv(After(st, steps))
    decreases |steps|
  {
    hide Inv, Apply, Enabled;
    if steps != [] {
      StepKeeps(st, steps[0]);
      RunKeeps(Apply(st, steps[0]), steps[1..]);
    }
  }

  lemma ReachableIsInv(st: State, steps: seq<Step>)
    requires Start(st) && CanRun(st, steps)
    ensures Inv(After(st, steps))
  {
    forall s: nat | s < |st.socks| ensures st.socks[s].waiting == Counters(st.tasks, s, |st.tasks|) {
      IdleCountNothing(st.tasks, s, |st.tasks|);
    }
    assert Inv(st);
    RunKeeps(st, steps);
  }

  /** No lost wake-up: in every reachable state, if a task sleeps in lwip_select, a socket
      it watches has an event for it, and no callback is at work on that socket, then its
      semaphore has been signalled. */
  lemma NoLostWakeUp(st: State, steps: seq<Step>, t: nat, s: nat)
    requires Start(st) && CanRun(st, steps)
    requires var now := After(st, steps);
      && t < |now.tasks| && now.tasks[t].phase.Sleep? && s < now.tasks[t].max && s < |now.socks|
      && Pending(now.socks[s], now.tasks[t], s)
      && forall k | 0 <= k < |now.callbacks| && now.callbacks[k].At? :: now.callbacks[k].s != s
    ensures After(st, steps).tasks[t].signalled
  {
    ReachableIsInv(st, steps);
    assert NotLost(After(st, steps), t, s);
  }

  /** A task that may not wait is never on the list; one that waits for ever is not told of
      a timeout. */
  predicate LimitKept(t: Task) {
    (t.limit.AtOnce? ==> t.phase.Idle? || t.phase.Scan1?) && (t.limit.Forever? && !t.phase.Idle? ==> !t.timedOut)
  }

  ghost predicate LimitsKept(st: State) {
    forall t {:trigger st.tasks[t]} | 0 <= t < |st.tasks| :: LimitKept(st.tasks[t])
  }

  lemma StepKeepsLimits(st: State, step: Step)
    requires LimitsKept(st) && Enabled(st, step)
    ensures LimitsKept(Apply(st, step))
  {
    hide Ready, Pending, Watches, Rest;
  }

  lemma {:induction false} RunKeepsLimits(st: State, steps: seq<Step>)
    requires LimitsKept(st) && CanRun(st, steps)
    ensures LimitsKept(After(st, steps))
    decreases |steps|
  {
    hide LimitsKept, Apply, Enabled;
    if steps != [] {
      StepKeepsLimits(st, steps[0]);
      RunKeepsLimits(Apply(st, steps[0]), steps[1..]);
    }
  }

  /** In every reachable state, a select with a timeout of zero has not been put on the list
      and does not sleep, and one without a timeout has not timed out. */
  lemma LimitsHold(st: State, steps: seq<Step>, t: nat)
    requires Start(st) && CanRun(st, steps) && t < |After(st, steps).tasks|
    ensures LimitKept(After(st, steps).tasks[t])
    ensures After(st, steps).tasks[t].limit.AtOnce? ==> t !in After(st, steps).list
  {
    RunKeepsLimits(st, steps);
    ReachableIsInv(st, steps);
    assert t in After(st, steps).list ==> Linked(After(st, steps).tasks[t].phase);
  }

  /** Only events wake: when another task's recv leaves data over, a task that was asleep
      already stays asleep, although lwip_selscan would count the socket as ready. */
  lemma LeftoverDoesNotWake()
    ensures exists st: State, steps: seq<Step> ::
      && Start(st) && CanRun(st, steps)
      && (forall k | 0 <= k < |After(st, steps).callbacks| :: After(st, steps).callbacks[k].Off?)
      && |After(st, steps).tasks| == 1 == |After(st, steps).socks| && After(st, steps).tasks[0].phase.Sleep?
      && Ready(After(st, steps).socks[0], After(st, steps).tasks[0], 0) && !After(st, steps).tasks[0].signalled
  {
    var nap := [Count(0), Count(0), Look(0), Look(0), Receive(0, true)];
    var all := [Begin(0, 1, {0}, {}, {}, Forever), Look(0), Look(0), Link(0)] + nap;
    GoToList();
    hide CanRun, After;
    var end := After(Lone(Idle, [], 0, 0, false), all);
    assert end == Lone(Sleep, [0], 1, 1, true);
  }

  /** One task watching one quiet socket. */
  function Lone(phase: Phase, list: seq<nat>, ctr: nat, waiting: int, lastdata: bool): State {
    State([Sock(0, false, false, waiting, lastdata)], [Task(phase, 1, {0}, {}, {}, false, false, false, Forever)], list,
          ctr, [])
  }

  lemma FallAsleep()
    ensures
      var nap := [Count(0), Count(0), Look(0), Look(0), Receive(0, true)];
      CanRun(Lone(Inc(0), [0], 1, 0, false), nap)
        && After(Lone(Inc(0), [0], 1, 0, false), nap) == Lone(Sleep, [0], 1, 1, true)
  {
    Prepend(Lone(Sleep, [0], 1, 1, true), [], Lone(Sleep, [0], 1, 1, false), Receive(0, true));
    Prepend(Lone(Sleep, [0], 1, 1, false), [Receive(0, true)], Lone(Scan2(1), [0], 1, 1, false), Look(0));
    Prepend(Lone(Scan2(1), [0], 1, 1, false), [Look(0), Receive(0, true)], Lone(Scan2(0), [0], 1, 1, false), Look(0));
    Prepend(Lone(Scan2(0), [0], 1, 1, false), [Look(0), Look(0), Receive(0, true)], Lone(Inc(1), [0], 1, 1, false),
            Count(0));
    Prepend(Lone(Inc(1), [0], 1, 1, false), [Count(0), Look(0), Look(0), Receive(0, true)],
            Lone(Inc(0), [0], 1, 0, false), Count(0));
  }

  lemma GoToList()
    ensures
      var nap := [Count(0), Count(0), Look(0), Look(0), Receive(0, true)];
      var all := [Begin(0, 1, {0}, {}, {}, Forever), Look(0), Look(0), Link(0)] + nap;
      CanRun(Lone(Idle, [], 0, 0, false), all)
        && After(Lone(Idle, [], 0, 0, false), all) == Lone(Sleep, [0], 1, 1, true)
  {
    hide CanRun, After;
    var nap := [Count(0), Count(0), Look(0), Look(0), Receive(0, true)];
    FallAsleep();
    Prepend(Lone(Inc(0), [0], 1, 0, false), nap, Lone(Push, [], 0, 0, false), Link(0));
    Prepend(Lone(Push, [], 0, 0, false), [Link(0)] + nap, Lone(Scan1(1), [], 0, 0, false), Look(0));
    Prepend(Lone(Scan1(1), [], 0, 0, false), [Look(0)] + ([Link(0)] + nap), Lone(Scan1(0), [], 0, 0, false), Look(0));
    Prepend(Lone(Scan1(0), [], 0, 0, false), [Look(0)] + ([Look(0)] + ([Link(0)] + nap)), Lone(Idle, [], 0, 0, false),
            Begin(0, 1, {0}, {}, {}, Forever));
    assert [Begin(0, 1, {0}, {}, {}, Forever), Look(0), Look(0), Link(0)] + nap
        == [Begin(0, 1, {0}, {}, {}, Forever)] + ([Look(0)] + ([Look(0)] + ([Link(0)] + nap)));
  }

  lemma Prepend(next: State, steps: seq<Step>, st: State, step: Step)
    requires Enabled(st, step) && next == Apply(st, step) && CanRun(next, steps)
    ensures CanRun(st, [step] + steps) && After(st, [step] + steps) == After(next, steps)
  {
    assert ([step] + steps)[1..] == steps;
  }

  /** The change counter works: in every reachable state, the select_cb whose next pointer a
      callback is about to follow belongs to a task that is still on the list. */
  lemma OnlyLinkedTouched(st: State, steps: seq<Step>, k: nat)
    requires Start(st) && CanRun(st, steps)
    requires
      var now := After(st, steps);
      k < |now.callbacks| && now.callbacks[k].At? && now.callbacks[k].seen == now.ctr
    ensures
      var now := After(st, steps);
      && now.callbacks[k].scb in now.list && now.callbacks[k].scb < |now.tasks|
      && Linked(now.tasks[now.callbacks[k].scb].phase)
  {
    ReachableIsInv(st, steps);
    assert CallbackOk(After(st, steps), k);
  }

  /** select_waiting is the number of tasks that count the socket, so it is never negative
      and is positive while a task sleeps on the socket. */
  lemma WaitingIsCount(st: State, steps: seq<Step>, t: nat, s: nat)
    requires Start(st) && CanRun(st, steps) && t < |After(st, steps).tasks| && s < |After(st, steps).socks|
    ensures After(st, steps).socks[s].waiting == Counters(After(st, steps).tasks, s, |After(st, steps).tasks|) >= 0
    ensures Counts(After(st, steps).tasks[t], s) ==> After(st, steps).socks[s].waiting > 0
  {
    ReachableIsInv(st, steps);
    var now := After(st, steps);
    assert now.socks[s].waiting == Counters(now.tasks, s, |now.tasks|);
    if Counts(now.tasks[t], s) {
      CountersPositive(now.tasks, t, s, |now.tasks|);
    }
  }

  // ------------------------------------------------- the list, pointer by pointer

  const NULL: int := -1

  function Succ(list: seq<nat>, i: int): int
    requires 0 <= i < |list|
  {
    if i + 1 < |list| then list[i + 1] else NULL
  }

  function Pred(list: seq<nat>, i: int): int
    requires 0 <= i < |list|
  {
    if i > 0 then list[i - 1] else NULL
  }

  function Head(list: seq<nat>): int { if list == [] then NULL else list[0] }

  /** The pointers of the i-th entry are those of the list. */
  ghost predicate NodeAt(next: seq<int>, prev: seq<int>, list: seq<nat>, i: int)
    requires 0 <= i < |list|
  {
    list[i] < |next| && list[i] < |prev| && next[list[i]] == Succ(list, i) && prev[list[i]] == Pred(list, i)
  }

  /** The pointers spell the list, forwards and backwards. */
  ghost predicate Spells(next: seq<int>, prev: seq<int>, list: seq<nat>) {
    && Distinct(list)
    && forall i {:trigger NodeAt(next, prev, list, i)} | 0 <= i < |list| :: NodeAt(next, prev, list, i)
  }

  lemma LinkSpells(next: seq<int>, prev: seq<int>, list: seq<nat>, t: nat)
    requires Spells(next, prev, list) && t < |next| == |prev| && t !in list
    ensures Head(list) != NULL ==> 0 <= Head(list) < |prev|
    ensures
      var prev1 := prev[t := NULL];
      Spells(next[t := Head(list)], if Head(list) == NULL then prev1 else prev1[Head(list) := t], [t] + list)
  {
    assert list != [] ==> NodeAt(next, prev, list, 0);
    var next', list' := next[t := Head(list)], [t] + list;
    var prev' := if Head(list) == NULL then prev[t := NULL] else prev[t := NULL][Head(list) := t];
    forall i | 0 <= i < |list'| ensures NodeAt(next', prev', list', i) {
      if i > 0 {
        assert NodeAt(next, prev, list, i - 1);
        assert list'[i] == list[i - 1] && list[i - 1] in list;
        assert i > 1 ==> list[i - 1] != list[0];
      }
    }
  }

  lemma UnlinkSpells(next: seq<int>, prev: seq<int>, list: seq<nat>, p: nat, next': seq<int>, prev': seq<int>)
    requires Spells(next, prev, list) && |next| == |prev| && p < |list|
    requires |prev'| == |prev|
      && forall x | 0 <= x < |prev| :: prev'[x] == if x == Succ(list, p) then Pred(list, p) else prev[x]
    requires |next'| == |next|
      && forall x | 0 <= x < |next| :: next'[x] == if x == Pred(list, p) then Succ(list, p) else next[x]
    ensures Spells(next', prev', list[..p] + list[p + 1..])
  {
    var list' := list[..p] + list[p + 1..];
    forall i | 0 <= i < |list'| ensures NodeAt(next', prev', list', i) {
      var j := if i < p then i else i + 1;
      assert list'[i] == list[j] && NodeAt(next, prev, list, j);
      assert p + 1 < |list| && j != p + 1 ==> list[j] != list[p + 1];
      assert p > 0 && j != p - 1 ==> list[j] != list[p - 1];
      assert i + 1 < |list'| ==> list'[i + 1] == list[if i + 1 < p then i + 1 else i + 2];
      assert i > 0 ==> list'[i - 1] == list[if i - 1 < p then i - 1 else i];
    }
  }

  /** select_cb_list with the next and prev pointers of every task's select_cb. */
  class SelectList {
    const next: array<int>
    const prev: array<int>
    var head: int
    ghost var list: seq<nat>

    constructor (tasks: nat)
      ensures Valid() && next.Length == tasks && list == [] && fresh(next) && fresh(prev)
    {
      next, prev, head, list := new int[tasks], new int[tasks], NULL, [];
    }

    ghost predicate Valid()
      reads this, next, prev
    {
      next != prev && next.Length == prev.Length && head == Head(list) && Spells(next[..], prev[..], list)
    }

    /** On top of the list. */
    method Link(t: nat)
      requires Valid() && t < next.Length && t !in list
      modifies this, next, prev
      ensures Valid() && list == [t] + old(list)
    {
      hide Spells;
      LinkSpells(next[..], prev[..], list, t);
      prev[t] := NULL;
      next[t] := head;
      if head != NULL {
        prev[head] := t;
      }
      head := t;
      list := [t] + list;
    }

    /** Off the list, wherever it is. */
    method Unlink(t: nat)
      requires Valid() && t in list
      modifies this, next, prev
      ensures Valid() && list == Without(old(list), t)
    {
      ghost var p: nat :| p < |list| && list[p] == t;
      ghost var next0, prev0 := next[..], prev[..];
      InRange(next0, prev0, list, p);
      WithoutAt(list, p);
      hide Spells, NodeAt, Without;
      if next[t] != NULL {
        prev[next[t]] := prev[t];
      }
      if head == t {
        head := next[t];
      } else {
        next[prev[t]] := next[t];
      }
      UnlinkSpells(next0, prev0, list, p, next[..], prev[..]);
      list := list[..p] + list[p + 1..];
    }
  }

  lemma InRange(next: seq<int>, prev: seq<int>, list: seq<nat>, p: nat)
    requires Spells(next, prev, list) && |next| == |prev| && p < |list|
    ensures list[p] < |next| && next[list[p]] == Succ(list, p) && prev[list[p]] == Pred(list, p)
    ensures NULL <= Succ(list, p) < |next| && NULL <= Pred(list, p) < |next| && (p > 0 <==> Head(list) != list[p])
    ensures Succ(list, p) != list[p] && Pred(list, p) != list[p]
  {
    assert NodeAt(next, prev, list, p);
    assert p + 1 < |list| ==> NodeAt(next, prev, list, p + 1);
    assert p > 0 ==> NodeAt(next, prev, list, p - 1) && list[0] != list[p];
  }

  /** The entry after the i-th is what a callback finds by following its next pointer. */
  lemma {:induction false} NextIsRest(list: seq<nat>, i: nat)
    requires Distinct(list) && i < |list|
    ensures Rest(list, list[i]) == list[i + 1..] && Succ(list, i) == Head(Rest(list, list[i]))
  {
    if i > 0 {
      NextIsRest(list[1..], i - 1);
      assert list[0] != list[i] && list[1..][i - 1] == list[i] && list[1..][i..] == list[i + 1..];
    }
  }
}
