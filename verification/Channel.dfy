/** The channels between a driver and its clients (lib/channel.c) as a step system: one
    step is one load or store of the driver or of a client, in any interleaving. */
module Channel {
  import opened Memcpy
  import opened Prelude

  const MAX_CHANNELS: nat := 32
  const ROOM: nat := 4088   // bytes of data in a channel page

  datatype Reply = Reply(result: int, data: seq<Byte>)

  /** Where the client of a channel is in filling it, cnl_send, cnl_receive and reading. */
  datatype Client =
    | Free
    | Fill(req: seq<Byte>, k: nat)
    | ClearReply(req: seq<Byte>)
    | SetSend(req: seq<Byte>)
    | Wait
    | ReadResult
    | ReadData(result: int, buf: seq<Byte>)

  /** Where the driver is: looking for a request in cnl_receive_any, or with channel a. */
  datatype Driver =
    | Look
    | Found(a: nat)
    | ReadReq(a: nat, buf: seq<Byte>)
    | Work(a: nat)
    | FillReply(a: nat, reply: Reply, k: nat)
    | StoreResult(a: nat, reply: Reply)
    | SetReply(a: nat, reply: Reply)

  /** A channel, its client and the history of what went over it: requests sent, requests
      as the driver read them, replies given and replies as the client read them. */
  datatype Chan = Chan(readySend: bool, readyReply: bool, result: int, data: seq<Byte>, client: Client,
                       sent: seq<seq<Byte>>, taken: seq<seq<Byte>>, answered: seq<Reply>, got: seq<Reply>)

  /** The driver, its static index and its channels; since[a] is history: the channels
      served since the request in channel a became pending. */
  datatype State = State(driver: Driver, i: nat, chans: seq<Chan>, since: seq<set<nat>>)

  datatype Step =
    | Begin(a: nat, req: seq<Byte>) | StoreByte(a: nat) | StoreNoReply(a: nat) | StoreSend(a: nat)
    | SeeReply(a: nat) | LoadResult(a: nat) | LoadByte(a: nat) | End(a: nat)
    | LookNext | Take | LoadReqByte | Accept | BeginReply(reply: Reply) | StoreReplyByte | PutResult | PutReply

  predicate Enabled(st: State, step: Step) {
    match step
    case Begin(a, req) => a < |st.chans| && st.chans[a].client.Free? && |req| <= ROOM
    case StoreByte(a) => a < |st.chans| && st.chans[a].client.Fill?
    case StoreNoReply(a) => a < |st.chans| && st.chans[a].client.ClearReply?
    case StoreSend(a) => a < |st.chans| && st.chans[a].client.SetSend?
    case SeeReply(a) => a < |st.chans| && st.chans[a].client.Wait? && st.chans[a].readyReply
    case LoadResult(a) => a < |st.chans| && st.chans[a].client.ReadResult?
    case LoadByte(a) => a < |st.chans| && st.chans[a].client.ReadData? && |st.chans[a].client.buf| < ROOM
    case End(a) => a < |st.chans| && st.chans[a].client.ReadData? && |st.chans[a].client.buf| == ROOM
    case LookNext => st.driver.Look?
    case Take => st.driver.Found? && st.driver.a < |st.chans|
    case LoadReqByte => st.driver.ReadReq? && st.driver.a < |st.chans| && |st.driver.buf| < ROOM
    case Accept => st.driver.ReadReq? && st.driver.a < |st.chans| && |st.driver.buf| == ROOM
    case BeginReply(reply) => st.driver.Work? && |reply.data| <= ROOM
    case StoreReplyByte => st.driver.FillReply? && st.driver.a < |st.chans|
    case PutResult => st.driver.StoreResult? && st.driver.a < |st.chans|
    case PutReply => st.driver.SetReply? && st.driver.a < |st.chans|
  }

  function SetChan(st: State, a: nat, ch: Chan): State
    requires a < |st.chans|
  {
    st.(chans := st.chans[a := ch])
  }

  function Filled(ch: Chan, req: seq<Byte>, k: nat): Chan {
    if k < |req| then ch.(data := StoreAt(ch.data, k, req[k]), client := Fill(req, k + 1))
    else ch.(client := ClearReply(req))
  }

  /** One turn of the loop in cnl_receive_any; past the last channel the index starts again. */
  function Looked(st: State): State {
    if st.i >= |st.chans| then st.(i := 0)
    else if st.chans[st.i].readySend then st.(driver := Found(st.i))
    else st.(i := st.i + 1)
  }

  /** Channel a is served: its request is no longer pending, all others have waited once more. */
  function Taken(st: State, a: nat): State
    requires a < |st.chans|
  {
    State(ReadReq(a, []), a + 1, st.chans[a := st.chans[a].(readySend := false)],
          seq(|st.since|, b requires 0 <= b < |st.since| => st.since[b] + {a}))
  }

  function ReplyFilled(st: State, a: nat, reply: Reply, k: nat): State
    requires a < |st.chans|
  {
    if k < |reply.data| then
      SetChan(st, a, st.chans[a].(data := StoreAt(st.chans[a].data, k, reply.data[k]))).(driver := FillReply(a, reply,
          k + 1))
    else st.(driver := StoreResult(a, reply))
  }

  function Apply(st: State, step: Step): State
    requires Enabled(st, step)
  {
    match step
    case Begin(a, req) => SetChan(st, a, st.chans[a].(client := Fill(req, 0)))
    case StoreByte(a) => SetChan(st, a, Filled(st.chans[a], st.chans[a].client.req, st.chans[a].client.k))
    case StoreNoReply(a) => SetChan(st, a, st.chans[a].(readyReply := false, client := SetSend(st.chans[a].client.req)))
    case StoreSend(a) =>
      SetChan(st, a, st.chans[a].(readySend := true, client := Wait,
                                  sent := st.chans[a].sent + [st.chans[a].client.req]))
        .(since := if a < |st.since| then st.since[a := {}] else st.since)
    case SeeReply(a) => SetChan(st, a, st.chans[a].(readyReply := false, client := ReadResult))
    case LoadResult(a) => SetChan(st, a, st.chans[a].(client := ReadData(st.chans[a].result, [])))
    case LoadByte(a) =>
      SetChan(st, a, st.chans[a].(client := ReadData(st.chans[a].client.result,
                                                     st.chans[a].client.buf + [LoadAt(st.chans[a].data,
                                                         |st.chans[a].client.buf|)])))
    case End(a) =>
      SetChan(st, a, st.chans[a].(client := Free,
                                  got := st.chans[a].got + [Reply(st.chans[a].client.result, st.chans[a].client.buf)]))
    case LookNext => Looked(st)
    case Take => Taken(st, st.driver.a)
    case LoadReqByte =>
      st.(driver := ReadReq(st.driver.a, st.driver.buf + [LoadAt(st.chans[st.driver.a].data, |st.driver.buf|)]))
    case Accept =>
      SetChan(st, st.driver.a, st.chans[st.driver.a].(taken := st.chans[st.driver.a].taken + [st.driver.buf]))
        .(driver := Work(st.driver.a))
    case BeginReply(reply) => st.(driver := FillReply(st.driver.a, reply, 0))
    case StoreReplyByte => ReplyFilled(st, st.driver.a, st.driver.reply, st.driver.k)
    case PutResult =>
      SetChan(st, st.driver.a,
              st.chans[st.driver.a].(result := st.driver.reply.result)).(driver := SetReply(st.driver.a,
                  st.driver.reply))
    case PutReply =>
      SetChan(st, st.driver.a,
              st.chans[st.driver.a].(readyReply := true,
                                     answered := st.chans[st.driver.a].answered + [st.driver.reply]))
        .(driver := Look)
  }

  // ------------------------------------------------------------------ invariant

  /** The driver has taken the request of channel a and not answered it. */
  predicate Serving(d: Driver, a: nat) { !d.Look? && !d.Found? && d.a == a }

  /** One request is open and has been read t times and answered r times. */
  predicate Open(ch: Chan, t: nat, r: nat) {
    |ch.sent| == |ch.got| + 1 && |ch.taken| == |ch.got| + t && |ch.answered| == |ch.got| + r
  }

  predicate Settled(ch: Chan) { |ch.got| == |ch.answered| == |ch.taken| == |ch.sent| }

  /** What was read is what was written, as far as it goes. */
  predicate Shows(reply: Reply, seen: Reply) { seen.result == reply.result && reply.data <= seen.data }

  ghost predicate LogsAgree(ch: Chan) {
    && |ch.got| <= |ch.answered| <= |ch.taken| <= |ch.sent|
    && (forall k | 0 <= k < |ch.taken| :: ch.sent[k] <= ch.taken[k])
    && (forall k | 0 <= k < |ch.got| :: Shows(ch.answered[k], ch.got[k]))
  }

  predicate Answered(ch: Chan) {
    Open(ch, 1, 1) && |ch.answered| > 0 && Shows(ch.answered[|ch.answered| - 1], Reply(ch.result, ch.data))
  }

  ghost predicate ServeOk(ch: Chan, d: Driver) {
    match d
    case ReadReq(_, buf) => Open(ch, 0, 0) && ch.sent[|ch.sent| - 1] <= ch.data && buf <= ch.data
    case Work(_) => Open(ch, 1, 0)
    case FillReply(_, reply, k) => Open(ch, 1, 0) && k <= |reply.data| <= ROOM && reply.data[..k] <= ch.data
    case StoreResult(_, reply) => Open(ch, 1, 0) && reply.data <= ch.data
    case SetReply(_, reply) => Open(ch, 1, 0) && Shows(reply, Reply(ch.result, ch.data))
    case _ => false
  }

  /** The flags of a channel follow its client and the driver: while a client waits its
      request is pending, with the driver, or answered. */
  ghost predicate ChanOk(ch: Chan, a: nat, d: Driver) {
    && |ch.data| == ROOM && LogsAgree(ch)
    && (d == Found(a) ==> ch.readySend)
    && if ch.client.Wait? then
         (if ch.readySend then !ch.readyReply && !Serving(d, a) && Open(ch, 0, 0) && ch.sent[|ch.sent| - 1] <= ch.data
          else if Serving(d, a) then !ch.readyReply && ServeOk(ch, d)
          else ch.readyReply && Answered(ch))
       else
         && !ch.readySend && !ch.readyReply && !Serving(d, a)
         && match ch.client
            case Fill(req, k) => Settled(ch) && k <= |req| <= ROOM && req[..k] <= ch.data
            case ClearReply(req) => Settled(ch) && req <= ch.data
            case SetSend(req) => Settled(ch) && req <= ch.data
            case ReadResult => Answered(ch)
            case ReadData(result, buf) => Answered(ch) && result == ch.result && buf <= ch.data
            case _ => Settled(ch)
  }

  /** How many turns of the loop away the index is from channel x of n. */
  function Turns(i: nat, x: nat, n: nat): int { if x >= i then x - i else x + n - i }

  /** Whoever was served since channel a became pending comes after a. */
  ghost predicate FairTo(st: State, a: nat)
    requires a < |st.chans| == |st.since|
  {
    st.chans[a].readySend ==>
      forall b | b in st.since[a] :: b != a && b < |st.chans| && Turns(st.i, a, |st.chans|) < Turns(st.i, b, |st.chans|)
  }

  ghost predicate Inv(st: State) {
    && |st.chans| == |st.since| <= MAX_CHANNELS && st.i <= |st.chans|
    && (st.driver.Found? ==> st.driver.a == st.i)
    && (!st.driver.Look? ==> st.driver.a < |st.chans|)
    && (forall a: nat {:trigger ChanOk(st.chans[a], a, st.driver)} | a < |st.chans| ::
          ChanOk(st.chans[a], a, st.driver))
    && (forall a: nat {:trigger FairTo(st, a)} | a < |st.chans| :: FairTo(st, a))
  }

  /** A step on channel a, by its client or by the driver working for it, that leaves the
      pending flag and the index alone. */
  lemma StepOn(st: State, a: nat, ch: Chan, d: Driver)
    requires Inv(st) && a < |st.chans| && ChanOk(ch, a, d) && ch.readySend == st.chans[a].readySend
    requires d == st.driver || (Serving(st.driver, a) && (d.Look? || Serving(d, a)))
    ensures Inv(SetChan(st, a, ch).(driver := d))
  {
    var st' := SetChan(st, a, ch).(driver := d);
    forall b: nat | b < |st.chans| ensures ChanOk(st'.chans[b], b, d) && FairTo(st', b) {
      assert ChanOk(st.chans[b], b, st.driver) && FairTo(st, b);
    }
  }

  lemma KeepsClient(st: State, a: nat, step: Step)
    requires Inv(st) && Enabled(st, step)
    requires step == StoreNoReply(a) || step == SeeReply(a) || step == LoadResult(a) || step == End(a)
      || (step.Begin? && step.a == a)
    ensures Inv(Apply(st, step))
  {
    var st' := Apply(st, step);
    assert ChanOk(st.chans[a], a, st.driver);
    assert step == End(a) ==> st.chans[a].client.buf == st.chans[a].data;
    assert ChanOk(st'.chans[a], a, st.driver);
    hide ChanOk, Inv;
    StepOn(st, a, st'.chans[a], st.driver);
  }

  lemma KeepsBytes(st: State, a: nat, step: Step)
    requires Inv(st) && Enabled(st, step) && (step == StoreByte(a) || step == LoadByte(a))
    ensures Inv(Apply(st, step))
  {
    var st', ch := Apply(st, step), st.chans[a];
    assert ChanOk(ch, a, st.driver);
    if step == StoreByte(a) {
      if ch.client.k < |ch.client.req| {
        PrefixGrows(ch.client.req, ch.data, ch.client.k);
      } else {
        assert ch.client.req[..ch.client.k] == ch.client.req;
      }
    }
    assert ChanOk(st'.chans[a], a, st.driver);
    hide ChanOk, Inv;
    StepOn(st, a, st'.chans[a], st.driver);
  }

  lemma KeepsAccepting(st: State, step: Step)
    requires Inv(st) && Enabled(st, step) && (step.LoadReqByte? || step.Accept? || step.BeginReply?)
    ensures Inv(Apply(st, step))
  {
    var st', a := Apply(st, step), st.driver.a;
    var ch := st.chans[a];
    assert ChanOk(ch, a, st.driver);
    assert step.Accept? ==> st.driver.buf == ch.data;
    assert ChanOk(st'.chans[a], a, st'.driver);
    assert st' == SetChan(st, a, st'.chans[a]).(driver := st'.driver);
    hide ChanOk, Inv;
    StepOn(st, a, st'.chans[a], st'.driver);
  }

  lemma KeepsReplying(st: State, step: Step)
    requires Inv(st) && Enabled(st, step) && (step.StoreReplyByte? || step.PutResult? || step.PutReply?)
    ensures Inv(Apply(st, step))
  {
    var st', a := Apply(st, step), st.driver.a;
    var ch := st.chans[a];
    assert ChanOk(ch, a, st.driver);
    if step.StoreReplyByte? {
      var reply := st.driver.reply;
      if st.driver.k < |reply.data| {
        PrefixGrows(reply.data, ch.data, st.driver.k);
      } else {
        assert reply.data[..st.driver.k] == reply.data;
      }
    }
    assert ChanOk(st'.chans[a], a, st'.driver);
    assert st' == SetChan(st, a, st'.chans[a]).(driver := st'.driver);
    hide ChanOk, Inv;
    StepOn(st, a, st'.chans[a], st'.driver);
  }

  lemma KeepsStoreSend(st: State, a: nat)
    requires Inv(st) && Enabled(st, StoreSend(a))
    ensures Inv(Apply(st, StoreSend(a)))
  {
    var st' := Apply(st, StoreSend(a));
    forall b: nat | b < |st.chans| ensures ChanOk(st'.chans[b], b, st'.driver) && FairTo(st', b) {
      assert ChanOk(st.chans[b], b, st.driver) && FairTo(st, b);
    }
  }

  lemma KeepsLookNext(st: State)
    requires Inv(st) && Enabled(st, LookNext)
    ensures Inv(Apply(st, LookNext))
  {
    var st', n := Apply(st, LookNext), |st.chans|;
    forall a: nat | a < n ensures ChanOk(st'.chans[a], a, st'.driver) {
      assert ChanOk(st.chans[a], a, st.driver);
    }
    hide ChanOk;
    forall a: nat | a < n ensures FairTo(st', a) {
      assert FairTo(st, a);
      if st.chans[a].readySend {
        forall b | b in st.since[a] ensures Turns(st'.i, a, n) < Turns(st'.i, b, n) {
          assert Turns(st.i, a, n) < Turns(st.i, b, n);
        }
      }
    }
  }

  lemma KeepsTake(st: State)
    requires Inv(st) && Enabled(st, Take)
    ensures Inv(Apply(st, Take))
    ensures forall b: nat | b < |st.chans| && b != st.driver.a && st.chans[b].readySend :: st.driver.a !in st.since[b]
  {
    var st', n, a := Apply(st, Take), |st.chans|, st.driver.a;
    assert ChanOk(st.chans[a], a, st.driver);
    forall b: nat | b < n ensures ChanOk(st'.chans[b], b, st'.driver) {
      assert ChanOk(st.chans[b], b, st.driver);
    }
    hide ChanOk;
    forall b: nat | b < n ensures FairTo(st', b) && (b != a && st.chans[b].readySend ==> a !in st.since[b]) {
      assert FairTo(st, b);
      if b != a && st.chans[b].readySend {
        forall x | x in st'.since[b] ensures x != b && x < n && Turns(st'.i, b, n) < Turns(st'.i, x, n) {
          assert x == a || x in st.since[b];
        }
      }
    }
  }

  lemma StepKeeps(st: State, step: Step)
    requires Inv(st) && Enabled(st, step)
    ensures Inv(Apply(st, step))
  {
    hide Inv, Apply, Enabled;
    match step
    case Begin(a, req) => KeepsClient(st, a, step);
    case StoreByte(a) => KeepsBytes(st, a, step);
    case StoreNoReply(a) => KeepsClient(st, a, step);
    case StoreSend(a) => KeepsStoreSend(st, a);
    case SeeReply(a) => KeepsClient(st, a, step);
    case LoadResult(a) => KeepsClient(st, a, step);
    case LoadByte(a) => KeepsBytes(st, a, step);
    case End(a) => KeepsClient(st, a, step);
    case LookNext => KeepsLookNext(st);
    case Take => KeepsTake(st);
    case LoadReqByte => KeepsAccepting(st, step);
    case Accept => KeepsAccepting(st, step);
    case BeginReply(_) => KeepsAccepting(st, step);
    case StoreReplyByte => KeepsReplying(st, step);
    case PutResult => KeepsReplying(st, step);
    case PutReply => KeepsReplying(st, step);
  }

  // ----------------------------------------------------------------------- runs

  /** Fresh channels: clean pages, nothing sent. */
  ghost predicate Start(st: State) {
    && st.driver.Look? && st.i == 0 && |st.chans| == |st.since| <= MAX_CHANNELS
    && forall a: nat {:trigger st.chans[a]} | a < |st.chans| ::
         && st.chans[a].client.Free? && !st.chans[a].readySend && !st.chans[a].readyReply && |st.chans[a].data| == ROOM
         && st.chans[a].sent == [] && st.chans[a].taken == [] && st.chans[a].answered == [] && st.chans[a].got == []
  }

  ghost predicate IsRun(sts: seq<State>, steps: seq<Step>) {
    && |sts| == |steps| + 1 && Start(sts[0])
    && forall t {:trigger steps[t]} | 0 <= t < |steps| ::
         Enabled(sts[t], steps[t]) && sts[t + 1] == Apply(sts[t], steps[t])
  }

  lemma {:induction false} EveryStateIsInv(sts: seq<State>, steps: seq<Step>, t: nat)
    requires IsRun(sts, steps) && t < |sts|
    ensures Inv(sts[t]) && |sts[t].chans| == |sts[0].chans|
    decreases t
  {
    if t == 0 {
      forall a: nat | a < |sts[0].chans| ensures ChanOk(sts[0].chans[a], a, sts[0].driver) {
        assert sts[0].chans[a].client.Free?;
      }
    } else {
      EveryStateIsInv(sts, steps, t - 1);
      assert steps[t - 1] == steps[t - 1];
      hide Inv;
      StepKeeps(sts[t - 1], steps[t - 1]);
    }
  }

  /** In every run ready_send and ready_reply of a channel are never both set, and either
      is set only while its client waits. */
  lemma NeverBothReady(sts: seq<State>, steps: seq<Step>, t: nat, a: nat)
    requires IsRun(sts, steps) && t < |sts| && a < |sts[t].chans|
    ensures !(sts[t].chans[a].readySend && sts[t].chans[a].readyReply)
    ensures sts[t].chans[a].readySend || sts[t].chans[a].readyReply ==> sts[t].chans[a].client.Wait?
  {
    EveryStateIsInv(sts, steps, t);
    assert ChanOk(sts[t].chans[a], a, sts[t].driver);
  }

  /** In every run the driver has read every request on a channel once, whole and in order,
      short of at most the one that is still open, and the client has read every reply
      as the answer to its own request. */
  lemma ConsumedOnceAnsweredOnce(sts: seq<State>, steps: seq<Step>, t: nat, a: nat)
    requires IsRun(sts, steps) && t < |sts| && a < |sts[t].chans|
    ensures
      var ch := sts[t].chans[a];
      && |ch.got| <= |ch.answered| <= |ch.taken| <= |ch.sent| <= |ch.got| + 1
      && (forall k | 0 <= k < |ch.taken| :: ch.sent[k] <= ch.taken[k])
      && (forall k | 0 <= k < |ch.got| :: Shows(ch.answered[k], ch.got[k]))
      && (ch.client.Free? ==> |ch.got| == |ch.sent|)
  {
    EveryStateIsInv(sts, steps, t);
    assert ChanOk(sts[t].chans[a], a, sts[t].driver);
  }

  // ------------------------------------------------------------------- fairness

  predicate Serves(st: State, step: Step, a: nat) { step.Take? && st.driver == Found(a) }

  /** The request in channel a is pending and b was served since. */
  ghost predicate PassedBy(st: State, a: nat, b: nat) {
    a < |st.chans| && a < |st.since| && st.chans[a].readySend && b in st.since[a]
  }

  /** A pending request stays pending, and remembers who was served, until it is served. */
  lemma StaysPending(st: State, step: Step, a: nat, b: nat)
    requires Inv(st) && Enabled(st, step) && PassedBy(st, a, b) && !Serves(st, step, a)
    ensures PassedBy(Apply(st, step), a, b)
  {
    assert ChanOk(st.chans[a], a, st.driver);
  }

  /** Serving b passes by every other pending channel, and never for the second time. */
  lemma PassesBy(st: State, step: Step, a: nat, b: nat)
    requires Inv(st) && Enabled(st, step) && Serves(st, step, b) && a != b && a < |st.chans| && st.chans[a].readySend
    ensures !PassedBy(st, a, b) && PassedBy(Apply(st, step), a, b)
  {
    KeepsTake(st);
  }

  lemma RunStep(sts: seq<State>, steps: seq<Step>, t: nat)
    requires IsRun(sts, steps) && t < |steps|
    ensures Inv(sts[t]) && Enabled(sts[t], steps[t]) && sts[t + 1] == Apply(sts[t], steps[t])
  {
    hide Inv, Enabled, Apply;
    EveryStateIsInv(sts, steps, t);
    assert steps[t] == steps[t];
  }

  lemma {:induction false} StaysPendingUntil(sts: seq<State>, steps: seq<Step>, t1: nat, t2: nat, a: nat, b: nat)
    requires IsRun(sts, steps) && t1 <= t2 < |sts| && PassedBy(sts[t1], a, b)
    requires forall t | t1 <= t < t2 :: !Serves(sts[t], steps[t], a)
    ensures PassedBy(sts[t2], a, b)
    decreases t2
  {
    hide Inv, Enabled, Apply, PassedBy, Serves;
    if t1 < t2 {
      StaysPendingUntil(sts, steps, t1, t2 - 1, a, b);
      RunStep(sts, steps, t2 - 1);
      StaysPending(sts[t2 - 1], steps[t2 - 1], a, b);
    }
  }

  /** Over an unchanging list, a pending channel is served before any other channel is
      served twice. */
  lemma ServedBeforeAnyTwice(sts: seq<State>, steps: seq<Step>, t1: nat, t2: nat, a: nat, b: nat)
    requires IsRun(sts, steps) && t1 < t2 < |steps| && a != b && a < |sts[t1].chans| && sts[t1].chans[a].readySend
    requires Serves(sts[t1], steps[t1], b) && Serves(sts[t2], steps[t2], b)
    ensures exists t | t1 < t < t2 :: Serves(sts[t], steps[t], a)
  {
    hide Inv, Enabled, Apply, Serves;
    RunStep(sts, steps, t1);
    PassesBy(sts[t1], steps[t1], a, b);
    if forall t | t1 < t < t2 :: !Serves(sts[t], steps[t], a) {
      StaysPendingUntil(sts, steps, t1 + 1, t2, a, b);
      RunStep(sts, steps, t2);
      PassesBy(sts[t2], steps[t2], a, b);
    }
  }
}
