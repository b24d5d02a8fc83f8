/** The ready bitmap of a server (lib/bitmap.c), bit by bit. */
module Bitmap {
  type Word = w: seq<bool> | |w| == 64 witness seq(64, _ => false)

  const ZERO: Word := seq(64, _ => false)

  /** The word is not 0. */
  predicate AnySet(w: Word) { exists j | 0 <= j < 64 :: w[j] }

  /** `1 << bit` as an int, widened to 64 bits: for bit 31 the sign spreads upwards. */
  function Mask(bit: nat): Word
    requires bit < 32
  {
    seq(64, j => if bit == 31 then j >= 31 else j == bit)
  }

  function SetBit(w: Word, bit: nat): Word
    requires bit < 32
  {
    seq(64, j requires 0 <= j < 64 => w[j] || Mask(bit)[j])
  }

  function ClearBit(w: Word, bit: nat): Word
    requires bit < 32
  {
    seq(64, j requires 0 <= j < 64 => w[j] && !Mask(bit)[j])
  }

  /** check_bit gives 1: the masked word, shifted down and cut to an int, is 1. */
  predicate CheckBit(w: Word, bit: nat)
    requires bit < 32
  {
    w[bit] && Mask(bit)[bit] && forall j | bit < j < 64 && j - bit < 32 :: !(w[j] && Mask(bit)[j])
  }

  /** Below 31 the three operations are those of a set of ids. */
  lemma BitsAreASet(w: Word, bit: nat)
    requires bit < 31
    ensures SetBit(w, bit) == w[bit := true] && ClearBit(w, bit) == w[bit := false]
    ensures CheckBit(w, bit) <==> w[bit]
  {
  }

  /** A bit that was set is seen, and no other bit appears, exactly below 31. */
  lemma BitIsSeenIff(bit: nat)
    requires bit < 32
    ensures CheckBit(SetBit(ZERO, bit), bit) <==> bit < 31
    ensures (forall j | 0 <= j < 64 && j != bit :: !SetBit(ZERO, bit)[j]) <==> bit < 31
  {
    var w := SetBit(ZERO, bit);
    if bit == 31 {
      assert w[32] && Mask(31)[32];
    } else {
      BitsAreASet(ZERO, bit);
    }
  }
}

/** Copying into and out of shared memory a byte at a time. */
module Memcpy {
  import opened Prelude

  function StoreAt(data: seq<Byte>, k: nat, b: Byte): seq<Byte> { if k < |data| then data[k := b] else data }

  function LoadAt(data: seq<Byte>, k: nat): Byte { if k < |data| then data[k] else 0 }

  /** One more byte of the message is in the box. */
  lemma PrefixGrows(msg: seq<Byte>, box: seq<Byte>, k: nat)
    requires k < |msg| <= |box| && msg[..k] <= box
    ensures msg[..k + 1] <= StoreAt(box, k, msg[k])
  {
    var after := StoreAt(box, k, msg[k]);
    forall i | 0 <= i < k ensures msg[i] == after[i] {
      assert msg[..k][i] == box[i];
    }
  }
}

/** Request and reply between cores (lib/ipc.c) as a step system: one step is one store,
    load or bit operation of one core, in any interleaving. A core may call a server,
    and a server may itself call another one while it works on a request. */
module Ipc {
  import opened Bitmap
  import opened Memcpy
  import opened Prelude

  const BOX: nat := 48   // MSG_DATA_SIZE

  /** A message box; number 0 means empty. */
  datatype Msg = Msg(from: nat, number: nat, data: seq<Byte>)

  datatype Req = Req(to: nat, number: nat, data: seq<Byte>)

  /** Where a core is in msg_send and the msg_receive after it. */
  datatype Call =
    | Idle
    | WriteFrom(req: Req)
    | WriteNumber(req: Req)
    | WriteData(req: Req, k: nat)
    | SetReady(req: Req)
    | Wait(req: Req)
    | ReadReply(req: Req, buf: seq<Byte>)

  /** Where a server is in msg_check, its work and the msg_reply after it. */
  datatype Serve =
    | Poll
    | Scan(i: nat)
    | Clear(found: nat)
    | ReadRequest(client: nat, buf: seq<Byte>)
    | Work(client: nat)
    | ReplyFrom(client: nat, number: nat, reply: seq<Byte>)
    | ReplyData(client: nat, number: nat, reply: seq<Byte>, k: nat)
    | ReplyNumber(client: nat, number: nat, reply: seq<Byte>)

  /** A core: its boxes, the ready bitmap others set when they call it, and the history
      of its own calls: requests sent, requests as their servers read them, replies
      published and replies as this core read them. */
  datatype Cpu = Cpu(call: Call, serve: Serve, out: Msg, inbox: seq<Msg>, bits: Word,
                     sent: seq<Req>, handled: seq<Msg>, replied: seq<seq<Byte>>, got: seq<seq<Byte>>)

  type State = seq<Cpu>

  /** One step: the core that takes it and, where there is a choice, what it chooses. */
  datatype Step =
    | Begin(c: nat, req: Req)
    | StoreFrom(c: nat) | StoreNumber(c: nat) | StoreByte(c: nat) | StoreReady(c: nat)
    | TakeReply(c: nat) | LoadByte(c: nat) | EndCall(c: nat)
    | SeeBits(s: nat) | CheckNext(s: nat) | ClearFound(s: nat)
    | LoadRequestByte(s: nat) | Accept(s: nat)
    | BeginReply(s: nat, number: nat, reply: seq<Byte>)
    | StoreReplyFrom(s: nat) | StoreReplyByte(s: nat) | Publish(s: nat)

  /** The core that takes the step may take it now. A core that waits for a reply does not
      serve; requests and replies carry a number and fit into a box. */
  predicate Enabled(st: State, step: Step) {
    match step
    case Begin(c, req) => c < |st| && st[c].call.Idle? && req.to < |st| && req.number != 0 && |req.data| <= BOX
    case StoreFrom(c) => c < |st| && st[c].call.WriteFrom?
    case StoreNumber(c) => c < |st| && st[c].call.WriteNumber?
    case StoreByte(c) => c < |st| && st[c].call.WriteData?
    case StoreReady(c) => c < |st| && st[c].call.SetReady?
    case TakeReply(c) => c < |st| && st[c].call.Wait? && InboxOf(st, c, st[c].call.req.to).number != 0
    case LoadByte(c) => c < |st| && st[c].call.ReadReply? && |st[c].call.buf| < BOX
    case EndCall(c) => c < |st| && st[c].call.ReadReply? && |st[c].call.buf| == BOX
    case SeeBits(s) => Serves(st, s) && st[s].serve.Poll? && AnySet(st[s].bits)
    case CheckNext(s) => Serves(st, s) && st[s].serve.Scan?
    case ClearFound(s) => Serves(st, s) && st[s].serve.Clear?
    case LoadRequestByte(s) => Serves(st, s) && st[s].serve.ReadRequest? && |st[s].serve.buf| < BOX
    case Accept(s) => Serves(st, s) && st[s].serve.ReadRequest? && |st[s].serve.buf| == BOX
    case BeginReply(s, number, reply) => Serves(st, s) && st[s].serve.Work? && number != 0 && |reply| <= BOX
    case StoreReplyFrom(s) => Serves(st, s) && st[s].serve.ReplyFrom?
    case StoreReplyByte(s) => Serves(st, s) && st[s].serve.ReplyData?
    case Publish(s) => Serves(st, s) && st[s].serve.ReplyNumber?
  }

  predicate Serves(st: State, s: nat) { s < |st| && st[s].call.Idle? }

  function InboxOf(st: State, c: nat, s: nat): Msg {
    if c < |st| && s < |st[c].inbox| then st[c].inbox[s] else Msg(0, 0, [])
  }

  function OutOf(st: State, c: nat): Msg { if c < |st| then st[c].out else Msg(0, 0, []) }

  // ------------------------------------------------------------- effect of a step

  function SetInbox(st: State, c: nat, s: nat, m: Msg): State {
    if c < |st| && s < |st[c].inbox| then st[c := st[c].(inbox := st[c].inbox[s := m])] else st
  }

  function SetCall(st: State, c: nat, call: Call): State
    requires c < |st|
  {
    st[c := st[c].(call := call)]
  }

  function SetServe(st: State, s: nat, serve: Serve): State
    requires s < |st|
  {
    st[s := st[s].(serve := serve)]
  }

  function SetOut(st: State, c: nat, out: Msg): State
    requires c < |st|
  {
    st[c := st[c].(out := out)]
  }

  function AfterByte(st: State, c: nat, req: Req, k: nat): State
    requires c < |st|
  {
    if k < |req.data| then
      SetCall(SetOut(st, c, st[c].out.(data := StoreAt(st[c].out.data, k, req.data[k]))), c, WriteData(req, k + 1))
    else SetCall(st, c, SetReady(req))
  }

  function AfterReady(st: State, c: nat, req: Req): State
    requires c < |st| && c < 32
  {
    WithBit(st[c := st[c].(call := Wait(req), sent := st[c].sent + [req])], req.to, c)
  }

  function WithBit(st: State, s: nat, c: nat): State
    requires c < 32
  {
    if s < |st| then st[s := st[s].(bits := SetBit(st[s].bits, c))] else st
  }

  function AfterCheck(st: State, s: nat, i: nat): State
    requires s < |st|
  {
    if i >= |st| || i >= 32 then SetServe(st, s, Poll)
    else if CheckBit(st[s].bits, i) then SetServe(st, s, Clear(i))
    else SetServe(st, s, Scan(i + 1))
  }

  function AfterAccept(st: State, s: nat, c: nat, read: Msg): State
    requires s < |st|
  {
    LogHandled(SetServe(st, s, Work(c)), c, read)
  }

  function LogHandled(st: State, c: nat, read: Msg): State {
    if c < |st| then st[c := st[c].(handled := st[c].handled + [read])] else st
  }

  function LogReplied(st: State, c: nat, reply: seq<Byte>): State {
    if c < |st| then st[c := st[c].(replied := st[c].replied + [reply])] else st
  }

  function AfterReplyByte(st: State, s: nat, c: nat, number: nat, reply: seq<Byte>, k: nat): State
    requires s < |st|
  {
    if k < |reply| then
      SetInbox(SetServe(st, s, ReplyData(c, number, reply, k + 1)), c, s,
               InboxOf(st, c, s).(data := StoreAt(InboxOf(st, c, s).data, k, reply[k])))
    else SetServe(st, s, ReplyNumber(c, number, reply))
  }

  function AfterPublish(st: State, s: nat, c: nat, number: nat, reply: seq<Byte>): State
    requires s < |st|
  {
    LogReplied(SetInbox(SetServe(st, s, Poll), c, s, InboxOf(st, c, s).(number := number)), c, reply)
  }

  function Apply(st: State, step: Step): State
    requires Enabled(st, step) && |st| <= 32
  {
    match step
    case Begin(c, req) => SetCall(st, c, WriteFrom(req))
    case StoreFrom(c) => SetCall(SetOut(st, c, st[c].out.(from := c)), c, WriteNumber(st[c].call.req))
    case StoreNumber(c) =>
      SetCall(SetOut(st, c, st[c].out.(number := st[c].call.req.number)), c, WriteData(st[c].call.req, 0))
    case StoreByte(c) => AfterByte(st, c, st[c].call.req, st[c].call.k)
    case StoreReady(c) => AfterReady(st, c, st[c].call.req)
    case TakeReply(c) =>
      SetCall(SetInbox(st, c, st[c].call.req.to, InboxOf(st, c, st[c].call.req.to).(number := 0)), c,
              ReadReply(st[c].call.req, []))
    case LoadByte(c) =>
      SetCall(st, c, ReadReply(st[c].call.req,
                               st[c].call.buf + [LoadAt(InboxOf(st, c, st[c].call.req.to).data, |st[c].call.buf|)]))
    case EndCall(c) => st[c := st[c].(call := Idle, got := st[c].got + [st[c].call.buf])]
    case SeeBits(s) => SetServe(st, s, Scan(0))
    case CheckNext(s) => AfterCheck(st, s, st[s].serve.i)
    case ClearFound(s) =>
      st[s := st[s].(serve := ReadRequest(st[s].serve.found, []),
                     bits := if st[s].serve.found < 32 then ClearBit(st[s].bits, st[s].serve.found) else st[s].bits)]
    case LoadRequestByte(s) =>
      SetServe(st, s, ReadRequest(st[s].serve.client,
                                  st[s].serve.buf + [LoadAt(OutOf(st, st[s].serve.client).data, |st[s].serve.buf|)]))
    case Accept(s) =>
      AfterAccept(st, s, st[s].serve.client,
                  Msg(OutOf(st, st[s].serve.client).from, OutOf(st, st[s].serve.client).number, st[s].serve.buf))
    case BeginReply(s, number, reply) => SetServe(st, s, ReplyFrom(st[s].serve.client, number, reply))
    case StoreReplyFrom(s) =>
      SetInbox(SetServe(st, s, ReplyData(st[s].serve.client, st[s].serve.number, st[s].serve.reply, 0)),
               st[s].serve.client, s,
               InboxOf(st, st[s].serve.client, s).(from := s))
    case StoreReplyByte(s) =>
      AfterReplyByte(st, s, st[s].serve.client, st[s].serve.number, st[s].serve.reply, st[s].serve.k)
    case Publish(s) => AfterPublish(st, s, st[s].serve.client, st[s].serve.number, st[s].serve.reply)
  }

  // ------------------------------------------------------------------ invariant

  /** The server works for client c. */
  predicate Serving(serve: Serve, c: nat) {
    !serve.Poll? && !serve.Scan? && !serve.Clear? && serve.client == c
  }

  ghost predicate Shape(st: State) {
    && |st| <= 31
    && forall c: nat {:trigger ShapeOf(st, c)} | c < |st| :: ShapeOf(st, c)
  }

  ghost predicate ShapeOf(st: State, c: nat)
    requires c < |st|
  {
    && |st[c].inbox| == |st| && |st[c].out.data| == BOX
    && (forall s: nat | s < |st| :: |st[c].inbox[s].data| == BOX)
    && (forall j | |st| <= j < 64 :: !st[c].bits[j])
  }

  /** Client c has no business with server s. */
  ghost predicate Quiet(st: State, c: nat, s: nat)
    requires Shape(st) && c < |st| && s < |st|
  {
    assert ShapeOf(st, c);
    !st[s].bits[c] && !Serving(st[s].serve, c) && st[c].inbox[s].number == 0
  }

  ghost predicate QuietExcept(st: State, c: nat, to: int)
    requires Shape(st) && c < |st|
  {
    forall s: nat {:trigger Quiet(st, c, s)} | s < |st| && s != to :: Quiet(st, c, s)
  }

  predicate IsReq(st: State, req: Req) { req.to < |st| && req.number != 0 && |req.data| <= BOX }

  /** What a server reads in box m is the request. */
  predicate Matches(c: nat, req: Req, m: Msg) { m.from == c && m.number == req.number && req.data <= m.data }

  /** The histories agree as far as they go: every request was read once, as sent, and
      every reply was read as published. */
  ghost predicate LogsAgree(c: nat, p: Cpu) {
    && |p.got| <= |p.replied| <= |p.handled| <= |p.sent|
    && (forall i | 0 <= i < |p.handled| :: Matches(c, p.sent[i], p.handled[i]))
    && (forall i | 0 <= i < |p.got| :: p.replied[i] <= p.got[i])
  }

  /** No request is open. */
  predicate Settled(p: Cpu) { |p.got| == |p.replied| == |p.handled| == |p.sent| }

  /** One request is open and has been read h times and answered r times. */
  predicate Open(p: Cpu, h: nat, r: nat) {
    |p.sent| == |p.got| + 1 && |p.handled| == |p.got| + h && |p.replied| == |p.got| + r
  }

  /** How far the server is with the request of client c. */
  ghost predicate ServeOk(st: State, c: nat, s: nat, serve: Serve)
    requires Shape(st) && c < |st| && s < |st|
  {
    assert ShapeOf(st, c);
    match serve
    case ReadRequest(_, buf) => Open(st[c], 0, 0) && buf <= st[c].out.data
    case Work(_) => Open(st[c], 1, 0)
    case ReplyFrom(_, number, reply) => Open(st[c], 1, 0) && number != 0 && |reply| <= BOX
    case ReplyData(_, number, reply, k) =>
      Open(st[c], 1, 0) && number != 0 && |reply| <= BOX && k <= |reply| && reply[..k] <= st[c].inbox[s].data
    case ReplyNumber(_, number, reply) => Open(st[c], 1, 0) && number != 0 && reply <= st[c].inbox[s].data
    case _ => false
  }

  /** A waiting client's request is at exactly one place: in the bitmap, with the server,
      or answered in the inbox. */
  ghost predicate WaitOk(st: State, c: nat, req: Req)
    requires Shape(st) && c < |st|
  {
    assert ShapeOf(st, c);
    && IsReq(st, req) && Matches(c, req, st[c].out) && QuietExcept(st, c, req.to)
    && |st[c].sent| > 0 && st[c].sent[|st[c].sent| - 1] == req
    && (if st[req.to].bits[c] then !Serving(st[req.to].serve, c) && st[c].inbox[req.to].number == 0 && Open(st[c], 0, 0)
        else if Serving(st[req.to].serve, c) then
          st[c].inbox[req.to].number == 0 && ServeOk(st, c, req.to, st[req.to].serve)
        else st[c].inbox[req.to].number != 0 && Answered(st, c, req.to))
  }

  ghost predicate Answered(st: State, c: nat, s: nat)
    requires Shape(st) && c < |st| && s < |st|
  {
    assert ShapeOf(st, c);
    Open(st[c], 1, 1) && |st[c].replied| > 0 && st[c].replied[|st[c].replied| - 1] <= st[c].inbox[s].data
  }

  ghost predicate ClientOk(st: State, c: nat)
    requires Shape(st) && c < |st|
  {
    assert ShapeOf(st, c);
    && LogsAgree(c, st[c])
    && match st[c].call
       case Idle => QuietExcept(st, c, -1) && Settled(st[c])
       case WriteFrom(req) => QuietExcept(st, c, -1) && Settled(st[c]) && IsReq(st, req)
       case WriteNumber(req) => QuietExcept(st, c, -1) && Settled(st[c]) && IsReq(st, req) && st[c].out.from == c
       case WriteData(req, k) =>
         && QuietExcept(st, c, -1) && Settled(st[c]) && IsReq(st, req)
         && k <= |req.data| && Matches(c, req.(data := req.data[..k]), st[c].out)
       case SetReady(req) => QuietExcept(st, c, -1) && Settled(st[c]) && IsReq(st, req) && Matches(c, req, st[c].out)
       case Wait(req) => WaitOk(st, c, req)
       case ReadReply(req, buf) =>
         QuietExcept(st, c, -1) && IsReq(st, req) && Answered(st, c, req.to) && buf <= st[c].inbox[req.to].data
  }

  /** A scan will find a bit. */
  ghost predicate ServerOk(st: State, s: nat)
    requires Shape(st) && s < |st|
  {
    match st[s].serve
    case Poll => true
    case Scan(i) => exists j: nat :: i <= j < |st| && st[s].bits[j]
    case Clear(found) => found < |st| && st[s].bits[found]
    case _ => st[s].serve.client < |st|
  }

  ghost predicate Inv(st: State) {
    && Shape(st)
    && (forall c: nat {:trigger ClientOk(st, c)} | c < |st| :: ClientOk(st, c))
    && (forall s: nat {:trigger ServerOk(st, s)} | s < |st| :: ServerOk(st, s))
  }

  /** Nothing client c depends on changed. */
  lemma Bystander(st: State, st': State, c: nat)
    requires Shape(st) && Shape(st') && |st| == |st'| && c < |st| && ClientOk(st, c)
    requires st'[c] == st[c].(serve := st'[c].serve, bits := st'[c].bits)
    requires forall s: nat {:trigger Quiet(st', c, s)} | s < |st| :: st'[s].bits[c] == st[s].bits[c]
               && (Serving(st[s].serve, c) || Serving(st'[s].serve, c) ==> st'[s].serve == st[s].serve)
    ensures ClientOk(st', c)
  {
    assert ShapeOf(st, c) && ShapeOf(st', c);
    forall s: nat | s < |st| && Quiet(st, c, s) ensures Quiet(st', c, s) {
    }
    if st[c].call.Wait? {
      var to := st[c].call.req.to;
      assert Quiet(st', c, to) || !Quiet(st', c, to);
      forall s: nat | s < |st| && s != to ensures Quiet(st', c, s) {
        assert Quiet(st, c, s);
      }
    } else {
      forall s: nat | s < |st| ensures Quiet(st', c, s) {
        assert Quiet(st, c, s);
      }
    }
  }

  /** Core d changed in nothing that concerns clients other than c. */
  ghost predicate OnlyFor(st: State, st': State, c: nat, d: nat)
    requires |st| == |st'| && d < |st|
  {
    && (d != c ==> st'[d] == st[d].(serve := st'[d].serve, bits := st'[d].bits))
    && (forall e | 0 <= e < 64 && e != c :: st'[d].bits[e] == st[d].bits[e])
    && (st'[d].serve == st[d].serve || (NotForOthers(st[d].serve, c) && NotForOthers(st'[d].serve, c)))
  }

  predicate NotForOthers(serve: Serve, c: nat) { serve.Poll? || serve.Scan? || serve.Clear? || serve.client == c }

  lemma OthersKeep(st: State, st': State, c: nat)
    requires Inv(st) && Shape(st') && |st| == |st'|
    requires forall d: nat {:trigger OnlyFor(st, st', c, d)} | d < |st| :: OnlyFor(st, st', c, d)
    ensures forall d: nat {:trigger ClientOk(st', d)} | d < |st| && d != c :: ClientOk(st', d)
  {
    forall d: nat | d < |st| && d != c ensures ClientOk(st', d) {
      assert ClientOk(st, d) && OnlyFor(st, st', c, d);
      forall s: nat | s < |st|
        ensures st'[s].bits[d] == st[s].bits[d]
          && (Serving(st[s].serve, d) || Serving(st'[s].serve, d) ==> st'[s].serve == st[s].serve)
      {
        assert OnlyFor(st, st', c, s);
      }
      hide ClientOk;
      Bystander(st, st', d);
    }
  }

  /** A step that changes only what core c itself works with. */
  lemma OwnStep(st: State, st': State, c: nat)
    requires Inv(st) && c < |st| == |st'| && st' == st[c := st'[c]] && st'[c].serve == st[c].serve
      && st'[c].bits == st[c].bits
    requires |st'[c].inbox| == |st| && |st'[c].out.data| == BOX
      && (forall s: nat | s < |st| :: |st'[c].inbox[s].data| == BOX)
    ensures Shape(st') && (ClientOk(st', c) ==> Inv(st'))
    ensures st'[c].inbox == st[c].inbox && QuietExcept(st, c, -1) ==> QuietExcept(st', c, -1)
  {
    forall d: nat | d < |st| ensures ShapeOf(st', d) {
      assert ShapeOf(st, d);
    }
    forall d: nat | d < |st| ensures OnlyFor(st, st', c, d) {
    }
    hide ClientOk;
    OthersKeep(st, st', c);
    forall s: nat | s < |st| ensures ServerOk(st', s) {
      assert ServerOk(st, s);
    }
    if st'[c].inbox == st[c].inbox && QuietExcept(st, c, -1) {
      forall s: nat | s < |st| ensures Quiet(st', c, s) {
        assert Quiet(st, c, s);
      }
    }
  }

  lemma KeepsBegin(st: State, c: nat, req: Req)
    requires Inv(st) && Enabled(st, Begin(c, req))
    ensures Inv(Apply(st, Begin(c, req)))
  {
    var st' := Apply(st, Begin(c, req));
    assert ShapeOf(st, c) && ClientOk(st, c);
    OwnStep(st, st', c);
  }

  lemma KeepsStore(st: State, c: nat, step: Step)
    requires Inv(st) && Enabled(st, step)
    requires step == StoreFrom(c) || step == StoreNumber(c) || step == StoreByte(c)
    ensures Inv(Apply(st, step))
  {
    var st' := Apply(st, step);
    assert ShapeOf(st, c) && ClientOk(st, c);
    OwnStep(st, st', c);
  }

  lemma KeepsTakeReply(st: State, c: nat)
    requires Inv(st) && Enabled(st, TakeReply(c))
    ensures Inv(Apply(st, TakeReply(c)))
  {
    var st' := Apply(st, TakeReply(c));
    assert ShapeOf(st, c) && ClientOk(st, c);
    OwnStep(st, st', c);
    assert ShapeOf(st', c);
    var to := st[c].call.req.to;
    forall s: nat | s < |st| ensures Quiet(st', c, s) {
      assert s != to ==> Quiet(st, c, s);
    }
  }

  lemma KeepsLoadByte(st: State, c: nat)
    requires Inv(st) && Enabled(st, LoadByte(c))
    ensures Inv(Apply(st, LoadByte(c)))
  {
    var st' := Apply(st, LoadByte(c));
    assert ShapeOf(st, c) && ClientOk(st, c);
    OwnStep(st, st', c);
  }

  lemma KeepsEndCall(st: State, c: nat)
    requires Inv(st) && Enabled(st, EndCall(c))
    ensures Inv(Apply(st, EndCall(c)))
  {
    var st' := Apply(st, EndCall(c));
    assert ShapeOf(st, c) && ClientOk(st, c);
    OwnStep(st, st', c);
    assert st[c].call.buf == st[c].inbox[st[c].call.req.to].data;
  }

  /** Core d keeps everything but its place as a server, its bit for c and, if it is c, its
      inbox and its history. */
  ghost predicate ServedFor(st: State, st': State, s: nat, c: nat, d: nat)
    requires |st| == |st'| && d < |st|
  {
    && (d != s ==> st'[d].serve == st[d].serve && st'[d].bits == st[d].bits)
    && (forall e | 0 <= e < 64 && e != c :: st'[d].bits[e] == st[d].bits[e])
    && st'[d].call == st[d].call && st'[d].out == st[d].out && st'[d].sent == st[d].sent && st'[d].got == st[d].got
    && (d != c ==> st'[d].inbox == st[d].inbox && st'[d].handled == st[d].handled && st'[d].replied == st[d].replied)
    && |st'[d].inbox| == |st[d].inbox|
    && forall i: nat | i < |st[d].inbox| ::
         (i != s ==> st'[d].inbox[i] == st[d].inbox[i]) && |st'[d].inbox[i].data| == |st[d].inbox[i].data|
  }

  /** A step of server s for client c. */
  lemma ServerStep(st: State, st': State, s: nat, c: nat)
    requires Inv(st) && |st'| == |st| && s < |st| && c < |st|
    requires forall d: nat {:trigger ServedFor(st, st', s, c, d)} | d < |st| :: ServedFor(st, st', s, c, d)
    requires NotForOthers(st[s].serve, c) && NotForOthers(st'[s].serve, c)
    ensures Shape(st') && (ClientOk(st', c) && ServerOk(st', s) ==> Inv(st'))
    ensures forall i: nat {:trigger Quiet(st', c, i)} | i < |st| && i != s && Quiet(st, c, i) :: Quiet(st', c, i)
  {
    forall d: nat | d < |st| ensures ShapeOf(st', d) {
      assert ShapeOf(st, d) && ServedFor(st, st', s, c, d);
    }
    forall d: nat | d < |st| ensures OnlyFor(st, st', c, d) {
      assert ServedFor(st, st', s, c, d);
    }
    assert forall i: nat {:trigger Quiet(st', c, i)} | i < |st| && i != s && Quiet(st, c, i) :: Quiet(st', c, i) by {
      assert ServedFor(st, st', s, c, c) && ShapeOf(st, c) && ShapeOf(st', c);
      forall i: nat | i < |st| && i != s && Quiet(st, c, i) ensures Quiet(st', c, i) {
        assert ServedFor(st, st', s, c, i);
      }
    }
    hide ClientOk;
    OthersKeep(st, st', c);
    forall d: nat | d < |st| && d != s ensures ServerOk(st', d) {
      assert ServerOk(st, d) && ServedFor(st, st', s, c, d);
    }
  }

  /** The client a server works for waits for that server. */
  lemma ServedWaits(st: State, s: nat, c: nat)
    requires Inv(st) && s < |st| && c < |st| && (Serving(st[s].serve, c) || st[s].bits[c])
    ensures st[c].call.Wait? && st[c].call.req.to == s
  {
    assert ClientOk(st, c) && (Quiet(st, c, s) || !Quiet(st, c, s));
  }

  lemma KeepsSeeBits(st: State, s: nat)
    requires Inv(st) && Enabled(st, SeeBits(s))
    ensures Inv(Apply(st, SeeBits(s)))
  {
    var st' := Apply(st, SeeBits(s));
    assert ShapeOf(st, s);
    var j :| 0 <= j < 64 && st[s].bits[j];
    ScanOnly(st, st', s);
    assert j < |st| && st'[s].bits[j];
  }

  /** A step of the scan concerns no client. */
  lemma ScanOnly(st: State, st': State, s: nat)
    requires Inv(st) && s < |st| == |st'| && st' == st[s := st[s].(serve := st'[s].serve)]
    requires (st[s].serve.Poll? || st[s].serve.Scan?) && (st'[s].serve.Scan? || st'[s].serve.Clear?)
    ensures Shape(st') && (ServerOk(st', s) ==> Inv(st'))
  {
    assert ShapeOf(st, s) && ClientOk(st, s);
    forall d: nat | d < |st| ensures ServedFor(st, st', s, s, d) {
      assert ShapeOf(st, d);
    }
    ServerStep(st, st', s, s);
    hide ClientOk;
    forall d: nat | d < |st|
      ensures st'[d].bits[s] == st[d].bits[s]
        && (Serving(st[d].serve, s) || Serving(st'[d].serve, s) ==> st'[d].serve == st[d].serve)
    {
    }
    Bystander(st, st', s);
  }

  lemma KeepsCheckNext(st: State, s: nat)
    requires Inv(st) && Enabled(st, CheckNext(s))
    ensures Inv(Apply(st, CheckNext(s)))
    ensures !Apply(st, CheckNext(s))[s].serve.Poll?
  {
    var st' := Apply(st, CheckNext(s));
    var i := st[s].serve.i;
    assert ServerOk(st, s);
    var j: nat :| i <= j < |st| && st[s].bits[j];
    BitsAreASet(st[s].bits, i);
    ScanOnly(st, st', s);
    assert st'[s].bits[j];
  }

  lemma KeepsClearFound(st: State, s: nat)
    requires Inv(st) && Enabled(st, ClearFound(s))
    ensures Inv(Apply(st, ClearFound(s)))
  {
    var st' := Apply(st, ClearFound(s));
    assert ServerOk(st, s);
    var c := st[s].serve.found;
    assert ShapeOf(st, c) && ClientOk(st, c);
    ServedWaits(st, s, c);
    BitsAreASet(st[s].bits, c);
    forall d: nat | d < |st| ensures ServedFor(st, st', s, c, d) {
      assert ShapeOf(st, d);
    }
    ServerStep(st, st', s, c);
    ServedElsewhere(st, st', s, c);
  }

  /** What is left to check of a client whose request the server works on. */
  lemma ServedElsewhere(st: State, st': State, s: nat, c: nat)
    requires Shape(st) && Shape(st') && |st| == |st'| && s < |st| && c < |st| && QuietExcept(st, c, s)
    requires forall i: nat {:trigger Quiet(st', c, i)} | i < |st| && i != s && Quiet(st, c, i) :: Quiet(st', c, i)
    ensures QuietExcept(st', c, s)
  {
    forall i: nat | i < |st| && i != s ensures Quiet(st', c, i) {
      assert Quiet(st, c, i);
    }
  }

  lemma KeepsLoadRequestByte(st: State, s: nat)
    requires Inv(st) && Enabled(st, LoadRequestByte(s))
    ensures Inv(Apply(st, LoadRequestByte(s)))
  {
    var st' := Apply(st, LoadRequestByte(s));
    assert ServerOk(st, s);
    var c := st[s].serve.client;
    assert ShapeOf(st, c) && ClientOk(st, c);
    ServedWaits(st, s, c);
    forall d: nat | d < |st| ensures ServedFor(st, st', s, c, d) {
      assert ShapeOf(st, d);
    }
    ServerStep(st, st', s, c);
    ServedElsewhere(st, st', s, c);
  }

  lemma KeepsAccept(st: State, s: nat)
    requires Inv(st) && Enabled(st, Accept(s))
    ensures Inv(Apply(st, Accept(s)))
  {
    var st' := Apply(st, Accept(s));
    assert ServerOk(st, s);
    var c := st[s].serve.client;
    assert ShapeOf(st, c) && ClientOk(st, c);
    ServedWaits(st, s, c);
    forall d: nat | d < |st| ensures ServedFor(st, st', s, c, d) {
      assert ShapeOf(st, d);
    }
    ServerStep(st, st', s, c);
    ServedElsewhere(st, st', s, c);
    assert st[s].serve.buf == st[c].out.data;
  }

  lemma KeepsBeginReply(st: State, s: nat, number: nat, reply: seq<Byte>)
    requires Inv(st) && Enabled(st, BeginReply(s, number, reply))
    ensures Inv(Apply(st, BeginReply(s, number, reply)))
  {
    var st' := Apply(st, BeginReply(s, number, reply));
    assert ServerOk(st, s);
    var c := st[s].serve.client;
    assert ShapeOf(st, c) && ClientOk(st, c);
    ServedWaits(st, s, c);
    forall d: nat | d < |st| ensures ServedFor(st, st', s, c, d) {
      assert ShapeOf(st, d);
    }
    ServerStep(st, st', s, c);
    ServedElsewhere(st, st', s, c);
  }

  /** The server's side of writing the reply of c into its box, given the effect on c. */
  lemma ReplyStep(st: State, st': State, s: nat, c: nat)
    requires Inv(st) && s < |st| == |st'| && c < |st| && Serving(st[s].serve, c) && NotForOthers(st'[s].serve, c)
    requires st' == SetServe(st, s,
                             st'[s].serve)[c := st[c].(serve := st'[c].serve, inbox := st'[c].inbox,
                                                       replied := st'[c].replied)]
    requires c != s ==> st'[c].serve == st[c].serve
    requires |st'[c].inbox| == |st| && forall i: nat | i < |st| ::
               |st'[c].inbox[i].data| == BOX && (i != s ==> st'[c].inbox[i] == InboxOf(st, c, i))
    ensures Shape(st') && (ClientOk(st', c) && ServerOk(st', s) ==> Inv(st'))
    ensures QuietExcept(st', c, s)
    ensures st[c].call.Wait? && st[c].call.req.to == s && ClientOk(st, c)
  {
    assert ShapeOf(st, c) && ClientOk(st, c);
    ServedWaits(st, s, c);
    assert QuietExcept(st, c, s);
    hide ClientOk;
    forall d: nat | d < |st| ensures ServedFor(st, st', s, c, d) {
      assert ShapeOf(st, d);
    }
    ServerStep(st, st', s, c);
    ServedElsewhere(st, st', s, c);
  }

  lemma KeepsStoreReplyFrom(st: State, s: nat)
    requires Inv(st) && Enabled(st, StoreReplyFrom(s))
    ensures Inv(Apply(st, StoreReplyFrom(s)))
  {
    var st' := Apply(st, StoreReplyFrom(s));
    var c := st[s].serve.client;
    assert ServerOk(st, s) && ShapeOf(st, c);
    ReplyStep(st, st', s, c);
  }

  lemma KeepsStoreReplyByte(st: State, s: nat)
    requires Inv(st) && Enabled(st, StoreReplyByte(s))
    ensures Inv(Apply(st, StoreReplyByte(s)))
  {
    var st' := Apply(st, StoreReplyByte(s));
    var c := st[s].serve.client;
    assert ServerOk(st, s) && ShapeOf(st, c);
    ReplyStep(st, st', s, c);
    hide Inv;
    var serve := st[s].serve;
    if serve.k < |serve.reply| {
      PrefixGrows(serve.reply, st[c].inbox[s].data, serve.k);
    } else {
      assert serve.reply[..serve.k] == serve.reply;
    }
  }

  lemma KeepsPublish(st: State, s: nat)
    requires Inv(st) && Enabled(st, Publish(s))
    ensures Inv(Apply(st, Publish(s)))
  {
    var st' := Apply(st, Publish(s));
    var c := st[s].serve.client;
    assert ServerOk(st, s) && ShapeOf(st, c);
    ReplyStep(st, st', s, c);
  }

  lemma KeepsStoreReady(st: State, c: nat)
    requires Inv(st) && Enabled(st, StoreReady(c))
    ensures Inv(Apply(st, StoreReady(c)))
  {
    var st' := Apply(st, StoreReady(c));
    assert ShapeOf(st, c) && ClientOk(st, c);
    var s := st[c].call.req.to;
    BitsAreASet(st[s].bits, c);
    forall d: nat | d < |st| ensures ShapeOf(st', d) && OnlyFor(st, st', c, d) {
      assert ShapeOf(st, d);
    }
    forall i: nat | i < |st| && i != s ensures Quiet(st', c, i) {
      assert Quiet(st, c, i);
    }
    assert Quiet(st, c, s);
    assert ClientOk(st', c);
    hide ClientOk;
    OthersKeep(st, st', c);
    forall d: nat | d < |st| ensures ServerOk(st', d) {
      assert ServerOk(st, d);
      MoreBits(st, st', d);
    }
  }

  lemma MoreBits(st: State, st': State, d: nat)
    requires Shape(st) && Shape(st') && |st| == |st'| && d < |st| && ServerOk(st, d) && st'[d].serve == st[d].serve
    requires forall j | 0 <= j < 64 && st[d].bits[j] :: st'[d].bits[j]
    ensures ServerOk(st', d)
  {
    if st[d].serve.Scan? {
      var j: nat :| st[d].serve.i <= j < |st| && st[d].bits[j];
      assert st'[d].bits[j];
    }
  }

  lemma StepKeeps(st: State, step: Step)
    requires Inv(st) && Enabled(st, step)
    ensures Inv(Apply(st, step))
  {
    hide Inv, Apply, Enabled;
    match step
    case Begin(c, req) => KeepsBegin(st, c, req);
    case StoreFrom(c) => KeepsStore(st, c, step);
    case StoreNumber(c) => KeepsStore(st, c, step);
    case StoreByte(c) => KeepsStore(st, c, step);
    case StoreReady(c) => KeepsStoreReady(st, c);
    case TakeReply(c) => KeepsTakeReply(st, c);
    case LoadByte(c) => KeepsLoadByte(st, c);
    case EndCall(c) => KeepsEndCall(st, c);
    case SeeBits(s) => KeepsSeeBits(st, s);
    case CheckNext(s) => KeepsCheckNext(st, s);
    case ClearFound(s) => KeepsClearFound(st, s);
    case LoadRequestByte(s) => KeepsLoadRequestByte(st, s);
    case Accept(s) => KeepsAccept(st, s);
    case BeginReply(s, number, reply) => KeepsBeginReply(st, s, number, reply);
    case StoreReplyFrom(s) => KeepsStoreReplyFrom(st, s);
    case StoreReplyByte(s) => KeepsStoreReplyByte(st, s);
    case Publish(s) => KeepsPublish(st, s);
  }

  // ----------------------------------------------------------------------- runs

  /** Nobody has called anybody yet. */
  ghost predicate Start(st: State) {
    && Shape(st)
    && forall c: nat {:trigger st[c]} | c < |st| ::
         && st[c].call.Idle? && st[c].serve.Poll? && (forall j | 0 <= j < 64 :: !st[c].bits[j])
         && (forall s: nat | s < |st[c].inbox| :: st[c].inbox[s].number == 0)
         && st[c].sent == [] && st[c].handled == [] && st[c].replied == [] && st[c].got == []
  }

  /** The states of a run, under any interleaving of the cores' steps. */
  ghost predicate IsRun(sts: seq<State>, steps: seq<Step>) {
    && |sts| == |steps| + 1 && Start(sts[0])
    && forall i {:trigger steps[i]} | 0 <= i < |steps| ::
         |sts[i]| <= 32 && Enabled(sts[i], steps[i]) && sts[i + 1] == Apply(sts[i], steps[i])
  }

  lemma StartIsInv(st: State)
    requires Start(st)
    ensures Inv(st)
  {
    forall c: nat | c < |st| ensures ClientOk(st, c) && ServerOk(st, c) {
      assert ShapeOf(st, c);
      forall s: nat | s < |st| ensures Quiet(st, c, s) {
        assert st[s].serve.Poll?;
      }
    }
  }

  lemma {:induction false} EveryStateIsInv(sts: seq<State>, steps: seq<Step>, i: nat)
    requires IsRun(sts, steps) && i < |sts|
    ensures Inv(sts[i])
    decreases i
  {
    hide Inv, Apply, Enabled, Start;
    if i == 0 {
      StartIsInv(sts[0]);
    } else {
      EveryStateIsInv(sts, steps, i - 1);
      assert steps[i - 1] == steps[i - 1];
      StepKeeps(sts[i - 1], steps[i - 1]);
    }
  }

  /** In every run, a server's ready bit for a client is set only while that client waits
      for that server with its whole request in its output box. */
  lemma ReadyMeansWaiting(sts: seq<State>, steps: seq<Step>, i: nat, s: nat, c: nat)
    requires IsRun(sts, steps) && i < |sts| && s < |sts[i]| && c < |sts[i]| <= 31 && sts[i][s].bits[c]
    ensures sts[i][c].call.Wait? && sts[i][c].call.req.to == s && Matches(c, sts[i][c].call.req, sts[i][c].out)
  {
    EveryStateIsInv(sts, steps, i);
    ServedWaits(sts[i], s, c);
    assert ClientOk(sts[i], c);
  }

  /** In every run each request is read by its server once, in order, and as it was sent:
      what servers have read of client c is what c has sent, short of at most the request
      that is still open. */
  lemma HandledOnce(sts: seq<State>, steps: seq<Step>, i: nat, c: nat)
    requires IsRun(sts, steps) && i < |sts| && c < |sts[i]|
    ensures |sts[i][c].handled| <= |sts[i][c].sent| <= |sts[i][c].handled| + 1
    ensures forall k | 0 <= k < |sts[i][c].handled| :: Matches(c, sts[i][c].sent[k], sts[i][c].handled[k])
    ensures !sts[i][c].call.Wait? ==> |sts[i][c].handled| == |sts[i][c].sent|
  {
    EveryStateIsInv(sts, steps, i);
    assert ClientOk(sts[i], c);
  }

  /** In every run a returned msg_receive has seen the whole reply to its own request: the
      k-th reply read is the k-th reply published, and between calls all were read. */
  lemma RepliesComplete(sts: seq<State>, steps: seq<Step>, i: nat, c: nat)
    requires IsRun(sts, steps) && i < |sts| && c < |sts[i]|
    ensures |sts[i][c].got| <= |sts[i][c].replied| <= |sts[i][c].handled|
    ensures forall k | 0 <= k < |sts[i][c].got| :: sts[i][c].replied[k] <= sts[i][c].got[k]
    ensures sts[i][c].call.Idle? ==> |sts[i][c].got| == |sts[i][c].replied| == |sts[i][c].sent|
  {
    EveryStateIsInv(sts, steps, i);
    assert ClientOk(sts[i], c);
  }

  /** In every run a server that saw a non-zero bitmap finds the client it belongs to. */
  lemma ScanFinds(sts: seq<State>, steps: seq<Step>, i: nat, s: nat)
    requires IsRun(sts, steps) && i < |steps| && steps[i] == CheckNext(s)
    ensures s < |sts[i + 1]| && !sts[i + 1][s].serve.Poll?
  {
    EveryStateIsInv(sts, steps, i);
    KeepsCheckNext(sts[i], s);
  }
}
