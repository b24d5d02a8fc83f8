/** The resumable TCP write of the netconn layer (lib/lwip/api/api_msg.c, without core
    locking): do_write starts it, sent_tcp and poll_tcp carry it on, and it completes
    once, whatever the send buffer and the memory allow. */
module NetconnWrite {
  import opened Prelude

  datatype Err = Ok | Mem | WouldBlock | InProgress | NoConn | Other | Fatal

  /** A write request: the data, and whether its caller asked not to block. */
  datatype Msg = Msg(data: seq<Byte>, dontBlock: bool)

  /** What one call of do_writemore finds: what tcp_sndbuf and tcp_write answer, whether the
      send timeout has passed and whether the connection is non-blocking by now. tcp_write
      accepts all it is given or nothing. */
  datatype Tcp = Tcp(sndbuf: nat, write: Err, timedOut: bool, nonblocking: bool)

  const MAX_U16: nat := 0xFFFF

  predicate IsTcp(t: Tcp) { t.sndbuf <= MAX_U16 && (t.write == Ok || t.write == Mem || t.write == Other) }

  /** This call may not block. */
  predicate DontBlock(msg: Msg, tcp: Tcp) { tcp.nonblocking || msg.dontBlock }

  /** A request that was completed: how, the length it reports, the bytes that tcp_write
      had accepted by then, whether the call that completed it timed out or might not block,
      and whether do_writemore was ever called for it. */
  datatype Done = Done(msg: Msg, err: Err, len: nat, accepted: seq<Byte>, timedOut: bool, dontBlock: bool,
                       started: bool)

  function Rejected(msg: Msg, err: Err): Done { Done(msg, err, 0, [], false, false, false) }

  /** What a completed write promises. */
  predicate Honest(d: Done) {
    && d.accepted <= d.msg.data
    && (d.err == Ok ==> d.len == |d.accepted| > 0)
    && (d.err == Ok && !d.dontBlock && !d.timedOut ==> d.accepted == d.msg.data)
  }

  ghost predicate AllHonest(done: seq<Done>) { forall i | 0 <= i < |done| :: Honest(done[i]) }

  /** Ended by the timeout or an error after some progress. */
  predicate CutShort(d: Done) { d.accepted != [] && (d.timedOut || d.err != Ok) }

  /** The last request that do_writemore was called for was cut short. */
  ghost predicate LastCutShort(done: seq<Done>) {
    exists k | 0 <= k < |done| ::
      done[k].started && CutShort(done[k]) && forall j | k < j < |done| :: !done[j].started
  }

  lemma CutShortAppend(done: seq<Done>, d: Done)
    ensures LastCutShort(done + [d]) <==> if d.started then CutShort(d) else LastCutShort(done)
  {
    var more := done + [d];
    assert more[|done|] == d;
    if !d.started && LastCutShort(done) {
      var k :| 0 <= k < |done| && done[k].started && CutShort(done[k]) && forall j | k < j < |done| :: !done[j].started;
      assert more[k] == done[k] && forall j | k < j < |more| :: !more[j].started;
    }
    if !d.started && LastCutShort(more) {
      var k :| 0 <= k < |more| && more[k].started && CutShort(more[k]) && forall j | k < j < |more| :: !more[j].started;
      assert k < |done| && done[k] == more[k] && forall j | k < j < |done| :: !done[j].started by {
        assert forall j | 0 <= j < |done| :: more[j] == done[j];
      }
    }
  }

  /** No request is told that the connection is lost, or not there, unless it is. */
  ghost predicate NoneLost(done: seq<Done>, lastErr: Err, hasPcb: bool) {
    lastErr != Fatal ==> forall i | 0 <= i < |done| :: done[i].err != Fatal && (hasPcb ==> done[i].err != NoConn)
  }

  /** No request had a call that might not block unless its caller asked for that. */
  ghost predicate AsAsked(done: seq<Done>) { forall i | 0 <= i < |done| :: done[i].dontBlock ==> done[i].msg.dontBlock }

  /** The requests, in the order of their completion. */
  ghost function Msgs(done: seq<Done>): seq<Msg> { seq(|done|, i requires 0 <= i < |done| => done[i].msg) }

  lemma MsgsAppend(done: seq<Done>, d: Done)
    ensures multiset(Msgs(done + [d])) == multiset(Msgs(done)) + multiset{d.msg}
  {
    assert Msgs(done + [d]) == Msgs(done) + [d.msg];
  }

  datatype Event = Write(msg: Msg, tcp: Tcp) | Sent(tcp: Tcp) | Poll(tcp: Tcp) | Error

  /** How much one call of tcp_write is given: what is left, as far as a u16 and the send
      buffer go. */
  function Chunk(msg: Msg, offset: nat, tcp: Tcp): (n: nat)
    ensures offset < |msg.data| ==> offset + n <= |msg.data| && n <= tcp.sndbuf && n <= MAX_U16
  {
    var diff := if offset < |msg.data| then |msg.data| - offset else 0;
    var len := if diff > MAX_U16 then MAX_U16 else diff;
    if tcp.sndbuf < len then tcp.sndbuf else len
  }

  /** Whether this call completes the write. */
  predicate Finishes(msg: Msg, offset: nat, tcp: Tcp) {
    tcp.timedOut || DontBlock(msg, tcp) || tcp.write == Other
      || (tcp.write == Ok && offset + Chunk(msg, offset, tcp) == |msg.data|)
  }

  /** What the caller is then told. */
  function Ending(msg: Msg, offset: nat, tcp: Tcp): Err {
    if tcp.timedOut then (if offset == 0 then WouldBlock else Ok)
    else if DontBlock(msg, tcp) && Chunk(msg, offset, tcp) == 0 then WouldBlock
    else tcp.write
  }

  lemma EndingIsNoFatal(msg: Msg, offset: nat, tcp: Tcp)
    requires IsTcp(tcp)
    ensures Ending(msg, offset, tcp) != Fatal && Ending(msg, offset, tcp) != NoConn
  {
  }

  /** The write is completed as this call of do_writemore found things. */
  ghost predicate Ends(was: seq<Done>, done: seq<Done>, msg: Msg, offset: nat, tcp: Tcp, accepted: seq<Byte>) {
    && |done| == |was| + 1
    && done == was + [Done(msg, Ending(msg, offset, tcp), done[|was|].len, accepted, tcp.timedOut,
                           DontBlock(msg, tcp), true)]
  }

  class Conn {
    var writing: bool               // state is NETCONN_WRITE
    var current: Option<Msg>        // current_msg
    var writeOffset: nat
    var hasPcb: bool
    var lastErr: Err
    ghost var accepted: seq<Byte>   // what tcp_write took of the current request
    ghost var calls: nat            // requests made so far
    var completions: nat            // signals given to their callers
    ghost var done: seq<Done>
    ghost var switched: bool        // some call found the connection non-blocking

    constructor (hasPcb: bool)
      ensures Valid() && calls == 0 && !writing && writeOffset == 0 && done == [] && this.hasPcb == hasPcb
        && lastErr == Ok && !switched
    {
      writing, current, writeOffset, this.hasPcb, lastErr := false, None, 0, hasPcb, Ok;
      accepted, calls, completions, done, switched := [], 0, 0, [], false;
    }

    /** The requests made so far: those completed and the one being written. */
    ghost function Requests(): multiset<Msg>
      reads this
    {
      multiset(Msgs(done)) + (if current.Some? then multiset{current.value} else multiset{})
    }

    /** Every request but the one being written has been completed exactly once, and an
        offset is left over exactly when the last write was cut short. */
    ghost predicate Valid()
      reads this
    {
      && (writing <==> current.Some?)
      && (writing ==>
            && hasPcb && lastErr != Fatal && writeOffset < |current.value.data|
            && accepted == current.value.data[..writeOffset])
      && calls == completions + (if writing then 1 else 0) && |done| == completions
      && AllHonest(done) && NoneLost(done, lastErr, hasPcb) && (!switched ==> AsAsked(done))
      && (!writing ==> (writeOffset != 0 <==> LastCutShort(done)))
    }

    /** The caller is told, and the connection is idle again. */
    method Complete(err: Err, len: nat, ghost timedOut: bool, ghost dontBlock: bool)
      requires current.Some? && writing && |done| == completions && calls == completions + 1
      requires AllHonest(done) && Honest(Done(current.value, err, len, accepted, timedOut, dontBlock, true))
      requires writeOffset != 0 <==> CutShort(Done(current.value, err, len, accepted, timedOut, dontBlock, true))
      requires NoneLost(done, lastErr, hasPcb) && err != NoConn && (err == Fatal ==> lastErr == Fatal)
      requires !switched ==> AsAsked(done) && (dontBlock ==> current.value.dontBlock)
      modifies this
      ensures Valid() && !writing && calls == old(calls) && completions == old(completions) + 1
      ensures hasPcb == old(hasPcb) && lastErr == old(lastErr) && writeOffset == old(writeOffset)
        && accepted == old(accepted) && switched == old(switched)
      ensures done == old(done) + [Done(old(current).value, err, len, accepted, timedOut, dontBlock, true)]
        && Requests() == old(Requests())
    {
      ghost var d := Done(current.value, err, len, accepted, timedOut, dontBlock, true);
      CutShortAppend(done, d);
      MsgsAppend(done, d);
      hide LastCutShort, Msgs, CutShort, Honest;
      done := done + [d];
      current, writing, completions := None, false, completions + 1;
    }

    /** The caller is told at once. */
    method Reject(msg: Msg, err: Err)
      requires Valid() && err != Ok && (err == Fatal ==> lastErr == Fatal) && (err == NoConn ==> !hasPcb)
      modifies this
      ensures Valid() && calls == old(calls) + 1 && Requests() == old(Requests()) + multiset{msg}
      ensures writing == old(writing) && current == old(current) && hasPcb == old(hasPcb) && lastErr == old(lastErr)
      ensures writeOffset == old(writeOffset) && accepted == old(accepted) && done == old(done) + [Rejected(msg, err)]
        && switched == old(switched)
    {
      CutShortAppend(done, Rejected(msg, err));
      MsgsAppend(done, Rejected(msg, err));
      hide LastCutShort, Msgs, CutShort;
      calls, completions, done := calls + 1, completions + 1, done + [Rejected(msg, err)];
    }

    /** do_writemore up to the point where it tells the caller, if it has finished. */
    method WriteChunk(tcp: Tcp) returns (finished: bool, err: Err, len: nat)
      requires Valid() && writing && IsTcp(tcp)
      modifies this`writeOffset, this`accepted
      ensures old(accepted) <= accepted
      ensures |accepted| == |old(accepted)| + (if tcp.timedOut || tcp.write != Ok then 0
                                               else Chunk(current.value, old(writeOffset), tcp))
      ensures finished <==> Finishes(current.value, old(writeOffset), tcp)
      ensures !finished && tcp.write == Ok && tcp.sndbuf > 0 ==> writeOffset > old(writeOffset)
      ensures !finished ==> writeOffset < |current.value.data| && accepted == current.value.data[..writeOffset]
      ensures finished ==>
        && err == Ending(current.value, old(writeOffset), tcp)
        && var d := Done(current.value, err, len, accepted, tcp.timedOut, DontBlock(current.value, tcp), true);
           Honest(d) && (writeOffset != 0 <==> CutShort(d))
      ensures finished ==> (writeOffset == 0 <==> (err == Ok && !tcp.timedOut) || old(writeOffset) == 0)
    {
      hide AllHonest, LastCutShort, NoneLost, AsAsked;
      var msg := current.value;
      if tcp.timedOut {
        return true, if writeOffset == 0 then WouldBlock else Ok, writeOffset;
      }
      var dontBlock := DontBlock(msg, tcp);
      var diff := |msg.data| - writeOffset;
      var n := if diff > MAX_U16 then MAX_U16 else diff;
      if tcp.sndbuf < n {
        n := tcp.sndbuf;
        if dontBlock && n == 0 {
          return true, WouldBlock, 0;
        }
      }
      if tcp.write == Ok {
        Accepted(msg.data, writeOffset, n);
        accepted := accepted + msg.data[writeOffset..writeOffset + n];
        writeOffset := writeOffset + n;
        finished, err, len := writeOffset == |msg.data| || dontBlock, Ok, writeOffset;
        if finished {
          writeOffset := 0;
        }
      } else {
        // out of memory is left to sent_tcp and poll_tcp, unless the caller does not wait
        finished, err, len := tcp.write != Mem || dontBlock, tcp.write, 0;
      }
    }

    /** do_writemore. A completed write leaves write_offset at 0 exactly when it ended well
        and in time, or had got nowhere. */
    method WriteMore(tcp: Tcp)
      requires Valid() && writing && IsTcp(tcp)
      modifies this
      ensures Valid() && calls == old(calls) && hasPcb == old(hasPcb) && lastErr == old(lastErr)
        && Requests() == old(Requests()) && switched == (old(switched) || tcp.nonblocking)
      ensures old(accepted) <= accepted
      ensures |accepted| == |old(accepted)| + (if tcp.timedOut || tcp.write != Ok then 0
                                               else Chunk(old(current).value, old(writeOffset), tcp))
      ensures writing <==> !Finishes(old(current).value, old(writeOffset), tcp)
      ensures writing ==> current == old(current) && done == old(done)
      ensures writing && tcp.write == Ok && tcp.sndbuf > 0 ==> writeOffset > old(writeOffset)
      ensures !writing ==> Ends(old(done), done, old(current).value, old(writeOffset), tcp, accepted)
      ensures !writing ==>
        (writeOffset == 0 <==>
         (Ending(old(current).value, old(writeOffset), tcp) == Ok && !tcp.timedOut) || old(writeOffset) == 0)
    {
      hide AllHonest, LastCutShort, Msgs, NoneLost, AsAsked, Honest, CutShort, Ending, Finishes;
      ghost var dontBlock := DontBlock(current.value, tcp);
      var finished, err, len := WriteChunk(tcp);
      switched := switched || tcp.nonblocking;
      if finished {
        EndingIsNoFatal(current.value, old(writeOffset), tcp);
        Complete(err, len, tcp.timedOut, dontBlock);
      }
    }

    /** do_write. `asserted` is whether its assertion that no offset was left over holds:
        it fails exactly when a write is started after one that was cut short. */
    method DoWrite(msg: Msg, tcp: Tcp) returns (asserted: bool)
      requires Valid() && IsTcp(tcp) && msg.data != []
      modifies this
      ensures Valid() && calls == old(calls) + 1 && old(done) <= done && hasPcb == old(hasPcb)
        && lastErr == old(lastErr) && (switched ==> old(switched) || tcp.nonblocking)
      ensures Requests() == old(Requests()) + multiset{msg}
      ensures asserted <==> old(writing) || old(lastErr) == Fatal || !old(hasPcb) || !LastCutShort(old(done))
      ensures old(lastErr) == Fatal ==> done == old(done) + [Rejected(msg, Fatal)] && !writing
      ensures old(lastErr) != Fatal && old(writing) ==>
        && done == old(done) + [Rejected(msg, InProgress)] && writing && current == old(current)
        && writeOffset == old(writeOffset) && accepted == old(accepted)
      ensures old(lastErr) != Fatal && !old(writing) && !old(hasPcb) ==>
        done == old(done) + [Rejected(msg, NoConn)] && !writing
      ensures old(lastErr) != Fatal && !old(writing) && old(hasPcb) ==>
        && (writing <==> !Finishes(msg, 0, tcp))
        && |accepted| == (if tcp.timedOut || tcp.write != Ok then 0 else Chunk(msg, 0, tcp))
        && if writing then current == Some(msg) && done == old(done)
           else Ends(old(done), done, msg, 0, tcp, accepted) && writeOffset == 0
    {
      hide LastCutShort, Msgs, AllHonest, NoneLost, AsAsked;
      asserted := true;
      if lastErr == Fatal {
        Reject(msg, Fatal);
      } else if writing {
        Reject(msg, InProgress);
      } else if !hasPcb {
        Reject(msg, NoConn);
      } else {
        asserted := writeOffset == 0;
        writing, current, writeOffset := true, Some(msg), 0;
        accepted, calls := [], calls + 1;
        WriteMore(tcp);
      }
    }

    /** The write part of sent_tcp and of poll_tcp. */
    method Resume(tcp: Tcp)
      requires Valid() && IsTcp(tcp)
      modifies this
      ensures Valid() && calls == old(calls) && old(done) <= done && hasPcb == old(hasPcb) && lastErr == old(lastErr)
      ensures Requests() == old(Requests()) && (switched ==> old(switched) || tcp.nonblocking)
      ensures !old(writing) ==> !writing && done == old(done) && writeOffset == old(writeOffset)
      ensures old(writing) ==> (writing <==> !Finishes(old(current).value, old(writeOffset), tcp))
      ensures old(writing) ==>
        |accepted| == |old(accepted)| + (if tcp.timedOut || tcp.write != Ok then 0
                                         else Chunk(old(current).value, old(writeOffset), tcp))
      ensures old(writing) && writing ==> current == old(current) && done == old(done) && writeOffset == |accepted|
      ensures old(writing) && !writing ==>
        && Ends(old(done), done, old(current).value, old(writeOffset), tcp, accepted)
        && (writeOffset == 0 <==> !CutShort(done[|done| - 1]))
    {
      hide LastCutShort, Msgs, AllHonest, NoneLost, AsAsked;
      if writing {
        WriteMore(tcp);
      }
    }

    /** err_tcp: the pcb is gone; a write in progress is completed with the error. */
    method ErrTcp()
      requires Valid()
      modifies this
      ensures Valid() && !writing && !hasPcb && lastErr == Fatal && calls == old(calls) && calls == completions
      ensures Requests() == old(Requests()) && writeOffset == old(writeOffset) && switched == old(switched)
      ensures done == old(done) + (if old(writing) then [Done(old(current).value, Fatal, |old(current).value.data|,
                                                              old(accepted), false, false, true)] else [])
    {
      hide LastCutShort, Msgs, AllHonest, AsAsked;
      hasPcb, lastErr := false, Fatal;
      if writing {
        Complete(Fatal, |current.value.data|, false, false);
      }
    }

    method Handle(event: Event)
      requires Valid() && (!event.Error? ==> IsTcp(event.tcp)) && (event.Write? ==> event.msg.data != [])
      modifies this
      ensures Valid() && calls == old(calls) + (if event.Write? then 1 else 0)
      ensures Requests() == old(Requests()) + (if event.Write? then multiset{event.msg} else multiset{})
      ensures lastErr == (if event.Error? then Fatal else old(lastErr)) && hasPcb == (old(hasPcb) && !event.Error?)
      ensures switched ==> old(switched) || (!event.Error? && event.tcp.nonblocking)
    {
      hide Valid, Requests, LastCutShort;
      match event
      case Write(msg, tcp) => var _ := DoWrite(msg, tcp);
      case Sent(tcp) => Resume(tcp);
      case Poll(tcp) => Resume(tcp);
      case Error => ErrTcp();
    }
  }

  lemma Accepted(data: seq<Byte>, off: nat, len: nat)
    requires off + len <= |data|
    ensures data[..off] + data[off..off + len] == data[..off + len]
      && (off + len == |data| ==> data[..off + len] == data)
  {
  }

  /** The requests among the events. */
  function Writes(events: seq<Event>): seq<Msg> {
    if events == [] then []
    else
      var n := |events| - 1;
      Writes(events[..n]) + (if events[n].Write? then [events[n].msg] else [])
  }

  lemma WritesStep(events: seq<Event>, i: nat)
    requires i < |events|
    ensures Writes(events[..i + 1]) == Writes(events[..i]) + (if events[i].Write? then [events[i].msg] else [])
    ensures Error in events[..i + 1] <==> Error in events[..i] || events[i].Error?
  {
    assert events[..i + 1][..i] == events[..i] && events[..i + 1] == events[..i] + [events[i]];
  }

  /** Some call finds the connection non-blocking. */
  ghost predicate Switches(events: seq<Event>) {
    exists i | 0 <= i < |events| :: !events[i].Error? && events[i].tcp.nonblocking
  }

  lemma SwitchesStep(events: seq<Event>, i: nat)
    requires i < |events|
    ensures Switches(events[..i]) || (!events[i].Error? && events[i].tcp.nonblocking) ==> Switches(events[..i + 1])
  {
    var some := events[..i + 1];
    assert some[i] == events[i] && forall j | 0 <= j < i :: some[j] == events[..i][j];
  }

  method HandleAll(conn: Conn, events: seq<Event>)
    requires conn.Valid()
    requires forall e | e in events && !e.Error? :: IsTcp(e.tcp)
    requires forall e | e in events && e.Write? :: e.msg.data != []
    modifies conn
    ensures conn.Valid() && conn.calls == old(conn.calls) + |Writes(events)|
    ensures conn.Requests() == old(conn.Requests()) + multiset(Writes(events))
    ensures conn.lastErr == (if Error in events then Fatal else old(conn.lastErr))
      && conn.hasPcb == (old(conn.hasPcb) && Error !in events)
    ensures conn.switched ==> old(conn.switched) || Switches(events)
  {
    assert events[..0] == [] && Writes([]) == [];
    hide Conn.Valid, Conn.Requests, Writes, IsTcp, Switches;
    for i := 0 to |events|
      invariant conn.Valid() && conn.calls == old(conn.calls) + |Writes(events[..i])|
      invariant conn.Requests() == old(conn.Requests()) + multiset(Writes(events[..i]))
      invariant conn.lastErr == (if Error in events[..i] then Fatal else old(conn.lastErr))
      invariant conn.hasPcb == (old(conn.hasPcb) && Error !in events[..i])
      invariant conn.switched ==> old(conn.switched) || Switches(events[..i])
    {
      WritesStep(events, i);
      SwitchesStep(events, i);
      assert events[i] in events;
      conn.Handle(events[i]);
    }
    assert events[..|events|] == events;
  }

  /** Any interleaving of writes and callbacks: every request is completed exactly once but
      possibly the last started, every completed one is honest, and no connection is
      reported lost unless it is. */
  method Session(events: seq<Event>, hasPcb: bool) returns (conn: Conn)
    requires forall e | e in events && !e.Error? :: IsTcp(e.tcp)
    requires forall e | e in events && e.Write? :: e.msg.data != []
    ensures fresh(conn) && conn.Valid() && |conn.done| == conn.completions <= conn.calls <= conn.completions + 1
    ensures AllHonest(conn.done) && NoneLost(conn.done, if Error in events then Fatal else Ok, hasPcb)
    ensures conn.calls == |Writes(events)| && conn.Requests() == multiset(Writes(events))
    ensures (conn.lastErr == Fatal <==> Error in events) && (conn.hasPcb <==> hasPcb && Error !in events)
    ensures !Switches(events) ==> AsAsked(conn.done)
  {
    conn := new Conn(hasPcb);
    assert conn.Requests() == multiset{} by { assert Msgs([]) == []; }
    hide Writes, IsTcp, LastCutShort, Msgs;
    HandleAll(conn, events);
  }

  /** The assertion of do_write fails: two bytes are written, one is accepted, the timeout
      passes, and then another byte is written. */
  method LeavesOffset() returns (conn: Conn, first: bool, second: bool)
    ensures fresh(conn) && conn.Valid() && first && !second && conn.hasPcb && conn.lastErr == Ok
  {
    conn := new Conn(true);
    first := conn.DoWrite(Msg([0, 0], false), Tcp(1, Ok, false, false));
    assert conn.writing;
    conn.Resume(Tcp(1, Ok, true, false));
    second := conn.DoWrite(Msg([0], false), Tcp(1, Ok, false, false));
  }

  /** A caller that waits for three bytes is told that two were written: the connection was
      made non-blocking in between. */
  method Switched() returns (conn: Conn)
    ensures fresh(conn) && conn.Valid() && !conn.writing && |conn.done| == 1
    ensures
      var d := conn.done[0];
      !d.msg.dontBlock && d.err == Ok && !d.timedOut && d.len == 2 < |d.msg.data|
  {
    conn := new Conn(true);
    var _ := conn.DoWrite(Msg([0, 0, 0], false), Tcp(1, Ok, false, false));
    assert conn.writing;
    conn.Resume(Tcp(1, Ok, false, true));
    assert Honest(conn.done[0]);
  }
}
