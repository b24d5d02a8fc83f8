/** Receiving on a TCP socket (lwip_recvfrom in lib/lwip/api/sockets.c): segments of any
    size are handed out in pieces of any size, over any number of calls. */
module StreamReceive {
  import opened Prelude

  /** A received pbuf chain, the bytes of its pbufs in order, and its push flag. */
  datatype Segment = Segment(pbufs: seq<seq<Byte>>, push: bool)

  function Join(parts: seq<seq<Byte>>): seq<Byte> {
    if parts == [] then [] else parts[0] + Join(parts[1..])
  }

  function Bytes(seg: Segment): seq<Byte> { Join(seg.pbufs) }

  /** The bytes of segments waiting in the receive mailbox. */
  function Queued(queue: seq<Segment>): seq<Byte> {
    if queue == [] then [] else Bytes(queue[0]) + Queued(queue[1..])
  }

  lemma {:induction false} QueuedConcat(a: seq<Segment>, b: seq<Segment>)
    ensures Queued(a + b) == Queued(a) + Queued(b)
  {
    hide Bytes;
    if a == [] {
      assert a + b == b;
    } else {
      QueuedConcat(a[1..], b);
      assert (a + b)[0] == a[0] && (a + b)[1..] == a[1..] + b;
      Assoc(Bytes(a[0]), Queued(a[1..]), Queued(b));
    }
  }

  lemma {:induction false} JoinStep(parts: seq<seq<Byte>>, k: nat)
    requires k < |parts|
    ensures Join(parts[..k + 1]) == Join(parts[..k]) + parts[k]
  {
    if k == 0 {
      assert parts[..1] == [parts[0]] && parts[..0] == [] && Join([parts[0]]) == parts[0] + Join([]);
    } else {
      JoinStep(parts[1..], k - 1);
      assert parts[..k + 1][1..] == parts[1..][..k] && parts[..k][1..] == parts[1..][..k - 1];
    }
  }

  lemma {:induction false} JoinPrefix(parts: seq<seq<Byte>>, k: nat)
    requires k <= |parts|
    ensures Join(parts[..k]) <= Join(parts)
    decreases |parts| - k
  {
    if k == |parts| {
      assert parts[..k] == parts;
    } else {
      JoinStep(parts, k);
      JoinPrefix(parts, k + 1);
    }
  }

  /** A slice of the k-th pbuf is a slice of the whole. */
  lemma PbufSlice(pbufs: seq<seq<Byte>>, k: nat, pos: nat, skip: nat, n: nat)
    requires k < |pbufs| && skip + n <= |pbufs[k]| && pos == |Join(pbufs[..k])|
    ensures |Join(pbufs[..k + 1])| == pos + |pbufs[k]| <= |Join(pbufs)|
    ensures pbufs[k][skip..skip + n] == Join(pbufs)[pos + skip..pos + skip + n]
  {
    hide Join;
    JoinStep(pbufs, k);
    JoinPrefix(pbufs, k + 1);
    var all, upto, before := Join(pbufs), Join(pbufs[..k + 1]), Join(pbufs[..k]);
    assert all[..|upto|] == before + pbufs[k];
  }

  lemma SliceConcat(s: seq<Byte>, a: nat, b: nat, c: nat)
    requires a <= b <= c <= |s|
    ensures s[a..b] + s[b..c] == s[a..c]
  {
  }

  /** pbuf_copy_partial: walks the chain, but copies what a flat copy would. */
  method CopyPartial(pbufs: seq<seq<Byte>>, len: nat, offset: nat) returns (copied: seq<Byte>)
    requires offset + len <= |Join(pbufs)|
    ensures copied == Join(pbufs)[offset..offset + len]
  {
    ghost var all := Join(pbufs);
    assert Join(pbufs[..0]) == [];
    hide Join;
    var left, skip: nat := len, offset;
    copied := [];
    var k := 0;
    ghost var pos: nat := 0;
    while k < |pbufs| && left != 0
      invariant k <= |pbufs| && |copied| + left == len && left >= 0 && pos == |Join(pbufs[..k])|
      invariant left > 0 ==> pos + skip == offset + |copied|
      invariant copied == all[offset..offset + |copied|]
    {
      if skip != 0 && skip >= |pbufs[k]| {
        PbufSlice(pbufs, k, pos, 0, 0);
        skip := skip - |pbufs[k]|;
      } else {
        var n := if |pbufs[k]| - skip > left then left else |pbufs[k]| - skip;
        PbufSlice(pbufs, k, pos, skip, n);
        SliceConcat(all, offset, offset + |copied|, offset + |copied| + n);
        copied := copied + pbufs[k][skip..skip + n];
        left := left - n;
        skip := 0;
      }
      pos := pos + |pbufs[k]|;
      k := k + 1;
    }
    assert pbufs[..|pbufs|] == pbufs;
  }

  // -------------------------------------------------------- what one call does

  datatype Error = Closed | Failed

  /** What the rest of the system does around one turn of the receive loop: segments that
      arrive, the event counter as the loop sees it before and after taking a segment, and
      what a receive reports when there is none. */
  datatype Turn = Turn(arriving: seq<Segment>, rcvevent: int, later: int, error: Error)

  const QUIET: Turn := Turn([], 0, 0, Failed)

  /** A receive, and what happens while it runs: after `turns` nothing does. */
  datatype Call = Call(size: nat, peek: bool, dontWait: bool, turns: seq<Turn>)

  function TurnAt(turns: seq<Turn>, k: nat): Turn { if k < |turns| then turns[k] else QUIET }

  /** The segments that arrive in the first n turns. */
  function Arrived(turns: seq<Turn>, n: nat): seq<Segment> {
    if n == 0 then [] else Arrived(turns, n - 1) + TurnAt(turns, n - 1).arriving
  }

  /** What a socket has received and not yet handed out. */
  datatype Inbox = Inbox(lastdata: Option<Segment>, lastoffset: nat, queue: seq<Segment>)

  function Waiting(inbox: Inbox): seq<Segment> {
    (if inbox.lastdata.Some? then [inbox.lastdata.value] else []) + inbox.queue
  }

  datatype Stop = Full | Push | NoEvent | Peeking | WouldBlock | Empty

  /** How a call went: the number of turns, the segments it read from, and why it ended. */
  datatype Course = Course(rounds: nat, taken: seq<Segment>, why: Stop)

  ghost predicate StopsFor(call: Call, data: seq<Byte>, c: Course, after: Inbox) {
    && c.rounds > 0
    && match c.why
       case Full => c.taken != [] && |data| == call.size
       case Push => c.taken != [] && c.taken[|c.taken| - 1].push
       case NoEvent => c.taken != [] && TurnAt(call.turns, c.rounds - 1).later <= 0
       case Peeking => call.peek && |c.taken| == 1
       case WouldBlock => call.dontWait && TurnAt(call.turns, c.rounds - 1).rcvevent <= 0 && after.lastdata.None?
       case Empty =>
         && after.lastdata.None? && after.queue == []
         && (call.dontWait ==> TurnAt(call.turns, c.rounds - 1).rcvevent > 0)
  }

  predicate FoundNothing(why: Stop) { why.WouldBlock? || why.Empty? }

  /** No turn before turn n gave a reason to stop: taken are the segments read in them. */
  ghost predicate WentOn(before: Inbox, call: Call, taken: seq<Segment>, n: nat) {
    && |taken| == n && (n > 0 ==> !call.peek)
    && (forall k | 0 <= k < n :: !taken[k].push)
    && (forall k | 0 <= k < n :: TurnAt(call.turns, k).later > 0)
    && (n > 0 ==> |Queued(taken)| < before.lastoffset + call.size)
  }

  /** In each of the first n turns there was a segment to take, and a call that may not
      wait saw the event of it. */
  ghost predicate HadSome(before: Inbox, call: Call, n: nat) {
    && (forall k | 0 < k <= n :: k <= |Waiting(before)| + |Arrived(call.turns, k)|)
    && (call.dontWait ==> forall k | 0 <= k < n ::
          (k == 0 && before.lastdata.Some?) || TurnAt(call.turns, k).rcvevent > 0)
  }

  /** slice is what follows the first `offset` bytes of all, up to len of it. */
  predicate IsSlice(all: seq<Byte>, offset: nat, len: nat, slice: seq<Byte>) {
    && offset <= |all| && |slice| == (if len < |all| - offset then len else |all| - offset)
    && slice == all[offset..offset + |slice|]
  }

  /** The segments a call reads from are the first of those waiting or arriving, one for
      each turn; it returns what is left of the first one and all of the others, as far as
      the size goes; and it stops in the first turn that gives a reason to. */
  ghost predicate Explains(before: Inbox, call: Call, ret: int, data: seq<Byte>, c: Course, after: Inbox) {
    && 0 < c.rounds <= |call.turns| + 1 && |c.taken| == c.rounds - (if FoundNothing(c.why) then 1 else 0)
    && (before.lastdata.Some? ==> c.taken != [])
    && Waiting(before) + Arrived(call.turns, c.rounds) == c.taken + after.queue
    && WentOn(before, call, c.taken[..c.rounds - 1], c.rounds - 1) && HadSome(before, call, |c.taken|)
    && StopsFor(call, data, c, after)
    && IsRead(before, call, c.taken, data)
    && ret == (if FoundNothing(c.why) && data == [] then
                 if c.why.Empty? && TurnAt(call.turns, c.rounds - 1).error == Closed then 0 else -1
               else |data|)
  }

  ghost predicate IsRead(before: Inbox, call: Call, taken: seq<Segment>, data: seq<Byte>) {
    if taken == [] then data == [] else IsSlice(Queued(taken), before.lastoffset, call.size, data)
  }

  /** A call that has had n turns and goes on. */
  ghost predicate SoFar(before: Inbox, call: Call, taken: seq<Segment>, data: seq<Byte>, n: nat, inbox: Inbox) {
    && WentOn(before, call, taken, n) && HadSome(before, call, n) && IsRead(before, call, taken, data)
    && Waiting(before) + Arrived(call.turns, n) == taken + Waiting(inbox)
    && (if n == 0 then inbox == before else inbox.lastdata.None? && inbox.lastoffset == 0)
  }

  lemma ArrivedMore(stream: seq<Byte>, turns: seq<Turn>, n: nat)
    ensures stream + Queued(Arrived(turns, n + 1))
      == (stream + Queued(Arrived(turns, n))) + Queued(TurnAt(turns, n).arriving)
  {
    QueuedConcat(Arrived(turns, n), TurnAt(turns, n).arriving);
    hide Queued;
    Assoc(stream, Queued(Arrived(turns, n)), Queued(TurnAt(turns, n).arriving));
  }

  lemma EndsWithNothing(before: Inbox, call: Call, taken: seq<Segment>, data: seq<Byte>, n: nat, inbox: Inbox,
                        after: Inbox, ret: int)
    requires SoFar(before, call, taken, data, n, inbox) && n <= |call.turns| && inbox.lastdata.None?
      && after.lastdata.None?
    requires Waiting(inbox) + TurnAt(call.turns, n).arriving == after.queue
    requires (call.dontWait && TurnAt(call.turns, n).rcvevent <= 0) || after.queue == []
    requires ret == if data != [] then |data|
                    else if TurnAt(call.turns, n).error == Closed && !(call.dontWait
                                                                       && TurnAt(call.turns, n).rcvevent <= 0) then
                                                                         0 else -1
    ensures
      var why := if call.dontWait && TurnAt(call.turns, n).rcvevent <= 0 then WouldBlock else Empty;
      Explains(before, call, ret, data, Course(n + 1, taken, why), after)
  {
    hide Queued, Waiting;
    assert taken[..n] == taken;
    Assoc(Waiting(before), Arrived(call.turns, n), TurnAt(call.turns, n).arriving);
    Assoc(taken, Waiting(inbox), TurnAt(call.turns, n).arriving);
  }

  lemma ReadMore(before: Inbox, call: Call, taken: seq<Segment>, data: seq<Byte>, n: nat, inbox: Inbox, seg: Segment,
                 copied: seq<Byte>)
    requires SoFar(before, call, taken, data, n, inbox) && |data| <= call.size
    requires IsSlice(Bytes(seg), inbox.lastoffset, call.size - |data|, copied)
    ensures IsRead(before, call, taken + [seg], data + copied)
    ensures |data + copied| < call.size ==> |Queued(taken + [seg])| < before.lastoffset + call.size
  {
    QueuedConcat(taken, [seg]);
    assert Queued([seg]) == Bytes(seg) + Queued([]) == Bytes(seg);
    assert n == 0 ==> Queued(taken) == [];
    hide Queued, Bytes;
    if n > 0 {
      SliceGrows(Queued(taken), before.lastoffset, data, Bytes(seg), copied);
    }
  }

  lemma SliceGrows(all: seq<Byte>, offset: nat, data: seq<Byte>, more: seq<Byte>, copied: seq<Byte>)
    requires offset <= |all| && all[offset..|all|] == data && copied <= more
    ensures (all + more)[offset..offset + |data + copied|] == data + copied
  {
    assert (all + more)[offset..] == data + more;
  }

  lemma TakesOne(before: Inbox, call: Call, taken: seq<Segment>, data: seq<Byte>, n: nat, inbox: Inbox,
                 seg: Segment, copied: seq<Byte>, after: Inbox, why: Stop)
    requires SoFar(before, call, taken, data, n, inbox) && |data| <= call.size && n <= |call.turns|
    requires IsSlice(Bytes(seg), inbox.lastoffset, call.size - |data|, copied)
    requires Waiting(inbox) + TurnAt(call.turns, n).arriving == [seg] + after.queue
    requires call.dontWait ==> inbox.lastdata.Some? || TurnAt(call.turns, n).rcvevent > 0
    requires why == if |data + copied| == call.size then Full else if seg.push then Push
                    else if TurnAt(call.turns, n).later <= 0 then NoEvent else Peeking
    ensures
      var done := |data + copied| == call.size || seg.push || TurnAt(call.turns, n).later <= 0 || call.peek;
      if done then Explains(before, call, |data + copied|, data + copied, Course(n + 1, taken + [seg], why), after)
      else after.lastdata.None? && after.lastoffset == 0 ==>
        SoFar(before, call, taken + [seg], data + copied, n + 1, after)
  {
    ReadMore(before, call, taken, data, n, inbox, seg, copied);
    hide Queued, IsRead;
    assert (taken + [seg])[..n] == taken;
    Assoc(Waiting(before), Arrived(call.turns, n), TurnAt(call.turns, n).arriving);
    Assoc(taken, Waiting(inbox), TurnAt(call.turns, n).arriving);
    Assoc(taken, [seg], after.queue);
  }

  lemma {:induction false} ArrivedPrefix(turns: seq<Turn>, a: nat, b: nat)
    requires a <= b
    ensures Arrived(turns, a) <= Arrived(turns, b)
  {
    if a < b {
      ArrivedPrefix(turns, a, b - 1);
    }
  }

  lemma QueuedPrefix(segs: seq<Segment>, k: nat)
    requires k <= |segs|
    ensures |Queued(segs[..k])| <= |Queued(segs)|
  {
    assert segs == segs[..k] + segs[k..];
    QueuedConcat(segs[..k], segs[k..]);
  }

  /** A call that reads less turns than another would have stopped the other as well. */
  lemma NoLater(before: Inbox, call: Call, ret: int, data: seq<Byte>, c: Course, after: Inbox,
                ret': int, data': seq<Byte>, c': Course, after': Inbox)
    requires Explains(before, call, ret, data, c, after) && Explains(before, call, ret', data', c', after')
    ensures c.rounds >= c'.rounds
  {
    if c.rounds < c'.rounds {
      hide Queued, Arrived, Waiting;
      var n, have := c.rounds, Waiting(before) + Arrived(call.turns, c.rounds);
      ArrivedPrefix(call.turns, n, c'.rounds);
      assert have <= c'.taken + after'.queue;
      if !FoundNothing(c.why) {
        assert c'.taken[..n] == c.taken by { assert c.taken == have[..n]; }
        assert c'.taken[..c'.rounds - 1][..n] == c.taken;
        QueuedPrefix(c'.taken[..c'.rounds - 1], n);
      }
    }
  }

  /** So the explanation leaves nothing open: what a call returns and what it reads from
      follow from what it finds and what happens while it runs. */
  lemma OneOutcome(before: Inbox, call: Call, ret: int, data: seq<Byte>, c: Course, after: Inbox,
                   ret': int, data': seq<Byte>, c': Course, after': Inbox)
    requires Explains(before, call, ret, data, c, after) && Explains(before, call, ret', data', c', after')
    ensures ret == ret' && data == data' && c.rounds == c'.rounds && c.taken == c'.taken && after.queue == after'.queue
  {
    hide Queued, Arrived, Waiting;
    NoLater(before, call, ret, data, c, after, ret', data', c', after');
    NoLater(before, call, ret', data', c', after', ret, data, c, after);
    var have := Waiting(before) + Arrived(call.turns, c.rounds);
    if |c.taken| == |c'.taken| {
      assert c.taken == have[..|c.taken|] == c'.taken;
      assert after.queue == have[|c.taken|..] == after'.queue;
    }
  }

  /** A call that may wait, has room and finds a segment with bytes left returns some. */
  lemma Progress(before: Inbox, call: Call, ret: int, data: seq<Byte>, c: Course, after: Inbox)
    requires Explains(before, call, ret, data, c, after) && !call.dontWait && call.size > 0
    requires Waiting(before) != [] && before.lastoffset < |Bytes(Waiting(before)[0])|
    ensures ret == |data| > 0
  {
    hide Arrived, Bytes, Waiting;
    var have := Waiting(before) + Arrived(call.turns, c.rounds);
    assert have[0] == Waiting(before)[0];
    assert c.taken != [];
    assert c.taken[0] == have[0];
    assert |Queued(c.taken)| >= |Bytes(c.taken[0])|;
  }

  // ------------------------------------------------------------------ the socket

  class StreamSocket {
    var queue: seq<Segment>
    var lastdata: Option<Segment>
    var lastoffset: nat
    var recved: nat                     // total passed to netconn_recved
    ghost var stream: seq<Byte>         // everything the network has delivered
    ghost var unread: seq<Byte>         // the part of it that was not returned yet
    ghost var returned: seq<Byte>       // everything non-peeking calls have returned
    ghost var peeked: nat               // bytes returned by peeking calls

    constructor ()
      ensures Valid() && stream == [] && returned == [] && peeked == 0 && State() == Inbox(None, 0, [])
    {
      queue, lastdata, lastoffset, recved := [], None, 0, 0;
      stream, unread, returned, peeked := [], [], [], 0;
    }

    ghost function State(): Inbox
      reads this
    {
      Inbox(lastdata, lastoffset, queue)
    }

    /** What is left of the last segment, and the segments behind it, are what is unread. */
    ghost predicate Holds()
      reads this
    {
      if lastdata.Some? then
        lastoffset <= |Bytes(lastdata.value)| && unread == Bytes(lastdata.value)[lastoffset..] + Queued(queue)
      else lastoffset == 0 && unread == Queued(queue)
    }

    /** Nothing is lost, duplicated or reordered, and the window update is exact but for
        what was peeked at. */
    ghost predicate Valid()
      reads this
    {
      Holds() && stream == returned + unread && recved == |returned| + peeked
    }

    /** recv_tcp posts segments. */
    method Arrive(segs: seq<Segment>)
      requires Holds()
      modifies `queue, `stream, `unread
      ensures Holds() && stream == old(stream) + Queued(segs) && unread == old(unread) + Queued(segs)
        && queue == old(queue) + segs
    {
      QueuedConcat(queue, segs);
      hide Queued, Join;
      queue := queue + segs;
      stream, unread := stream + Queued(segs), unread + Queued(segs);
    }

    /** netconn_recv_tcp_pbuf, when a segment is waiting. */
    method Fetch()
      requires Holds() && lastdata.None? && queue != []
      modifies `lastdata, `queue
      ensures Holds() && lastdata == Some(old(queue)[0]) && queue == old(queue)[1..]
    {
      lastdata, queue := Some(queue[0]), queue[1..];
    }

    /** Copy up to len bytes of lastdata and, unless peeking, use them up. */
    method CopyOut(len: nat, peek: bool) returns (copied: seq<Byte>, push: bool)
      requires Holds() && lastdata.Some?
      modifies `lastdata, `lastoffset, `unread
      ensures Holds() && push == old(lastdata).value.push && |copied| <= len
      ensures copied <= old(unread) && unread == (if peek then old(unread) else old(unread)[|copied|..])
      ensures !peek && |copied| < len ==> lastdata.None? && lastoffset == 0
      ensures queue == old(queue) && IsSlice(Bytes(old(lastdata).value), old(lastoffset), len, copied)
    {
      hide Queued, Join;
      var seg := lastdata.value;
      push := seg.push;
      ghost var all, rest := Bytes(seg), Queued(queue);
      var buflen := |Bytes(seg)| - lastoffset;
      var copylen := if len > buflen then buflen else len;
      copied := CopyPartial(seg.pbufs, copylen, lastoffset);
      SliceConcat(all, lastoffset, lastoffset + copylen, |all|);
      assert all[lastoffset..] == all[lastoffset..|all|]
        && all[lastoffset + copylen..] == all[lastoffset + copylen..|all|];
      Split(copied, all[lastoffset + copylen..], rest);
      if !peek {
        unread := unread[copylen..];
        if buflen - copylen > 0 {
          lastoffset := lastoffset + copylen;
        } else {
          lastdata, lastoffset := None, 0;
        }
      }
    }

    /** The segment to read from: what is left of the last one, or the next one. */
    method Next(turn: Turn, dontWait: bool) returns (got: bool)
      requires Holds()
      modifies `queue, `stream, `unread, `lastdata
      ensures Holds() && stream == old(stream) + Queued(turn.arriving) && unread == old(unread) + Queued(turn.arriving)
      ensures got <==> lastdata.Some?
      ensures old(Waiting(State())) + turn.arriving == Waiting(State()) && (lastdata.None? ==> lastoffset == 0)
      ensures !got ==> old(lastdata).None? && ((dontWait && turn.rcvevent <= 0) || queue == [])
      ensures got && dontWait ==> old(lastdata).Some? || turn.rcvevent > 0
    {
      assert lastdata.None? ==> lastoffset == 0;
      hide Holds, Queued, Join;
      got := true;
      Arrive(turn.arriving);
      if lastdata.None? {
        if (dontWait && turn.rcvevent <= 0) || queue == [] {
          got := false;
        } else {
          Fetch();
        }
      }
    }

    /** One turn of the receive loop: `seg` is the segment it reads from, if any. */
    method Once(turn: Turn, room: nat, peek: bool, dontWait: bool)
      returns (got: bool, copied: seq<Byte>, push: bool, ghost seg: Option<Segment>)
      requires Holds()
      modifies `queue, `stream, `unread, `lastdata, `lastoffset
      ensures Holds() && stream == old(stream) + Queued(turn.arriving) && |copied| <= room
      ensures copied <= old(unread) + Queued(turn.arriving)
      ensures unread == (if peek then old(unread) + Queued(turn.arriving)
                         else (old(unread) + Queued(turn.arriving))[|copied|..])
      ensures !got || (!peek && |copied| < room) ==> lastdata.None? && lastoffset == 0
      ensures got == seg.Some? && old(Waiting(State())) + turn.arriving == (if got then [seg.value] else []) + queue
      ensures !got ==> copied == [] && old(lastdata).None? && ((dontWait && turn.rcvevent <= 0) || queue == [])
      ensures got ==> push == seg.value.push && IsSlice(Bytes(seg.value), old(lastoffset), room, copied)
      ensures got && dontWait ==> old(lastdata).Some? || turn.rcvevent > 0
    {
      hide Holds, Queued, Join, Bytes, IsSlice;
      copied, push := [], false;
      got := Next(turn, dontWait);
      seg := lastdata;
      if got {
        copied, push := CopyOut(room, peek);
      }
    }

    /** One turn, in the course of a call: when it ends the call ret is what is returned. */
    method TakeTurn(call: Call, i: nat, have: seq<Byte>, ghost before: Inbox, ghost taken: seq<Segment>)
      returns (done: bool, ret: int, data: seq<Byte>, ghost c: Course)
      requires Holds() && i <= |call.turns| && |have| <= call.size && (call.peek ==> have == [])
      requires SoFar(before, call, taken, have, i, State()) && Flows(stream, returned, have, unread, call.peek)
      modifies `queue, `stream, `unread, `lastdata, `lastoffset
      ensures Holds() && |data| <= call.size && Flows(stream, returned, data, unread, call.peek)
      ensures stream == old(stream) + Queued(TurnAt(call.turns, i).arriving)
      ensures !done ==> SoFar(before, call, c.taken, data, i + 1, State()) && i < |call.turns| && !call.peek
      ensures done ==> c.rounds == i + 1 && Explains(before, call, ret, data, c, State())
      ensures !call.peek && |data| < call.size ==> lastdata.None?
    {
      hide Holds, Queued, Join, Arrived, SoFar, Explains, Waiting, IsSlice, Flows;
      var turn := TurnAt(call.turns, i);
      ghost var inbox := State();
      var got, copied, push, seg := Once(turn, call.size - |have|, call.peek, call.dontWait);
      FlowsOn(old(stream), returned, have, old(unread), Queued(turn.arriving), copied, call.peek);
      data := have + copied;
      if !got {
        done := true;
        assert data == have;
        ret := if data != [] then |data| else if turn.error == Closed && !(call.dontWait
                                                                           && turn.rcvevent <= 0) then 0 else -1;
        c := Course(i + 1, taken, if call.dontWait && turn.rcvevent <= 0 then WouldBlock else Empty);
        EndsWithNothing(before, call, taken, data, i, inbox, State(), ret);
      } else {
        done := |data| == call.size || push || turn.later <= 0 || call.peek;
        ret := |data|;
        c := Course(i + 1, taken + [seg.value],
                    if |data| == call.size then Full else if push then Push else if turn.later <= 0 then NoEvent
                    else Peeking);
        TakesOne(before, call, taken, have, i, inbox, seg.value, copied, State(), c.why);
      }
    }

    /** The loop of lwip_recvfrom. */
    method Loop(call: Call) returns (ret: int, data: seq<Byte>, ghost c: Course)
      requires Valid()
      modifies `queue, `stream, `unread, `lastdata, `lastoffset
      ensures Holds() && |data| <= call.size && Flows(stream, returned, data, unread, call.peek)
      ensures Explains(old(State()), call, ret, data, c, State())
      ensures stream == old(stream) + Queued(Arrived(call.turns, c.rounds))
      ensures !call.peek && |data| < call.size ==> lastdata.None?
    {
      ghost var before := State();
      c := Course(0, [], Empty);
      ret, data := 0, [];
      var done, i := false, 0;
      assert Arrived(call.turns, 0) == [] && Queued([]) == [] && SoFar(before, call, [], [], 0, State());
      assert Flows(stream, returned, [], unread, call.peek);
      hide Holds, Queued, Join, Arrived, SoFar, Explains, Waiting, Flows;
      while !done
        invariant Holds() && |data| <= call.size
        invariant Flows(stream, returned, data, unread, call.peek) && (call.peek && !done ==> data == [])
        invariant i <= |call.turns| + 1 && (!done ==> i <= |call.turns|)
        invariant stream == old(stream) + Queued(Arrived(call.turns, i))
        invariant !done ==> SoFar(before, call, c.taken, data, i, State())
        invariant done ==> c.rounds == i && Explains(before, call, ret, data, c, State())
        invariant !call.peek && done && |data| < call.size ==> lastdata.None?
        decreases |call.turns| + 1 - i
      {
        done, ret, data, c := TakeTurn(call, i, data, before, c.taken);
        ArrivedMore(old(stream), call.turns, i);
        i := i + 1;
      }
    }

    /** lwip_recvfrom on a TCP socket: the number of bytes, 0 for a closed connection or -1,
        and the bytes. */
    method Recv(call: Call) returns (ret: int, data: seq<Byte>, ghost c: Course)
      requires Valid()
      modifies this
      ensures Valid() && |data| <= call.size
      ensures Explains(old(State()), call, ret, data, c, State())
      ensures stream == old(stream) + Queued(Arrived(call.turns, c.rounds))
      ensures returned == old(returned) + (if call.peek then [] else data)
      ensures peeked == old(peeked) + (if call.peek then |data| else 0) && recved == old(recved) + |data|
      ensures call.peek ==> data <= unread
      ensures !call.peek && |data| < call.size ==> lastdata.None?
    {
      hide Holds, Queued, Join, Arrived, Explains;
      ret, data, c := Loop(call);
      Report(data, call.peek);
    }

    /** netconn_recved, called with what is returned. */
    method Report(data: seq<Byte>, ghost peek: bool)
      requires Holds() && recved == |returned| + peeked
      requires Flows(stream, returned, data, unread, peek)
      modifies `recved, `returned, `peeked
      ensures Valid()
      ensures returned == (if peek then old(returned) else old(returned) + data)
      ensures peeked == (if peek then old(peeked) + |data| else old(peeked)) && recved == old(recved) + |data|
      ensures peek ==> data <= unread
    {
      hide Queued, Join;
      if data != [] {
        recved := recved + |data|;
      }
      if peek {
        peeked := peeked + |data|;
      } else {
        assert returned + (data + unread) == (returned + data) + unread;
        returned := returned + data;
      }
    }
  }

  lemma Split(a: seq<Byte>, b: seq<Byte>, c: seq<Byte>)
    ensures a <= (a + b) + c && ((a + b) + c)[|a|..] == b + c && (|b| == 0 ==> b + c == c)
  {
  }

  /** The stream is what was returned, what this call has read, and what is unread. */
  ghost predicate Flows(stream: seq<Byte>, returned: seq<Byte>, data: seq<Byte>, unread: seq<Byte>, peek: bool) {
    if peek then stream == returned + unread && data <= unread else stream == returned + (data + unread)
  }

  lemma FlowsOn(stream: seq<Byte>, returned: seq<Byte>, data: seq<Byte>, unread: seq<Byte>, more: seq<Byte>,
                copied: seq<Byte>, peek: bool)
    requires Flows(stream, returned, data, unread, peek) && copied <= unread + more && (peek ==> data == [])
    ensures Flows(stream + more, returned, data + copied, if peek then unread + more
                  else (unread + more)[|copied|..], peek)
  {
    var u := unread + more;
    if peek {
      Assoc(returned, unread, more);
    } else {
      assert u == copied + u[|copied|..];
      assert data + u == (data + copied) + u[|copied|..];
      assert stream + more == returned + (data + u);
    }
  }

  // -------------------------------------------------------------------- sessions

  /** What the calls that do not peek return. */
  function Kept(calls: seq<Call>, outs: seq<seq<Byte>>): seq<Byte>
    requires |calls| == |outs|
  {
    if outs == [] then []
    else Kept(calls[..|outs| - 1], outs[..|outs| - 1]) + (if calls[|outs| - 1].peek then [] else outs[|outs| - 1])
  }

  /** How many bytes the peeking calls return. */
  function PeekedAt(calls: seq<Call>, outs: seq<seq<Byte>>): nat
    requires |calls| == |outs|
  {
    if outs == [] then 0
    else PeekedAt(calls[..|outs| - 1], outs[..|outs| - 1]) + (if calls[|outs| - 1].peek then |outs[|outs| - 1]| else 0)
  }

  /** The bytes that arrive during the calls. */
  ghost function Delivered(calls: seq<Call>, courses: seq<Course>): seq<Byte>
    requires |calls| == |courses|
  {
    if courses == [] then []
    else
      var n := |courses| - 1;
      Delivered(calls[..n], courses[..n]) + Queued(Arrived(calls[n].turns, courses[n].rounds))
  }

  /** Any sequence of receives, with arrivals before, during and between them: what the
      calls that do not peek return, in order, is a prefix of what arrived, each call is
      explained by what it found, and netconn_recved was told the number of bytes returned
      and of those peeked at. */
  method Session(calls: seq<Call>)
    returns (socket: StreamSocket, rets: seq<int>, outs: seq<seq<Byte>>, ghost courses: seq<Course>,
             ghost inboxes: seq<Inbox>)
    ensures fresh(socket) && socket.Valid()
    ensures |rets| == |outs| == |courses| == |calls| && |inboxes| == |calls| + 1
    ensures inboxes[0] == Inbox(None, 0, []) && inboxes[|calls|] == socket.State()
    ensures forall i | 0 <= i < |calls| :: Explains(inboxes[i], calls[i], rets[i], outs[i], courses[i], inboxes[i + 1])
    ensures socket.stream == Delivered(calls, courses) == Kept(calls, outs) + socket.unread
    ensures socket.recved == |Kept(calls, outs)| + PeekedAt(calls, outs)
  {
    hide StreamSocket.Holds, Explains, Queued, Arrived;
    socket := new StreamSocket();
    rets, outs, courses, inboxes := [], [], [], [socket.State()];
    var i := 0;
    while i < |calls|
      invariant i <= |calls| && fresh(socket) && socket.Valid()
      invariant |rets| == |outs| == |courses| == i && |inboxes| == i + 1
      invariant inboxes[0] == Inbox(None, 0, []) && inboxes[i] == socket.State()
      invariant forall k | 0 <= k < i :: Explains(inboxes[k], calls[k], rets[k], outs[k], courses[k], inboxes[k + 1])
      invariant socket.stream == Delivered(calls[..i], courses)
      invariant socket.returned == Kept(calls[..i], outs) && socket.peeked == PeekedAt(calls[..i], outs)
    {
      var ret, data, c := socket.Recv(calls[i]);
      assert calls[..i + 1][..i] == calls[..i] && (outs + [data])[..i] == outs && (courses + [c])[..i] == courses;
      rets, outs, courses, inboxes := rets + [ret], outs + [data], courses + [c], inboxes + [socket.State()];
      i := i + 1;
    }
    assert calls[..|calls|] == calls;
  }
}
