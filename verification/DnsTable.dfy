/** The request table of the DNS client (lib/lwip/core/dns.c): slots, timers and the
    callback that every request is owed. */
module DnsTable {
  import opened Prelude

  const SIZE: nat := 4           // DNS_TABLE_SIZE
  const MAX_RETRIES: nat := 4    // DNS_MAX_RETRIES
  const MAX_TTL: nat := 604800   // DNS_MAX_TTL
  const TWO_32: nat := 0x1_0000_0000

  datatype EntryState = Unused | Asking | Done

  /** A slot; `found` is the request whose callback it holds. */
  datatype Entry = Entry(state: EntryState, numdns: nat, tmr: nat, retries: nat, seqno: nat, ttl: nat,
                         found: Option<nat>)

  // ---------------------------------------------------------------- the timer

  /** Servers with an address follow one another from number i on. */
  function ServersFrom(servers: seq<bool>, i: nat): nat
    decreases |servers| - i
  {
    if i < |servers| && servers[i] then 1 + ServersFrom(servers, i + 1) else 0
  }

  /** A waiting entry: its timer runs, and its server exists. */
  predicate IsAsking(e: Entry, servers: seq<bool>) {
    e.state.Asking? && e.retries < MAX_RETRIES && 1 <= e.tmr && (e.tmr == 1 || e.tmr <= e.retries)
      && e.numdns < |servers| && servers[e.numdns]
  }

  /** Timer ticks until a request that nobody answers is flushed: those left with this
      server, and seven for every server after it. */
  function TicksLeft(e: Entry, servers: seq<bool>): int {
    e.tmr + 6 - e.retries * (e.retries + 1) / 2 + 7 * ServersFrom(servers, e.numdns + 1)
  }

  /** The server has not answered: the ASKING case of dns_check_entry. None is a timeout. */
  function Tick(e: Entry, servers: seq<bool>): Option<Entry> {
    if e.tmr > 1 then Some(e.(tmr := e.tmr - 1))
    else if e.retries + 1 < MAX_RETRIES then Some(e.(tmr := e.retries + 1, retries := e.retries + 1))
    else if e.numdns + 1 < |servers| && servers[e.numdns + 1] then
      Some(e.(numdns := e.numdns + 1, tmr := 1, retries := 0))
    else None
  }

  /** Every tick takes one off, and the last one is the timeout. */
  lemma TickCounts(e: Entry, servers: seq<bool>)
    requires IsAsking(e, servers)
    ensures TicksLeft(e, servers) >= 1
    ensures Tick(e, servers).None? <==> TicksLeft(e, servers) == 1
    ensures Tick(e, servers).Some? ==>
      IsAsking(Tick(e, servers).value, servers)
        && TicksLeft(Tick(e, servers).value, servers) == TicksLeft(e, servers) - 1
  {
    assert e.retries == 0 || e.retries == 1 || e.retries == 2 || e.retries == 3;
  }

  /** k ticks without an answer. */
  function Ticks(e: Entry, servers: seq<bool>, k: nat): Option<Entry>
    requires IsAsking(e, servers)
    decreases k
  {
    if k == 0 then Some(e)
    else
      TickCounts(e, servers);
      match Tick(e, servers)
      case None => None
      case Some(next) => Ticks(next, servers, k - 1)
  }

  /** An unanswered request is flushed after exactly that many ticks. */
  lemma {:induction false} FlushedAfter(e: Entry, servers: seq<bool>, k: nat)
    requires IsAsking(e, servers)
    ensures Ticks(e, servers, k).None? <==> k >= TicksLeft(e, servers)
    decreases k
  {
    TickCounts(e, servers);
    if k > 0 && Tick(e, servers).Some? {
      FlushedAfter(Tick(e, servers).value, servers, k - 1);
    }
  }

  /** A new request waits seven ticks for every server. */
  lemma SevenTicksPerServer(e: Entry, servers: seq<bool>)
    requires e.state.Asking? && e.numdns == 0 && e.tmr == 1 && e.retries == 0 && |servers| > 0 && servers[0]
    ensures IsAsking(e, servers) && TicksLeft(e, servers) == 7 * ServersFrom(servers, 0)
  {
  }

  // ------------------------------------------------------------- choosing a slot

  /** How long ago a completed entry was enqueued, as the code computes it: the difference
      of two u8 counters, which turns negative when the counter has wrapped around. */
  function Age(e: Entry, seqno: nat): int { seqno - e.seqno }

  /** Slot i is what the search for the oldest completed entry has found after k slots. */
  ghost predicate OldestOf(table: seq<Entry>, seqno: nat, k: nat, i: nat, age: nat)
    requires k <= |table|
  {
    && (age == 0 ==> i == 0 && forall j | 0 <= j < k && table[j].state.Done? :: Age(table[j], seqno) <= 0)
    && (age > 0 ==> i < k && table[i].state.Done? && age == Age(table[i], seqno)
                    && (forall j | 0 <= j < k && table[j].state.Done? :: Age(table[j], seqno) <= age)
                    && (forall j | 0 <= j < i && table[j].state.Done? :: Age(table[j], seqno) < age))
  }

  function FirstUnused(table: seq<Entry>): (n: nat)
    ensures n <= |table| && (forall j | 0 <= j < n :: !table[j].state.Unused?)
      && (n < |table| ==> table[n].state.Unused?)
  {
    if table == [] || table[0].state.Unused? then 0 else 1 + FirstUnused(table[1..])
  }

  function OldestAge(table: seq<Entry>, seqno: nat, k: nat): nat
    requires k <= |table|
  {
    if k == 0 then 0
    else if table[k - 1].state.Done? && Age(table[k - 1], seqno) > OldestAge(table, seqno, k - 1) then
      Age(table[k - 1], seqno)
    else OldestAge(table, seqno, k - 1)
  }

  function Oldest(table: seq<Entry>, seqno: nat, k: nat): nat
    requires k <= |table|
  {
    if k == 0 then 0
    else if table[k - 1].state.Done? && Age(table[k - 1], seqno) > OldestAge(table, seqno, k - 1) then k - 1
    else Oldest(table, seqno, k - 1)
  }

  /** The slot a new request gets: the first unused one, otherwise the oldest completed one
      as the counters have it; the size of the table when there is none. */
  function Choose(table: seq<Entry>, seqno: nat): nat {
    if FirstUnused(table) < |table| then FirstUnused(table)
    else if Oldest(table, seqno, |table|) < |table| && table[Oldest(table, seqno, |table|)].state.Done? then
      Oldest(table, seqno, |table|)
    else |table|
  }

  /** The search of dns_enqueue. It never picks a slot that waits for an answer. It finds
      none exactly when no slot is unused, slot 0 is not completed and no completed entry
      has a counter below the current one. */
  method FindSlot(table: seq<Entry>, seqno: nat) returns (slot: nat)
    requires |table| > 0
    ensures slot == Choose(table, seqno) <= |table| && (slot < |table| ==> !table[slot].state.Asking?)
    ensures slot < |table| && !table[slot].state.Unused? ==>
      && (forall j | 0 <= j < |table| :: !table[j].state.Unused?)
      && (forall j | 0 <= j < |table| && table[j].state.Done? ::
            Age(table[j], seqno) <= Age(table[slot], seqno) || (slot == 0 && Age(table[j], seqno) <= 0))
    ensures slot < |table| && table[slot].state.Unused? ==> forall j | 0 <= j < slot :: !table[j].state.Unused?
    ensures slot == |table| <==>
      && (forall j | 0 <= j < |table| :: !table[j].state.Unused?) && !table[0].state.Done?
      && (forall j | 0 <= j < |table| && table[j].state.Done? :: Age(table[j], seqno) <= 0)
  {
    var lseq: nat, lseqi: nat := 0, 0;
    slot := 0;
    while slot < |table|
      invariant slot <= |table| && OldestOf(table, seqno, slot, lseqi, lseq)
      invariant lseq == OldestAge(table, seqno, slot) && lseqi == Oldest(table, seqno, slot)
      invariant forall j | 0 <= j < slot :: !table[j].state.Unused?
    {
      if table[slot].state.Unused? {
        return;
      }
      if table[slot].state.Done? && Age(table[slot], seqno) > lseq {
        lseq, lseqi := Age(table[slot], seqno), slot;
      }
      slot := slot + 1;
    }
    if table[lseqi].state.Done? {
      slot := lseqi;
    }
  }

  // --------------------------------------------------------------- the invariant

  /** Requests stand for their callbacks: how many were made, those whose callback was
      called, in order, and those that were lost. */
  datatype History = History(issued: nat, called: seq<nat>, lost: set<nat>)

  /** The slot waits for the answer to request id. */
  predicate Waits(e: Entry, id: nat) { e.state.Asking? && e.found == Some(id) }

  ghost predicate EntryOk(e: Entry, servers: seq<bool>, h: History) {
    e.state.Asking? ==>
      && IsAsking(e, servers) && TicksLeft(e, servers) <= 7 * ServersFrom(servers, 0)
      && (e.found.Some? ==> e.found.value < h.issued && e.found.value !in h.called && e.found.value !in h.lost)
  }

  /** Request id has had its callback, was lost, or waits in a slot. */
  ghost predicate Served(table: seq<Entry>, h: History, id: nat) {
    id in h.called || id in h.lost || exists i | 0 <= i < |table| :: Waits(table[i], id)
  }

  /** Every request that is not lost has its callback exactly once, sooner or later: it is
      in the list of calls once, or waits in exactly one slot. */
  ghost predicate TableOk(table: seq<Entry>, servers: seq<bool>, h: History) {
    && |table| == SIZE
    && (forall i {:trigger EntryOk(table[i], servers, h)} | 0 <= i < SIZE :: EntryOk(table[i], servers, h))
    && (forall i, j, id {:trigger Waits(table[i], id), Waits(table[j], id)} | 0 <= i < j < SIZE
        && Waits(table[i], id) ::
          !Waits(table[j], id))
    && (forall i, j | 0 <= i < j < |h.called| :: h.called[i] != h.called[j])
    && (forall id | id in h.called :: id < h.issued)
    && (forall id | id in h.lost :: id < h.issued && id !in h.called)
    && (forall id: nat {:trigger Served(table, h, id)} | id < h.issued :: Served(table, h, id))
  }

  /** The request of a slot, if it waits and has a callback. */
  function Owed(e: Entry): seq<nat> { if e.state.Asking? && e.found.Some? then [e.found.value] else [] }

  /** A waiting entry of which no more than the usual ticks are left. */
  predicate Bounded(e: Entry, servers: seq<bool>) {
    IsAsking(e, servers) && TicksLeft(e, servers) <= 7 * ServersFrom(servers, 0)
  }

  /** Slot i changes; its request was called or lost, and what is there now is owed nothing. */
  lemma Settled(table: seq<Entry>, servers: seq<bool>, h: History, i: nat, e: Entry, h': History)
    requires TableOk(table, servers, h) && i < SIZE && (e.state.Asking? ==> e.found.None? && Bounded(e, servers))
    requires h' == h.(called := h.called + Owed(table[i])) || h' == h.(lost := h.lost + set x | x in Owed(table[i]))
    ensures TableOk(table[i := e], servers, h')
  {
    var table' := table[i := e];
    assert EntryOk(table[i], servers, h);
    assert forall id | id in h'.called :: id in h.called || id in Owed(table[i]);
    forall j | 0 <= j < SIZE ensures EntryOk(table'[j], servers, h') {
      assert EntryOk(table[j], servers, h);
      if j != i && table[j].state.Asking? && table[j].found.Some? && table[i].state.Asking?
        && table[i].found == table[j].found {
        assert Waits(table[i], table[i].found.value) && Waits(table[j], table[i].found.value);
      }
    }
    forall id: nat | id < h'.issued ensures Served(table', h', id) {
      assert Served(table, h, id);
      if exists j | 0 <= j < |table| :: Waits(table[j], id) {
        var j :| 0 <= j < |table| && Waits(table[j], id);
        if j == i { assert id in Owed(table[i]); } else { assert Waits(table'[j], id); }
      }
    }
    forall j, k, id | 0 <= j < k < SIZE && Waits(table'[j], id) ensures !Waits(table'[k], id) {
      assert j != i && Waits(table[j], id);
      assert k != i ==> (Waits(table'[k], id) <==> Waits(table[k], id));
    }
  }

  /** A slot that waits goes on waiting for the same request. */
  lemma Waiting(table: seq<Entry>, servers: seq<bool>, h: History, i: nat, e: Entry)
    requires TableOk(table, servers, h) && i < SIZE && table[i].state.Asking? && Bounded(e, servers)
      && e.found == table[i].found
    ensures TableOk(table[i := e], servers, h)
  {
    var table' := table[i := e];
    forall j | 0 <= j < SIZE ensures EntryOk(table'[j], servers, h) {
      assert EntryOk(table[j], servers, h);
    }
    forall id: nat | id < h.issued ensures Served(table', h, id) {
      assert Served(table, h, id);
      if exists j | 0 <= j < |table| :: Waits(table[j], id) {
        var j :| 0 <= j < |table| && Waits(table[j], id);
        assert Waits(table'[j], id);
      }
    }
    forall j, k, id | 0 <= j < k < SIZE && Waits(table'[j], id) ensures !Waits(table'[k], id) {
      assert Waits(table[j], id);
      assert Waits(table'[k], id) <==> Waits(table[k], id);
    }
  }

  /** A new request gets a slot that did not wait. */
  lemma Placed(table: seq<Entry>, servers: seq<bool>, h: History, i: nat, e: Entry)
    requires TableOk(table, servers, h) && i < SIZE && !table[i].state.Asking? && Bounded(e, servers)
    requires e.found.None? || e.found.value == h.issued
    ensures TableOk(table[i := e], servers, h.(issued := h.issued + |Owed(e)|))
  {
    var table', h' := table[i := e], h.(issued := h.issued + |Owed(e)|);
    forall j | 0 <= j < SIZE ensures EntryOk(table'[j], servers, h') {
      assert EntryOk(table[j], servers, h);
    }
    forall id: nat | id < h'.issued ensures Served(table', h', id) {
      if id == h.issued {
        assert Waits(table'[i], id);
      } else {
        assert Served(table, h, id);
        if exists j | 0 <= j < |table| :: Waits(table[j], id) {
          var j :| 0 <= j < |table| && Waits(table[j], id);
          assert Waits(table'[j], id);
        }
      }
    }
    forall j, k, id | 0 <= j < k < SIZE && Waits(table'[j], id) ensures !Waits(table'[k], id) {
      assert EntryOk(table[j], servers, h) && EntryOk(table[k], servers, h);
      assert j != i ==> Waits(table[j], id);
      assert k != i ==> (Waits(table'[k], id) <==> Waits(table[k], id));
    }
  }

  lemma AtSlot(table: seq<Entry>, servers: seq<bool>, h: History, i: nat)
    requires TableOk(table, servers, h) && i < SIZE
    ensures |table| == SIZE && EntryOk(table[i], servers, h)
  {
  }

  // ------------------------------------------------------------------ the client

  const MSG_SIZE: nat := 512     // DNS_MSG_SIZE
  const MIN_SIZE: nat := 26      // header, query and answer

  /** An answer record: whether it is an Internet address, and its time to live. */
  datatype Answer = Answer(isAddress: bool, ttl: nat)

  /** A message from a server; names are compared elsewhere. */
  datatype Message = Message(size: nat, id: nat, response: bool, err: nat, questions: nat, nameMatches: bool,
                             answers: seq<Answer>)

  function FirstAddress(answers: seq<Answer>): Option<nat> {
    if answers == [] then None else if answers[0].isAddress then Some(answers[0].ttl) else FirstAddress(answers[1..])
  }

  /** The time to live the message gives for the name asked for, if it answers at all. */
  function AnswerIn(m: Message): Option<nat> {
    if !m.response || m.err != 0 || m.questions != 1 || !m.nameMatches then None else FirstAddress(m.answers)
  }

  predicate IsFor(m: Message, table: seq<Entry>) {
    MIN_SIZE <= m.size <= MSG_SIZE && m.id < |table| && table[m.id].state.Asking?
  }

  /** What dns_check_entry makes of a new entry. */
  function NewEntry(seqno: nat, found: Option<nat>): Entry { Entry(Asking, 0, 1, 0, seqno, 0, found) }

  /** The table, the counter and the number of requests after some were made: each says
      whether it comes with a callback. */
  function Asked(table: seq<Entry>, seqno: nat, issued: nat, asks: seq<bool>): (r: (seq<Entry>, nat, nat))
    ensures |r.0| == |table|
    decreases |asks|
  {
    if asks == [] then (table, seqno, issued)
    else
      var slot := Choose(table, seqno);
      if slot >= |table| then Asked(table, seqno, issued, asks[1..])
      else
        var e := NewEntry(seqno, if asks[0] then Some(issued) else None);
        Asked(table[slot := e], (seqno + 1) % 256, issued + |Owed(e)|, asks[1..])
  }

  /** What the callback of a slot asks for; without a callback nobody asks. */
  function AskedBy(e: Entry, again: seq<bool>): seq<bool> { if e.found.Some? then again else [] }

  /** The entry once its answer was read. */
  function Completed(m: Message, e: Entry): Entry {
    match AnswerIn(m)
    case Some(ttl) => e.(state := Done, ttl := if ttl > MAX_TTL then MAX_TTL else ttl)
    case None => e.(state := Done)
  }

  function Flushed(e: Entry): Entry { e.(state := Unused, found := None) }

  /** What the callback of the completed request leaves. */
  function AfterCallback(m: Message, table: seq<Entry>, seqno: nat, issued: nat,
                         again: seq<bool>): (r: (seq<Entry>, nat, nat))
    requires m.id < |table|
    ensures |r.0| == |table|
  {
    Asked(table[m.id := Completed(m, table[m.id])], seqno, issued, AskedBy(table[m.id], again))
  }

  /** The requests lost when the slot of a failed one is flushed after its callback: one of
      those the callback made, if it was put into that very slot. */
  function LostBy(m: Message, table: seq<Entry>, seqno: nat, issued: nat, again: seq<bool>): (lost: seq<nat>) {
    if !IsFor(m, table) || AnswerIn(m).Some? then []
    else
      Owed(AfterCallback(m, table, seqno, issued, again).0[m.id])
  }

  /** A callback that asks once loses its request exactly when the search picks the slot
      that is about to be flushed. */
  lemma LosesItIff(m: Message, table: seq<Entry>, seqno: nat, issued: nat)
    requires IsFor(m, table) && AnswerIn(m).None? && table[m.id].found.Some?
    ensures LostBy(m, table, seqno, issued, [true])
         == if Choose(table[m.id := table[m.id].(state := Done)], seqno) == m.id then [issued] else []
    ensures AfterCallback(m, table, seqno, issued, [true]).2
         == if Choose(table[m.id := table[m.id].(state := Done)], seqno) < |table| then issued + 1 else issued
  {
    hide Choose;
    var before := table[m.id := table[m.id].(state := Done)];
    var slot := Choose(before, seqno);
    assert [true][1..] == [];
    if slot < |before| {
      var e := NewEntry(seqno, Some(issued));
      assert Asked(before, seqno, issued, [true]) == Asked(before[slot := e], (seqno + 1) % 256, issued + 1, []);
    } else {
      assert Asked(before, seqno, issued, [true]) == Asked(before, seqno, issued, []);
    }
  }

  /** Slots that wait keep what they have. */
  ghost predicate WaitersKept(table: seq<Entry>, table': seq<Entry>, but: nat) {
    |table'| == |table| && forall j | 0 <= j < |table| && j != but && table[j].state.Asking? :: table'[j] == table[j]
  }

  class Resolver {
    const servers: seq<bool>
    var table: seq<Entry>
    var seqno: nat
    var issued: nat
    var called: seq<nat>
    ghost var lost: set<nat>

    constructor (servers: seq<bool>)
      requires |servers| > 0 && servers[0]
      ensures Valid() && this.servers == servers && issued == 0 && called == [] && lost == {} && seqno == 0
      ensures table == seq(SIZE, _ => Entry(Unused, 0, 0, 0, 0, 0, None))
    {
      this.servers := servers;
      table, seqno := seq(SIZE, _ => Entry(Unused, 0, 0, 0, 0, 0, None)), 0;
      issued, called, lost := 0, [], {};
    }

    ghost function Past(): History
      reads this
    {
      History(issued, called, lost)
    }

    ghost predicate Valid()
      reads this
    {
      |servers| > 0 && servers[0] && seqno < 256 && |table| == SIZE && TableOk(table, servers, Past())
    }

    /** dns_enqueue: the slot, or SIZE for ERR_MEM. A waiting request never loses its slot,
        and the new one waits seven ticks for every server. */
    method Enqueue(callback: bool) returns (slot: nat)
      requires Valid()
      modifies this
      ensures Valid() && slot == Choose(old(table), old(seqno)) <= SIZE && called == old(called) && lost == old(lost)
      ensures slot == SIZE ==> table == old(table) && issued == old(issued) && seqno == old(seqno)
      ensures slot < SIZE ==>
        && !old(table)[slot].state.Asking? && IsAsking(table[slot], servers)
        && TicksLeft(table[slot], servers) == 7 * ServersFrom(servers, 0)
        && table == old(table)[slot := NewEntry(old(seqno), if callback then Some(old(issued)) else None)]
        && issued == old(issued) + (if callback then 1 else 0) && seqno == (old(seqno) + 1) % 256
    {
      hide TableOk, Choose;
      slot := FindSlot(table, seqno);
      if slot < SIZE {
        var e := NewEntry(seqno, if callback then Some(issued) else None);
        SevenTicksPerServer(e, servers);
        Placed(table, servers, Past(), slot, e);
        table, seqno := table[slot := e], (seqno + 1) % 256;
        issued := issued + |Owed(e)|;
      }
    }

    /** Requests made one after the other, by a callback. */
    method EnqueueAll(asks: seq<bool>)
      requires Valid()
      modifies this
      ensures Valid() && called == old(called) && lost == old(lost) && old(issued) <= issued
      ensures (table, seqno, issued) == Asked(old(table), old(seqno), old(issued), asks)
      ensures WaitersKept(old(table), table, SIZE)
    {
      hide TableOk, Choose, TicksLeft, IsAsking;
      var i := 0;
      assert asks[0..] == asks;
      while i < |asks|
        invariant i <= |asks| && Valid() && called == old(called) && lost == old(lost) && old(issued) <= issued
        invariant Asked(table, seqno, issued, asks[i..]) == Asked(old(table), old(seqno), old(issued), asks)
        invariant WaitersKept(old(table), table, SIZE)
      {
        assert asks[i..][1..] == asks[i + 1..];
        var _ := Enqueue(asks[i]);
        i := i + 1;
      }
    }

    /** dns_check_entry for one slot. On a timeout the callback may ask for other names,
        `again`, while the slot still waits; whether it still knows its own callback then
        makes no difference. */
    method CheckEntry(i: nat, again: seq<bool>)
      requires Valid() && i < SIZE
      modifies this
      ensures Valid() && old(called) <= called && lost == old(lost) && old(issued) <= issued
        && WaitersKept(old(table), table, i)
      ensures old(table)[i].state.Asking? && Tick(old(table)[i], servers).Some? ==>
        table == old(table)[i := Tick(old(table)[i], servers).value] && called == old(called) && issued == old(issued)
      ensures old(table)[i].state.Asking? && Tick(old(table)[i], servers).None? ==>
        table[i].state.Unused? && called == old(called) + Owed(old(table)[i])
      ensures !old(table)[i].state.Asking? ==> called == old(called) && issued == old(issued) && !table[i].state.Asking?
      ensures old(table)[i].state.Done? ==> (table[i].state.Unused? <==> old(table)[i].ttl % TWO_32 == 1)
      ensures again == [] || !old(table)[i].state.Asking? || old(table)[i].found.None? ==>
        table == old(table)[i := table[i]] && issued == old(issued)
    {
      hide TableOk, Choose, TicksLeft;
      var e := table[i];
      AtSlot(table, servers, Past(), i);
      if e.state.Asking? {
        TickCounts(e, servers);
        match Tick(e, servers) {
          case Some(next) =>
            Waiting(table, servers, Past(), i, next);
            table := table[i := next];
          case None =>
            TimeOut(i, again);
        }
      } else if e.state.Done? {
        var ttl := (e.ttl + TWO_32 - 1) % TWO_32;
        var next := if ttl == 0 then e.(ttl := 0, state := Unused, found := None) else e.(ttl := ttl);
        Settled(table, servers, Past(), i, next, Past());
        table := table[i := next];
      }
    }

    /** The last server has not answered: the callback is called and the slot flushed. */
    method TimeOut(i: nat, again: seq<bool>)
      requires Valid() && i < SIZE && table[i].state.Asking?
      modifies this
      ensures Valid() && lost == old(lost) && old(issued) <= issued && WaitersKept(old(table), table, i)
      ensures table[i].state.Unused? && called == old(called) + Owed(old(table)[i])
      ensures again == [] || old(table)[i].found.None? ==> table == old(table)[i := table[i]] && issued == old(issued)
    {
      hide TableOk, Choose, TicksLeft, IsAsking;
      var e := table[i];
      AtSlot(table, servers, Past(), i);
      SameTicks(e, e.(found := None), servers);
      Settled(table, servers, Past(), i, e.(found := None), Past().(called := called + Owed(e)));
      table, called := table[i := e.(found := None)], called + Owed(e);
      EnqueueAll(AskedBy(e, again));
      var gone := Flushed(table[i]);
      Settled(table, servers, Past(), i, gone, Past());
      table := table[i := gone];
    }

    /** dns_check_entries on one timer tick; again[i] is what the callback of slot i asks. */
    method TickAll(again: seq<seq<bool>>)
      requires Valid() && |again| == SIZE
      modifies this
      ensures Valid() && old(called) <= called && lost == old(lost) && old(issued) <= issued
      ensures forall i | 0 <= i < SIZE && old(table)[i].state.Asking? ::
        TickedWaiter(old(table)[i], table[i], called, servers)
      ensures (forall i | 0 <= i < SIZE :: again[i] == []) ==>
        issued == old(issued) && forall i | 0 <= i < SIZE :: Ticked(old(table)[i], table[i], servers)
    {
      hide TableOk;
      ghost var quiet := forall i | 0 <= i < SIZE :: again[i] == [];
      for i := 0 to SIZE
        invariant Valid() && old(called) <= called && lost == old(lost) && old(issued) <= issued
        invariant forall j | 0 <= j < i && old(table)[j].state.Asking? ::
          TickedWaiter(old(table)[j], table[j], called, servers)
        invariant forall j | i <= j < SIZE && old(table)[j].state.Asking? :: table[j] == old(table)[j]
        invariant quiet ==> issued == old(issued) && forall j | 0 <= j < i :: Ticked(old(table)[j], table[j], servers)
        invariant quiet ==> forall j | i <= j < SIZE :: table[j] == old(table)[j]
      {
        CheckEntry(i, again[i]);
      }
    }

    /** After seven ticks for every server without a new request, whatever was asked has
        been answered or flushed, and every request has had its callback or was lost. */
    method Drain(ticks: nat)
      requires Valid() && ticks >= 7 * ServersFrom(servers, 0)
      modifies this
      ensures Valid() && issued == old(issued) && lost == old(lost)
        && forall i | 0 <= i < SIZE :: !table[i].state.Asking?
      ensures forall id: nat | id < issued :: id in called <==> id !in lost
    {
      hide TicksLeft, IsAsking;
      AllBounded(table, servers, Past());
      for k := 0 to ticks
        invariant Valid() && issued == old(issued) && lost == old(lost)
        invariant forall i | 0 <= i < SIZE && table[i].state.Asking? ::
          TicksLeft(table[i], servers) <= 7 * ServersFrom(servers, 0) - k
      {
        ghost var was := table;
        AllBounded(table, servers, Past());
        TickAll([[], [], [], []]);
        forall i | 0 <= i < SIZE && table[i].state.Asking?
          ensures TicksLeft(table[i], servers) <= 7 * ServersFrom(servers, 0) - (k + 1)
        {
          assert Ticked(was[i], table[i], servers);
          TickCounts(was[i], servers);
        }
      }
      AllBounded(table, servers, Past());
      forall i | 0 <= i < SIZE ensures !table[i].state.Asking? {
        if table[i].state.Asking? { TickCounts(table[i], servers); }
      }
      forall id: nat | id < issued ensures id in called <==> id !in lost {
        assert Served(table, Past(), id);
      }
    }

    /** dns_recv. The callback may ask for other names, `again`. Every request but those of
        LostBy is still owed its callback. */
    method Receive(m: Message, again: seq<bool>)
      requires Valid()
      modifies this
      ensures Valid() && old(issued) <= issued && WaitersKept(old(table), table, m.id)
      ensures lost == old(lost) + set x | x in LostBy(m, old(table), old(seqno), old(issued), again)
      ensures !IsFor(m, old(table)) ==> table == old(table) && called == old(called) && issued == old(issued)
      ensures IsFor(m, old(table)) ==>
        && called == old(called) + Owed(old(table)[m.id])
        && var after := AfterCallback(m, old(table), old(seqno), old(issued), again);
           && seqno == after.1 && issued == after.2
           && table == if AnswerIn(m).Some? then after.0 else after.0[m.id := Flushed(after.0[m.id])]
      ensures IsFor(m, old(table)) && AnswerIn(m).None? ==> table[m.id].state.Unused?
      ensures IsFor(m, old(table)) && AnswerIn(m).Some? && again == [] ==>
        table[m.id].state.Done?
          && table[m.id].ttl == (if AnswerIn(m).value > MAX_TTL then MAX_TTL else AnswerIn(m).value)
    {
      hide TableOk, Choose, Asked;
      if m.size > MSG_SIZE || m.size < MIN_SIZE || m.id >= SIZE {
        return;
      }
      var e := table[m.id];
      if !e.state.Asking? {
        return;
      }
      var done := Completed(m, e);
      Settled(table, servers, Past(), m.id, done, Past().(called := called + Owed(e)));
      table := table[m.id := done];
      called := called + Owed(e);
      assert again == [] ==> Asked(table, seqno, issued, AskedBy(e, again)).0 == table by {
        AskedNothing(table, seqno, issued);
      }
      EnqueueAll(AskedBy(e, again));
      if AnswerIn(m).None? {
        // the slot is flushed, whoever has it by now
        var gone := Flushed(table[m.id]);
        ghost var late := set x | x in Owed(table[m.id]);
        Settled(table, servers, Past(), m.id, gone, Past().(lost := lost + late));
        lost := lost + late;
        table := table[m.id := gone];
      }
    }

    /** One event: a request, a timer tick or a message. */
    method Handle(event: Event, ghost id: nat, ghost n: int)
      requires Valid() && (event.Timer? ==> |event.asks| == SIZE)
      modifies this
      ensures Valid() && old(issued) <= issued && old(lost) <= lost && old(called) <= called
      ensures old(Remains(table, servers, called, id, n)) ==>
        Remains(table, servers, called, id, if event.Timer? then n - 1 else n)
      ensures id in lost && id !in old(lost) ==> old(issued) <= id
    {
      hide TableOk, Choose, Asked, LostBy;
      ghost var before := Past();
      match event {
        case Ask(callback) =>
          var _ := Enqueue(callback);
          RemainsKept(old(table), table, servers, old(called), called, id, n, SIZE);
        case Timer(again) =>
          TickAll(again);
          AllBounded(old(table), servers, before);
          RemainsTicked(old(table), table, servers, old(called), called, id, n);
        case Incoming(m, again) =>
          Receive(m, again);
          RemainsKept(old(table), table, servers, old(called), called, id, n, m.id);
          LostIsNew(m, old(table), old(seqno), old(issued), again);
      }
    }

    /** Whatever else happens: after seven ticks for every server a request has had its
        callback, unless it was lost before it was first asked. */
    method HandleAll(events: seq<Event>, ghost id: nat)
      requires Valid() && forall e | e in events && e.Timer? :: |e.asks| == SIZE
      modifies this
      ensures Valid() && old(issued) <= issued && old(lost) <= lost && old(called) <= called
      ensures id < old(issued) && id !in old(lost) && TickCount(events) >= 7 * ServersFrom(servers, 0) ==>
        id in called && id !in lost
      ensures id in old(lost) ==> id !in called
    {
      hide TableOk, Remains, TickCount;
      StartsRemaining(table, servers, Past(), id);
      ghost var n := 7 * ServersFrom(servers, 0);
      NoTicks(events);
      for i := 0 to |events|
        invariant Valid() && old(issued) <= issued && old(lost) <= lost && old(called) <= called
        invariant id < old(issued) && id !in old(lost) ==>
          id !in lost && Remains(table, servers, called, id, n - TickCount(events[..i]))
      {
        assert events[i] in events;
        TickCountStep(events, i);
        Handle(events[i], id, n - TickCount(events[..i]));
      }
      assert events[..|events|] == events;
      NothingRemains(table, servers, Past(), id, n - TickCount(events));
      LostIsNotCalled(table, servers, Past(), id);
    }
  }

  datatype Event = Ask(callback: bool) | Timer(asks: seq<seq<bool>>) | Incoming(m: Message, again: seq<bool>)

  function TickCount(events: seq<Event>): nat {
    if events == [] then 0 else TickCount(events[..|events| - 1]) + (if events[|events| - 1].Timer? then 1 else 0)
  }

  lemma NoTicks(events: seq<Event>)
    ensures TickCount(events[..0]) == 0
  {
  }

  lemma TickCountStep(events: seq<Event>, i: nat)
    requires i < |events|
    ensures TickCount(events[..i + 1]) == TickCount(events[..i]) + (if events[i].Timer? then 1 else 0)
  {
    assert events[..i + 1][..i] == events[..i];
  }

  /** Request id has had its callback, or waits for at most n more ticks. */
  ghost predicate Remains(table: seq<Entry>, servers: seq<bool>, called: seq<nat>, id: nat, n: int) {
    id in called || exists i | 0 <= i < |table| :: Waits(table[i], id) && TicksLeft(table[i], servers) <= n
  }

  lemma StartsRemaining(table: seq<Entry>, servers: seq<bool>, h: History, id: nat)
    requires TableOk(table, servers, h)
    ensures id < h.issued && id !in h.lost ==> Remains(table, servers, h.called, id, 7 * ServersFrom(servers, 0))
  {
    if id < h.issued && id !in h.lost && id !in h.called {
      assert Served(table, h, id);
      var i :| 0 <= i < |table| && Waits(table[i], id);
      assert EntryOk(table[i], servers, h);
    }
  }

  lemma NothingRemains(table: seq<Entry>, servers: seq<bool>, h: History, id: nat, n: int)
    requires TableOk(table, servers, h)
    ensures n <= 0 && Remains(table, servers, h.called, id, n) ==> id in h.called
  {
    if n <= 0 && Remains(table, servers, h.called, id, n) && id !in h.called {
      var i :| 0 <= i < |table| && Waits(table[i], id) && TicksLeft(table[i], servers) <= n;
      assert EntryOk(table[i], servers, h);
      TickCounts(table[i], servers);
    }
  }

  lemma LostIsNotCalled(table: seq<Entry>, servers: seq<bool>, h: History, id: nat)
    requires TableOk(table, servers, h)
    ensures id in h.lost ==> id !in h.called
  {
  }

  lemma RemainsKept(table: seq<Entry>, table': seq<Entry>, servers: seq<bool>, called: seq<nat>, called': seq<nat>,
                    id: nat, n: int, but: nat)
    requires WaitersKept(table, table', but) && called <= called'
    requires but < |table| && table'[but] != table[but] ==> forall x | x in Owed(table[but]) :: x in called'
    ensures Remains(table, servers, called, id, n) ==> Remains(table', servers, called', id, n)
  {
    if Remains(table, servers, called, id, n) && id !in called {
      var i :| 0 <= i < |table| && Waits(table[i], id) && TicksLeft(table[i], servers) <= n;
      if i == but && table'[but] != table[but] {
        assert id in Owed(table[but]);
      } else {
        assert table'[i] == table[i];
      }
    }
  }

  lemma RemainsTicked(table: seq<Entry>, table': seq<Entry>, servers: seq<bool>, called: seq<nat>, called': seq<nat>,
                      id: nat, n: int)
    requires |table| == |table'| && called <= called'
    requires forall i | 0 <= i < |table| && table[i].state.Asking? :: IsAsking(table[i], servers)
    requires forall i | 0 <= i < |table| && table[i].state.Asking? ::
      TickedWaiter(table[i], table'[i], called', servers)
    ensures Remains(table, servers, called, id, n) ==> Remains(table', servers, called', id, n - 1)
  {
    if Remains(table, servers, called, id, n) && id !in called {
      var i :| 0 <= i < |table| && Waits(table[i], id) && TicksLeft(table[i], servers) <= n;
      TickCounts(table[i], servers);
      assert TickedWaiter(table[i], table'[i], called', servers);
      if Tick(table[i], servers).Some? {
        assert Waits(table'[i], id);
      } else {
        assert id in Owed(table[i]);
      }
    }
  }

  /** Only a request that a callback has just made can be lost. */
  lemma LostIsNew(m: Message, table: seq<Entry>, seqno: nat, issued: nat, again: seq<bool>)
    ensures forall x | x in LostBy(m, table, seqno, issued, again) :: x >= issued
  {
    hide Asked;
    if IsFor(m, table) && AnswerIn(m).None? {
      var e := table[m.id];
      NewIsLate(table[m.id := Completed(m, e)], seqno, issued, AskedBy(e, again), m.id, issued);
    }
  }

  lemma {:induction false} NewIsLate(table: seq<Entry>, seqno: nat, issued: nat, asks: seq<bool>, i: nat, low: nat)
    requires i < |table| && low <= issued && forall x | x in Owed(table[i]) :: x >= low
    ensures var after := Asked(table, seqno, issued, asks).0;
      i < |after| && forall x | x in Owed(after[i]) :: x >= low
    decreases |asks|
  {
    hide Choose;
    if asks != [] {
      var slot := Choose(table, seqno);
      if slot >= |table| {
        NewIsLate(table, seqno, issued, asks[1..], i, low);
      } else {
        var e := NewEntry(seqno, if asks[0] then Some(issued) else None);
        NewIsLate(table[slot := e], (seqno + 1) % 256, issued + |Owed(e)|, asks[1..], i, low);
      }
    }
  }

  lemma AskedNothing(table: seq<Entry>, seqno: nat, issued: nat)
    ensures Asked(table, seqno, issued, []) == (table, seqno, issued)
  {
  }

  lemma SameTicks(e: Entry, e': Entry, servers: seq<bool>)
    requires Bounded(e, servers) && e' == e.(found := e'.found)
    ensures Bounded(e', servers)
  {
  }

  /** A waiting slot over one tick. */
  predicate TickedWaiter(was: Entry, now: Entry, called: seq<nat>, servers: seq<bool>) {
    match Tick(was, servers)
    case Some(next) => now == next
    case None => forall x | x in Owed(was) :: x in called
  }

  /** One slot over one tick in which no callback asks for anything. */
  predicate Ticked(was: Entry, now: Entry, servers: seq<bool>) {
    if was.state.Asking? then (if Tick(was, servers).Some? then now == Tick(was, servers).value else now.state.Unused?)
    else !now.state.Asking?
  }

  lemma AllBounded(table: seq<Entry>, servers: seq<bool>, h: History)
    requires TableOk(table, servers, h)
    ensures |table| == SIZE && forall i | 0 <= i < SIZE && table[i].state.Asking? :: Bounded(table[i], servers)
  {
    forall i | 0 <= i < SIZE && table[i].state.Asking? ensures Bounded(table[i], servers) {
      assert EntryOk(table[i], servers, h);
    }
  }

  lemma FirstIsChosen(table: seq<Entry>, seqno: nat, k: nat)
    requires k < |table| && table[k].state.Unused? && forall j | 0 <= j < k :: !table[j].state.Unused?
    ensures Choose(table, seqno) == k
  {
  }

  lemma OnlyDoneIsChosen(table: seq<Entry>, seqno: nat)
    requires |table| > 0 && table[0].state.Done? && forall j | 0 < j < |table| :: table[j].state.Asking?
    ensures Choose(table, seqno) == 0
  {
    OnlyDoneIsOldest(table, seqno, |table|);
    assert forall j | 0 <= j < |table| :: !table[j].state.Unused?;
  }

  lemma {:induction false} OnlyDoneIsOldest(table: seq<Entry>, seqno: nat, k: nat)
    requires |table| > 0 && table[0].state.Done? && k <= |table| && forall j | 0 < j < |table| :: table[j].state.Asking?
    ensures Oldest(table, seqno, k) == 0
  {
    if k > 0 {
      OnlyDoneIsOldest(table, seqno, k - 1);
    }
  }

  /** A request is lost: four requests fill the table, the first one fails, and its
      callback asks again. */
  method LosesOne() returns (r: Resolver)
    ensures fresh(r) && r.Valid() && r.issued == 5 && r.called == [0] && r.lost == {4}
  {
    hide TableOk, Choose, LostBy;
    r := new Resolver([true]);
    var unused := Entry(Unused, 0, 0, 0, 0, 0, None);
    assert r.table == [unused, unused, unused, unused];
    FirstIsChosen(r.table, 0, 0);
    var s := r.Enqueue(true);
    FirstIsChosen(r.table, 1, 1);
    s := r.Enqueue(true);
    FirstIsChosen(r.table, 2, 2);
    s := r.Enqueue(true);
    FirstIsChosen(r.table, 3, 3);
    s := r.Enqueue(true);
    var failure := Message(26, 0, true, 3, 1, true, []);
    var table := r.table[0 := r.table[0].(state := Done)];
    OnlyDoneIsChosen(table, 4);
    LosesItIff(failure, r.table, 4, 4);
    r.Receive(failure, [true]);
  }

  // ------------------------------------------------------- a table that looks full

  lemma {:induction false} OldestIsFound(table: seq<Entry>, seqno: nat, k: nat)
    requires k <= |table|
    ensures OldestOf(table, seqno, k, Oldest(table, seqno, k), OldestAge(table, seqno, k))
    decreases k
  {
    if k > 0 {
      OldestIsFound(table, seqno, k - 1);
    }
  }

  /** The last of the first n requests that slot i got, when the slots take turns. */
  function LastTurn(n: nat, i: nat): (j: nat)
    requires i < SIZE && i < n
    ensures j < n && n - j <= SIZE && j % SIZE == i
  {
    n - 1 - (n - 1 - i) % SIZE
  }

  /** After n requests, each answered before the next. */
  ghost predicate TookTurns(table: seq<Entry>, n: nat) {
    && |table| == SIZE
    && forall i: nat | i < SIZE ::
         if i < n then table[i].state.Done? && table[i].seqno == LastTurn(n, i) else table[i].state.Unused?
  }

  /** The slot whose turn comes next is the one whose last turn is longest ago. */
  lemma LongestAgo(n: nat, i: nat)
    requires i < SIZE <= n
    ensures 0 < n - LastTurn(n, i) <= SIZE && (n - LastTurn(n, i) == SIZE <==> i == n % SIZE)
  {
    if n - LastTurn(n, i) == SIZE {
      assert (n - SIZE) % SIZE == n % SIZE;
    }
    if i == n % SIZE {
      assert (n - 1 - i) % SIZE == SIZE - 1;
    }
  }

  /** Until the counter wraps around, the next request gets the next slot. */
  lemma NextTurn(table: seq<Entry>, n: nat)
    requires TookTurns(table, n)
    ensures Choose(table, n) == n % SIZE
  {
    if n < SIZE {
      FirstIsChosen(table, n, n);
    } else {
      hide LastTurn, OldestAge;
      OldestIsFound(table, n, SIZE);
      forall i: nat | i < SIZE ensures 0 < Age(table[i], n) <= SIZE && (Age(table[i], n) == SIZE <==> i == n % SIZE) {
        LongestAgo(n, i);
      }
      var i := n % SIZE;
      assert Age(table[i], n) == SIZE;
    }
  }

  /** Right after it wrapped around, slot 0 is taken, and then no slot is old enough. */
  lemma WrappedAround(table: seq<Entry>, e: Entry)
    requires TookTurns(table, 256) && e.state.Asking?
    ensures Choose(table, 0) == 0 && Choose(table[0 := e], 1) == SIZE
  {
    OldestIsFound(table, 0, SIZE);
    OldestIsFound(table[0 := e], 1, SIZE);
    assert forall i: nat | i < SIZE :: LastTurn(256, i) >= 252;
  }

  lemma LaterTurn(n: nat, i: nat)
    requires i < SIZE && i < n + 1
    ensures i != n % SIZE ==> i < n
    ensures LastTurn(n + 1, i) == if i == n % SIZE then n else LastTurn(n, i)
  {
  }

  lemma TurnTaken(table: seq<Entry>, n: nat, e: Entry)
    requires TookTurns(table, n) && e.state.Done? && e.seqno == n
    ensures TookTurns(table[n % SIZE := e], n + 1)
  {
    hide LastTurn;
    forall i: nat | i < SIZE && i < n + 1 ensures LastTurn(n + 1, i) == if i == n % SIZE then n else LastTurn(n, i) {
      LaterTurn(n, i);
    }
  }

  lemma AnsweredLosesNone(m: Message, table: seq<Entry>, seqno: nat, issued: nat, again: seq<bool>)
    requires AnswerIn(m).Some?
    ensures LostBy(m, table, seqno, issued, again) == []
  {
  }

  /** The table can look full although three of its four requests are answered: after 256
      of them the counter is 0 again, slot 0 gets the next one, and the others, which are
      older, have the larger numbers. */
  method LooksFull() returns (r: Resolver, slot: nat)
    ensures fresh(r) && r.Valid() && slot == SIZE && r.issued == 257 && r.lost == {}
    ensures Choose(r.table, r.seqno) == SIZE && forall i | 0 < i < SIZE :: r.table[i].state.Done?
  {
    hide TableOk, Choose, LostBy, Asked, LastTurn;
    r := new Resolver([true]);
    for n := 0 to 256
      invariant r.Valid() && TookTurns(r.table, n) && r.seqno == n % 256 && r.issued == n && r.lost == {} && fresh(r)
    {
      ghost var was := r.table;
      NextTurn(was, n);
      slot := r.Enqueue(true);
      var answer := Message(MSG_SIZE, slot, true, 0, 1, true, [Answer(true, 60)]);
      ghost var asked := r.table;
      AskedNothing(asked[slot := Completed(answer, asked[slot])], r.seqno, r.issued);
      AnsweredLosesNone(answer, asked, r.seqno, r.issued, []);
      r.Receive(answer, []);
      TurnTaken(was, n, r.table[slot]);
    }
    WrappedAround(r.table, NewEntry(0, Some(256)));
    slot := r.Enqueue(true);
    slot := r.Enqueue(true);
  }
}
