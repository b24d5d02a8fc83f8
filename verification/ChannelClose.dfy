/** Opening and closing channels while drivers poll them: FS or PM asks the driver to let
    go of a channel, PM takes it out of the driver's list and frees its page, and only
    then is the driver told to go on (vms/fs/main.c, vms/pm/main.c and the main loop of
    drivers/keyboard/main.c, which the other drivers repeat). A step is one action of one
    core; what the single loads and stores of the two handshakes do is the business of
    modules Channel and Ipc. */
module ChannelClose {
  import opened ChannelList

  /** Where a driver is. Test and the phases after it touch the page of channel c. */
  datatype Driver = Look | Test(c: nat) | Take(c: nat) | Read(c: nat) | Serve(c: nat) | Reply(c: nat)
                  | CloseReply(c: nat) | Blocked

  /** What the client side of a channel is doing: nothing, waiting for the driver, or FS
      or PM is closing it. */
  datatype User = Free | Waiting | Closing

  datatype Chan = Chan(live: bool, driver: nat, fd: nat, readySend: bool, readyReply: bool, close: bool, user: User)

  /** local_close_char of FS on channel c of driver d; dst is the driver it will release. */
  datatype Fs = FsIdle | FsSent(c: nat, d: nat, dst: nat) | FsAsk(c: nat, d: nat, dst: nat)
              | FsWait(c: nat, d: nat, dst: nat) | FsRelease(d: nat, dst: nat)

  /** PM: closing for an exiting process (own), or taking a channel out of the list of its
      driver and freeing it, for itself or for FS. */
  datatype Pm = PmIdle | PmSent(c: nat, d: nat, dst: nat) | PmCompact(c: nat, d: nat, dst: nat, own: bool)
              | PmFree(c: nat, d: nat, dst: nat, own: bool) | PmAnswer | PmRelease(d: nat, dst: nat)

  /** asked and answered are the request of FS to PM and its reply; go[d] is the message
      driver d waits for when blocked. */
  datatype State = State(drivers: seq<Driver>, index: seq<nat>, lists: seq<seq<nat>>, go: seq<bool>, chans: seq<Chan>,
                         fs: Fs, pm: Pm, asked: bool, answered: bool)

  const KBD: nat := 0
  const CONSOLE: nat := 1
  const JUNK: nat := 2

  /** What FS opens a channel for, and the descriptor number it gives it. */
  datatype Device = Stdin | Stdout | Junkfd(free: nat)

  function FdOf(dev: Device): nat {
    match dev
    case Stdin => 0
    case Stdout => 1
    case Junkfd(free) => 2 + free
  }

  function DriverOf(dev: Device): nat {
    match dev
    case Stdin => KBD
    case Stdout => CONSOLE
    case Junkfd(_) => JUNK
  }

  /** The driver FS and PM take a descriptor to belong to when they close it. */
  function DriverOfFd(fd: nat): nat { if fd == 0 then KBD else if fd == 1 then CONSOLE else JUNK }

  datatype Step =
    | LoadEntry(d: nat) | LoadReady(d: nat) | StoreTaken(d: nat) | LoadData(d: nat) | DoServe(d: nat) | DoReply(d: nat)
    | DoCloseReply(d: nat) | Wake(d: nat)
    | Send(c: nat) | Receive(c: nat)
    | FsClose(c: nat) | FsSee | FsCall | FsReturn | FsGo
    | PmOpen(c: nat, dev: Device) | PmClose(c: nat) | PmSee | PmServeFs | PmRemove | PmFreePage | PmReply | PmGo

  predicate IsDriver(st: State, d: nat) { d < |st.drivers| && d < |st.index| && d < |st.lists| && d < |st.go| }

  /** The driver has its hand on a channel page. */
  predicate Holds(dr: Driver) { !dr.Look? && !dr.Blocked? }

  predicate Usable(st: State, c: nat) { c < |st.chans| && st.chans[c].live && st.chans[c].user.Free? }

  predicate Enabled(st: State, step: Step) {
    match step
    case LoadEntry(d) => IsDriver(st, d) && st.drivers[d].Look?
    case LoadReady(d) => IsDriver(st, d) && st.drivers[d].Test? && st.drivers[d].c < |st.chans|
    case StoreTaken(d) => IsDriver(st, d) && st.drivers[d].Take? && st.drivers[d].c < |st.chans|
    case LoadData(d) => IsDriver(st, d) && st.drivers[d].Read? && st.drivers[d].c < |st.chans|
    case DoServe(d) => IsDriver(st, d) && st.drivers[d].Serve?
    case DoReply(d) => IsDriver(st, d) && st.drivers[d].Reply? && st.drivers[d].c < |st.chans|
    case DoCloseReply(d) => IsDriver(st, d) && st.drivers[d].CloseReply? && st.drivers[d].c < |st.chans|
    case Wake(d) => IsDriver(st, d) && st.drivers[d].Blocked? && st.go[d]
    case Send(c) => Usable(st, c)
    case Receive(c) => c < |st.chans| && st.chans[c].live && st.chans[c].user.Waiting? && st.chans[c].readyReply
    case FsClose(c) => st.fs.FsIdle? && Usable(st, c)
    case FsSee => st.fs.FsSent? && st.fs.c < |st.chans| && st.chans[st.fs.c].readyReply
    case FsCall => st.fs.FsAsk?
    case FsReturn => st.fs.FsWait? && st.answered
    case FsGo => st.fs.FsRelease? && st.fs.dst < |st.go|
    case PmOpen(c, dev) =>
      st.pm.PmIdle? && c < |st.chans| && !st.chans[c].live && IsDriver(st, DriverOf(dev))
    case PmClose(c) => st.pm.PmIdle? && Usable(st, c)
    case PmSee => st.pm.PmSent? && st.pm.c < |st.chans| && st.chans[st.pm.c].readyReply
    case PmServeFs => st.pm.PmIdle? && st.asked && st.fs.FsWait?
    case PmRemove => st.pm.PmCompact? && st.pm.d < |st.lists| && st.pm.c in st.lists[st.pm.d]
    case PmFreePage => st.pm.PmFree? && st.pm.c < |st.chans|
    case PmReply => st.pm.PmAnswer?
    case PmGo => st.pm.PmRelease? && st.pm.dst < |st.go|
  }

  function SetDriver(st: State, d: nat, dr: Driver): State
    requires d < |st.drivers|
  {
    st.(drivers := st.drivers[d := dr])
  }

  function SetChan(st: State, c: nat, ch: Chan): State
    requires c < |st.chans|
  {
    st.(chans := st.chans[c := ch])
  }

  /** The end of the list is a zero, after which the scan starts again. */
  function Loaded(st: State, d: nat): State
    requires IsDriver(st, d)
  {
    if st.index[d] < |st.lists[d]| then SetDriver(st, d, Test(st.lists[d][st.index[d]]))
    else st.(index := st.index[d := 0])
  }

  function Tested(st: State, d: nat, c: nat): State
    requires IsDriver(st, d) && c < |st.chans|
  {
    if st.chans[c].readySend then SetDriver(st, d, Take(c))
    else SetDriver(st, d, Look).(index := st.index[d := st.index[d] + 1])
  }

  function Opened(st: State, c: nat, d: nat, fd: nat): State
    requires c < |st.chans| && d < |st.lists|
  {
    SetChan(st, c, Chan(true, d, fd, false, false, false, Free)).(lists := st.lists[d := Added(st.lists[d], c)])
  }

  function Requested(ch: Chan, close: bool): Chan {
    ch.(readyReply := false, readySend := true, close := close, user := if close then Closing else Waiting)
  }

  function Apply(st: State, step: Step): State
    requires Enabled(st, step)
  {
    match step
    case LoadEntry(d) => Loaded(st, d)
    case LoadReady(d) => Tested(st, d, st.drivers[d].c)
    case StoreTaken(d) =>
      SetDriver(SetChan(st, st.drivers[d].c, st.chans[st.drivers[d].c].(readySend := false)), d, Read(st.drivers[d].c))
        .(index := st.index[d := st.index[d] + 1])
    case LoadData(d) =>
      SetDriver(st, d, if st.chans[st.drivers[d].c].close then CloseReply(st.drivers[d].c) else Serve(st.drivers[d].c))
    case DoServe(d) => SetDriver(st, d, Reply(st.drivers[d].c))
    case DoReply(d) => SetDriver(SetChan(st, st.drivers[d].c, st.chans[st.drivers[d].c].(readyReply := true)), d, Look)
    case DoCloseReply(d) =>
      SetDriver(SetChan(st, st.drivers[d].c, st.chans[st.drivers[d].c].(readyReply := true)), d, Blocked)
    case Wake(d) => SetDriver(st, d, Look).(go := st.go[d := false])
    case Send(c) => SetChan(st, c, Requested(st.chans[c], false))
    case Receive(c) => SetChan(st, c, st.chans[c].(readyReply := false, user := Free))
    case FsClose(c) =>
      SetChan(st, c, Requested(st.chans[c], true)).(fs := FsSent(c, st.chans[c].driver, DriverOfFd(st.chans[c].fd)))
    case FsSee =>
      SetChan(st, st.fs.c, st.chans[st.fs.c].(readyReply := false)).(fs := FsAsk(st.fs.c, st.fs.d, st.fs.dst))
    case FsCall => st.(fs := FsWait(st.fs.c, st.fs.d, st.fs.dst), asked := true)
    case FsReturn => st.(fs := FsRelease(st.fs.d, st.fs.dst), answered := false)
    case FsGo => st.(fs := FsIdle, go := st.go[st.fs.dst := true])
    case PmOpen(c, dev) => Opened(st, c, DriverOf(dev), FdOf(dev))
    case PmClose(c) =>
      SetChan(st, c, Requested(st.chans[c], true)).(pm := PmSent(c, st.chans[c].driver, DriverOfFd(st.chans[c].fd)))
    case PmSee =>
      SetChan(st, st.pm.c, st.chans[st.pm.c].(readyReply := false)).(pm := PmCompact(st.pm.c, st.pm.d, st.pm.dst, true))
    case PmServeFs => st.(pm := PmCompact(st.fs.c, st.fs.d, st.fs.dst, false), asked := false)
    case PmRemove =>
      st.(lists := st.lists[st.pm.d := Removed(st.lists[st.pm.d], st.pm.c)],
          pm := PmFree(st.pm.c, st.pm.d, st.pm.dst, st.pm.own))
    case PmFreePage =>
      SetChan(st, st.pm.c, st.chans[st.pm.c].(live := false)).(pm := if st.pm.own then PmRelease(st.pm.d, st.pm.dst)
                                                               else PmAnswer)
    case PmReply => st.(pm := PmIdle, answered := true)
    case PmGo => st.(pm := PmIdle, go := st.go[st.pm.dst := true])
  }

  // --------------------------------------------------------------------- safety

  predicate LiveOf(st: State, c: nat, d: nat) { c < |st.chans| && st.chans[c].live && st.chans[c].driver == d }

  /** No driver has its hand on a page that is not a live channel of its own, nor finds one
      in its list when it looks; and the driver whose list is being compacted or whose
      page is being freed is blocked. */
  ghost predicate Safe(st: State) {
    && (forall d: nat | d < |st.drivers| && Holds(st.drivers[d]) :: LiveOf(st, st.drivers[d].c, d))
    && (forall d: nat, c: nat | d < |st.drivers| && d < |st.lists| && !st.drivers[d].Blocked? && c in st.lists[d] ::
          LiveOf(st, c, d))
    && (st.pm.PmCompact? || st.pm.PmFree? ==> st.pm.d < |st.drivers| && st.drivers[st.pm.d].Blocked?)
  }

  /** The driver of every live channel is the one its descriptor number stands for. */
  predicate FdsMatch(st: State) {
    forall c: nat | c < |st.chans| && st.chans[c].live :: DriverOfFd(st.chans[c].fd) == st.chans[c].driver
  }

  // ------------------------------------------------------------------ invariant

  /** The driver has taken the request of channel c. */
  predicate Engaged(dr: Driver, c: nat) { Holds(dr) && !dr.Test? && !dr.Take? && dr.c == c }

  /** FS has driver d's promise to wait for it. */
  predicate FsHolds(st: State, d: nat) {
    match st.fs
    case FsIdle => false
    case FsSent(c, e, _) => e == d && c < |st.chans| && st.chans[c].readyReply
    case FsAsk(_, e, _) => e == d
    case FsWait(_, e, _) => e == d
    case FsRelease(e, _) => e == d
  }

  /** PM has it, closing for an exiting process. */
  predicate PmHolds(st: State, d: nat) {
    match st.pm
    case PmSent(c, e, _) => e == d && c < |st.chans| && st.chans[c].readyReply
    case PmCompact(_, e, _, own) => own && e == d
    case PmFree(_, e, _, own) => own && e == d
    case PmRelease(e, _) => e == d
    case _ => false
  }

  predicate Shape(st: State) { |st.drivers| == |st.index| == |st.lists| == |st.go| }

  /** A channel FS or PM is closing. */
  predicate ClosingOf(st: State, c: nat, d: nat, dst: nat) { LiveOf(st, c, d) && st.chans[c].user.Closing? && d == dst }

  predicate FlagsClear(st: State, c: nat) { c < |st.chans| && !st.chans[c].readySend && !st.chans[c].readyReply }

  /** Driver d may be in phase dr. */
  predicate PlaceOk(st: State, d: nat, dr: Driver) {
    Holds(dr) ==>
      && LiveOf(st, dr.c, d)
      && (dr.Take? ==> st.chans[dr.c].readySend)
      && (dr.CloseReply? ==> st.chans[dr.c].user.Closing?)
      && (dr.Serve? || dr.Reply? ==> st.chans[dr.c].user.Waiting?)
  }

  ghost predicate DriverOk(st: State, d: nat)
    requires Shape(st) && d < |st.drivers|
  {
    && PlaceOk(st, d, st.drivers[d])
    && Padded(st.lists[d]) && (forall c: nat | c in st.lists[d] :: LiveOf(st, c, d))
    && (st.drivers[d].Blocked? <==> st.go[d] || FsHolds(st, d) || PmHolds(st, d))
    && !(st.go[d] && FsHolds(st, d)) && !(st.go[d] && PmHolds(st, d)) && !(FsHolds(st, d) && PmHolds(st, d))
  }

  ghost predicate ChanOk(st: State, c: nat)
    requires Shape(st) && c < |st.chans|
  {
    var ch := st.chans[c];
    ch.live ==>
      && ch.driver < |st.drivers|
      && match ch.user
         case Free => FlagsClear(st, c) && !Engaged(st.drivers[ch.driver], c)
         case Waiting =>
           && !ch.close && !(ch.readySend && ch.readyReply)
           && (Engaged(st.drivers[ch.driver], c) <==> FlagsClear(st, c))
         case Closing =>
           && ch.close && !(ch.readySend && ch.readyReply)
           && (Engaged(st.drivers[ch.driver], c) ==> FlagsClear(st, c))
           && (Sent(st, c) || Later(st, c)) && (Sent(st, c) && FlagsClear(st, c) ==> Engaged(st.drivers[ch.driver], c))
           && (Later(st, c) ==> FlagsClear(st, c) && !Engaged(st.drivers[ch.driver], c))
  }

  /** The close request is on the channel. */
  predicate Sent(st: State, c: nat) { (st.fs.FsSent? && st.fs.c == c) || (st.pm.PmSent? && st.pm.c == c) }

  /** The driver has answered it. */
  predicate Later(st: State, c: nat) {
    || (st.fs.FsAsk? && st.fs.c == c) || (st.fs.FsWait? && st.fs.c == c && !Gone(st))
    || (st.pm.PmCompact? && st.pm.c == c) || (st.pm.PmFree? && st.pm.c == c)
  }

  /** PM has freed the channel FS asked about. */
  predicate Gone(st: State) { st.pm.PmAnswer? || st.answered }

  /** PM works for FS. */
  predicate ForFs(pm: Pm) { (pm.PmCompact? && !pm.own) || (pm.PmFree? && !pm.own) || pm.PmAnswer? }

  predicate FsOk(st: State)
    requires Shape(st)
  {
    && (!st.fs.FsWait? ==> !st.asked && !st.answered && !ForFs(st.pm))
    && match st.fs
       case FsIdle => true
       case FsSent(c, d, dst) => ClosingOf(st, c, d, dst)
       case FsAsk(c, d, dst) => ClosingOf(st, c, d, dst)
       case FsWait(c, d, dst) =>
         && d == dst < |st.drivers| && (st.asked ==> !st.answered && !ForFs(st.pm)) && (st.answered ==> !ForFs(st.pm))
         && (st.asked || st.answered || ForFs(st.pm))
         && (!Gone(st) ==> ClosingOf(st, c, d, dst))
         && (ForFs(st.pm) && !st.pm.PmAnswer? ==> st.pm.c == c && st.pm.d == d && st.pm.dst == dst)
       case FsRelease(d, dst) => d == dst < |st.drivers|
  }

  /** FS is closing channel c. */
  predicate FsCloses(st: State, c: nat) {
    (st.fs.FsSent? && st.fs.c == c) || (st.fs.FsAsk? && st.fs.c == c) || (st.fs.FsWait? && st.fs.c == c && !Gone(st))
  }

  predicate PmOk(st: State)
    requires Shape(st)
  {
    match st.pm
    case PmSent(c, d, dst) => ClosingOf(st, c, d, dst) && !FsCloses(st, c)
    case PmCompact(c, d, dst, own) => ClosingOf(st, c, d, dst) && (own ==> !FsCloses(st, c))
    case PmFree(c, d, dst, own) =>
      ClosingOf(st, c, d, dst) && d < |st.lists| && c !in st.lists[d] && (own ==> !FsCloses(st, c))
    case PmRelease(d, dst) => d == dst < |st.drivers|
    case _ => true
  }

  ghost predicate Inv(st: State) {
    && Shape(st) && FsOk(st) && PmOk(st) && FdsMatch(st)
    && (forall d: nat {:trigger DriverOk(st, d)} | d < |st.drivers| :: DriverOk(st, d))
    && (forall c: nat {:trigger ChanOk(st, c)} | c < |st.chans| :: ChanOk(st, c))
  }

  lemma InvIsSafe(st: State)
    requires Inv(st)
    ensures Safe(st)
  {
    forall d: nat | d < |st.drivers|
      ensures Holds(st.drivers[d]) ==> LiveOf(st, st.drivers[d].c, d)
      ensures forall c: nat | c in st.lists[d] :: LiveOf(st, c, d)
    {
      assert DriverOk(st, d);
    }
    if st.pm.PmCompact? || st.pm.PmFree? {
      assert ChanOk(st, st.pm.c);
      assert DriverOk(st, st.pm.d);
    }
  }

  /** Nothing changed for driver e. */
  predicate SameForDriver(st: State, st': State, e: nat)
    requires Shape(st) && Shape(st') && |st.drivers| == |st'.drivers| && e < |st.drivers|
  {
    && st'.drivers[e] == st.drivers[e] && st'.lists[e] == st.lists[e] && st'.go[e] == st.go[e]
    && FsHolds(st', e) == FsHolds(st, e) && PmHolds(st', e) == PmHolds(st, e)
  }

  /** Nothing changed for channel x, which may be one of driver d's. */
  predicate SameForChan(st: State, st': State, d: int, x: nat)
    requires Shape(st) && Shape(st') && |st.drivers| == |st'.drivers| && |st.chans| == |st'.chans| && x < |st.chans|
  {
    && st'.chans[x] == st.chans[x] && Sent(st', x) == Sent(st, x) && Later(st', x) == Later(st, x)
    && (0 <= d < |st.drivers| ==> Engaged(st'.drivers[d], x) == Engaged(st.drivers[d], x))
  }

  /** A step that concerns only driver d and channel c of that driver; -1 stands for none. */
  lemma Local(st: State, st': State, d: int, c: int)
    requires Inv(st) && Shape(st') && |st.drivers| == |st'.drivers| && |st.chans| == |st'.chans| && FsOk(st')
      && PmOk(st')
    requires 0 <= d < |st.drivers| ==> DriverOk(st', d)
    requires 0 <= c < |st.chans| ==>
      && ChanOk(st', c) && (st'.chans[c].live ==> DriverOfFd(st'.chans[c].fd) == st'.chans[c].driver)
      && (st.chans[c].live ==> st.chans[c].driver == d)
    requires forall e: nat {:trigger SameForDriver(st, st', e)} | e < |st.drivers| && e != d ::
      SameForDriver(st, st', e)
    requires forall x: nat {:trigger SameForChan(st, st', d, x)} | x < |st.chans| && x != c ::
      SameForChan(st, st', d, x)
    ensures Inv(st')
  {
    forall e: nat | e < |st.drivers| ensures DriverOk(st', e) {
      if e != d {
        assert DriverOk(st, e) && SameForDriver(st, st', e);
        OtherDriverKeeps(st, st', d, c, e);
      }
    }
    forall x: nat | x < |st.chans|
      ensures ChanOk(st', x) && (st'.chans[x].live ==> DriverOfFd(st'.chans[x].fd) == st'.chans[x].driver)
    {
      if x != c {
        assert ChanOk(st, x) && SameForChan(st, st', d, x);
        var e := st.chans[x].driver;
        assert st.chans[x].live && e != d ==> SameForDriver(st, st', e);
      }
    }
  }

  lemma OtherDriverKeeps(st: State, st': State, d: int, c: int, e: nat)
    requires Shape(st) && Shape(st') && |st.drivers| == |st'.drivers| && |st.chans| == |st'.chans| && e < |st.drivers|
      && e != d
    requires DriverOk(st, e) && SameForDriver(st, st', e)
    requires 0 <= c < |st.chans| && st.chans[c].live ==> st.chans[c].driver == d
    requires forall x: nat {:trigger SameForChan(st, st', d, x)} | x < |st.chans| && x != c ::
      SameForChan(st, st', d, x)
    ensures DriverOk(st', e)
  {
    forall x: nat | LiveOf(st, x, e) ensures LiveOf(st', x, e) && st'.chans[x] == st.chans[x] {
      assert SameForChan(st, st', d, x);
    }
  }

  /** A driver goes on without a store. */
  lemma DriverMoves(st: State, d: nat, dr: Driver, index: seq<nat>)
    requires Inv(st) && d < |st.drivers| && |index| == |st.index| && PlaceOk(st, d, dr)
    requires !st.drivers[d].Blocked? && !dr.Blocked?
    requires forall x: nat {:trigger Engaged(dr, x)} :: Engaged(dr, x) == Engaged(st.drivers[d], x)
    ensures Inv(st.(drivers := st.drivers[d := dr], index := index))
  {
    var st' := st.(drivers := st.drivers[d := dr], index := index);
    assert DriverOk(st, d);
    forall e: nat | e < |st.drivers| && e != d ensures SameForDriver(st, st', e) {
    }
    forall x: nat | x < |st.chans| ensures SameForChan(st, st', d, x) {
    }
    assert DriverOk(st', d);
    hide Inv, DriverOk;
    assert FsOk(st') && PmOk(st') by { assert Inv(st); PmFsSame(st, st'); }
    Local(st, st', d, -1);
  }

  lemma PmFsSame(st: State, st': State)
    requires Inv(st) && Shape(st') && |st'.drivers| == |st.drivers|
    requires st'.fs == st.fs && st'.pm == st.pm && st'.asked == st.asked && st'.answered == st.answered
    requires st'.chans == st.chans && st'.lists == st.lists
    ensures FsOk(st') && PmOk(st')
  {
  }

  lemma KeepsLoadEntry(st: State, d: nat)
    requires Inv(st) && IsDriver(st, d) && st.drivers[d].Look?
    ensures Inv(Loaded(st, d))
  {
    assert DriverOk(st, d);
    hide Inv;
    if st.index[d] < |st.lists[d]| {
      assert st.lists[d][st.index[d]] in st.lists[d];
      DriverMoves(st, d, Test(st.lists[d][st.index[d]]), st.index);
    } else {
      DriverMoves(st, d, Look, st.index[d := 0]);
      assert st.drivers[d := Look] == st.drivers;
    }
  }

  lemma KeepsLoadReady(st: State, d: nat, c: nat)
    requires Inv(st) && IsDriver(st, d) && st.drivers[d] == Test(c) && c < |st.chans|
    ensures Inv(Tested(st, d, c))
  {
    assert DriverOk(st, d);
    hide Inv;
    if st.chans[c].readySend {
      DriverMoves(st, d, Take(c), st.index);
    } else {
      DriverMoves(st, d, Look, st.index[d := st.index[d] + 1]);
    }
  }

  lemma KeepsLoadData(st: State, d: nat, c: nat)
    requires Inv(st) && IsDriver(st, d) && st.drivers[d] == Read(c) && c < |st.chans|
    ensures Inv(SetDriver(st, d, if st.chans[c].close then CloseReply(c) else Serve(c)))
  {
    assert DriverOk(st, d) && ChanOk(st, c);
    hide Inv;
    DriverMoves(st, d, if st.chans[c].close then CloseReply(c) else Serve(c), st.index);
  }

  lemma KeepsDoServe(st: State, d: nat, c: nat)
    requires Inv(st) && IsDriver(st, d) && st.drivers[d] == Serve(c)
    ensures Inv(SetDriver(st, d, Reply(c)))
  {
    assert DriverOk(st, d);
    hide Inv;
    DriverMoves(st, d, Reply(c), st.index);
  }

  lemma ClosersAt(st: State)
    requires Inv(st)
    ensures Shape(st) && FsOk(st) && PmOk(st)
  {
  }

  /** What the invariant says about driver d and its channel c. */
  lemma InvAt(st: State, d: nat, c: nat)
    requires Inv(st) && LiveOf(st, c, d)
    ensures Shape(st) && FsOk(st) && PmOk(st) && d < |st.drivers| && DriverOk(st, d) && ChanOk(st, c)
    ensures DriverOfFd(st.chans[c].fd) == d
  {
    assert ChanOk(st, c);
    assert DriverOk(st, d);
  }

  /** A step on channel c by its driver or its user: nobody starts or ends closing it. */
  lemma OnChannel(st: State, st': State, d: nat, c: nat)
    requires Inv(st) && LiveOf(st, c, d) && d < |st.drivers| == |st'.drivers| && |st.chans| == |st'.chans|
      && |st'.index| == |st.index|
    requires st' == st.(drivers := st.drivers[d := st'.drivers[d]], index := st'.index,
                        chans := st.chans[c := st'.chans[c]])
    requires LiveOf(st', c, d) && st'.chans[c].fd == st.chans[c].fd
      && st'.chans[c].user.Closing? == st.chans[c].user.Closing?
    requires forall x: nat {:trigger Engaged(st'.drivers[d], x)} | x != c ::
      Engaged(st'.drivers[d], x) == Engaged(st.drivers[d], x)
    requires Shape(st') && DriverOk(st', d) && ChanOk(st', c)
    ensures Inv(st')
  {
    ClosersAt(st);
    assert DriverOfFd(st.chans[c].fd) == d;
    hide Inv, DriverOk, ChanOk;
    ClosersKeep(st, st', d, c);
    forall e: nat | e < |st.drivers| && e != d ensures SameForDriver(st, st', e) {
    }
    hide FsOk, PmOk;
    forall x: nat | x < |st.chans| && x != c ensures SameForChan(st, st', d, x) {
    }
    Local(st, st', d, c);
  }

  lemma ClosersKeep(st: State, st': State, d: nat, c: nat)
    requires Shape(st) && Shape(st') && FsOk(st) && PmOk(st) && |st.drivers| == |st'.drivers|
      && |st.chans| == |st'.chans| && c < |st.chans|
    requires st'.fs == st.fs && st'.pm == st.pm && st'.asked == st.asked && st'.answered == st.answered
      && st'.lists == st.lists
    requires st'.chans == st.chans[c := st'.chans[c]]
    requires LiveOf(st, c, d) && LiveOf(st', c, d) && st'.chans[c].user.Closing? == st.chans[c].user.Closing?
    ensures FsOk(st') && PmOk(st')
  {
    assert forall x, e, dst :: ClosingOf(st', x, e, dst) <==> ClosingOf(st, x, e, dst);
  }

  lemma KeepsStoreTaken(st: State, d: nat, c: nat)
    requires Inv(st) && IsDriver(st, d) && st.drivers[d] == Take(c) && c < |st.chans|
    ensures Inv(SetDriver(SetChan(st, c, st.chans[c].(readySend := false)), d,
                          Read(c)).(index := st.index[d := st.index[d] + 1]))
  {
    assert DriverOk(st, d);
    hide Inv;
    var st' := SetDriver(SetChan(st, c, st.chans[c].(readySend := false)), d,
                         Read(c)).(index := st.index[d := st.index[d] + 1]);
    InvAt(st, d, c);
    assert DriverOk(st', d) && ChanOk(st', c);
    OnChannel(st, st', d, c);
  }

  lemma KeepsDoReply(st: State, d: nat, c: nat)
    requires Inv(st) && IsDriver(st, d) && st.drivers[d] == Reply(c) && c < |st.chans|
    ensures Inv(SetDriver(SetChan(st, c, st.chans[c].(readyReply := true)), d, Look))
  {
    assert DriverOk(st, d);
    hide Inv;
    var st' := SetDriver(SetChan(st, c, st.chans[c].(readyReply := true)), d, Look);
    InvAt(st, d, c);
    assert DriverOk(st', d) && ChanOk(st', c);
    OnChannel(st, st', d, c);
  }

  lemma KeepsDoCloseReply(st: State, d: nat, c: nat)
    requires Inv(st) && IsDriver(st, d) && st.drivers[d] == CloseReply(c) && c < |st.chans|
    ensures Inv(SetDriver(SetChan(st, c, st.chans[c].(readyReply := true)), d, Blocked))
  {
    assert DriverOk(st, d);
    hide Inv;
    var st' := SetDriver(SetChan(st, c, st.chans[c].(readyReply := true)), d, Blocked);
    InvAt(st, d, c);
    assert DriverOk(st', d) && ChanOk(st', c);
    OnChannel(st, st', d, c);
  }

  lemma KeepsSend(st: State, c: nat)
    requires Inv(st) && Usable(st, c)
    ensures Inv(SetChan(st, c, Requested(st.chans[c], false)))
  {
    hide Inv;
    var st', d := SetChan(st, c, Requested(st.chans[c], false)), st.chans[c].driver;
    InvAt(st, d, c);
    assert DriverOk(st', d) && ChanOk(st', c);
    OnChannel(st, st', d, c);
  }

  lemma KeepsReceive(st: State, c: nat)
    requires Inv(st) && c < |st.chans| && st.chans[c].live && st.chans[c].user.Waiting? && st.chans[c].readyReply
    ensures Inv(SetChan(st, c, st.chans[c].(readyReply := false, user := Free)))
  {
    hide Inv;
    var st', d := SetChan(st, c, st.chans[c].(readyReply := false, user := Free)), st.chans[c].driver;
    InvAt(st, d, c);
    assert DriverOk(st', d) && ChanOk(st', c);
    OnChannel(st, st', d, c);
  }

  lemma KeepsWake(st: State, d: nat)
    requires Inv(st) && IsDriver(st, d) && st.drivers[d].Blocked? && st.go[d]
    ensures Inv(SetDriver(st, d, Look).(go := st.go[d := false]))
  {
    var st' := SetDriver(st, d, Look).(go := st.go[d := false]);
    assert DriverOk(st, d);
    PmFsSame(st, st');
    hide Inv, FsOk, PmOk;
    forall e: nat | e < |st.drivers| && e != d ensures SameForDriver(st, st', e) {
    }
    forall x: nat | x < |st.chans| ensures SameForChan(st, st', d, x) {
    }
    assert DriverOk(st', d);
    Local(st, st', d, -1);
  }

  lemma KeepsFsClose(st: State, c: nat, d: nat)
    requires Inv(st) && st.fs.FsIdle? && Usable(st, c) && st.chans[c].driver == d
    ensures Inv(SetChan(st, c, Requested(st.chans[c], true)).(fs := FsSent(c, d, DriverOfFd(st.chans[c].fd))))
  {
    hide Inv;
    var st' := SetChan(st, c, Requested(st.chans[c], true)).(fs := FsSent(c, d, DriverOfFd(st.chans[c].fd)));
    ClosersAt(st);
    InvAt(st, d, c);
    forall e: nat | e < |st.drivers| && e != d ensures SameForDriver(st, st', e) {
    }
    forall x: nat | x < |st.chans| && x != c ensures SameForChan(st, st', d, x) {
    }
    assert FsOk(st') && PmOk(st') && DriverOk(st', d) && ChanOk(st', c);
    hide DriverOk, ChanOk, FsOk, PmOk;
    Local(st, st', d, c);
  }

  lemma KeepsFsSee(st: State, c: nat, d: nat, dst: nat)
    requires Inv(st) && st.fs == FsSent(c, d, dst) && c < |st.chans| && st.chans[c].readyReply
    ensures Inv(SetChan(st, c, st.chans[c].(readyReply := false)).(fs := FsAsk(c, d, dst)))
  {
    hide Inv;
    var st' := SetChan(st, c, st.chans[c].(readyReply := false)).(fs := FsAsk(c, d, dst));
    ClosersAt(st);
    InvAt(st, d, c);
    forall e: nat | e < |st.drivers| && e != d ensures SameForDriver(st, st', e) {
    }
    forall x: nat | x < |st.chans| && x != c ensures SameForChan(st, st', d, x) {
    }
    assert FsOk(st') && PmOk(st') && DriverOk(st', d) && ChanOk(st', c);
    hide DriverOk, ChanOk, FsOk, PmOk;
    Local(st, st', d, c);
  }

  lemma KeepsFsCall(st: State, c: nat, d: nat, dst: nat)
    requires Inv(st) && st.fs == FsAsk(c, d, dst)
    ensures Inv(st.(fs := FsWait(c, d, dst), asked := true))
  {
    hide Inv;
    var st' := st.(fs := FsWait(c, d, dst), asked := true);
    ClosersAt(st);
    InvAt(st, d, c);
    forall e: nat | e < |st.drivers| && e != d ensures SameForDriver(st, st', e) {
    }
    forall x: nat | x < |st.chans| && x != c ensures SameForChan(st, st', d, x) {
    }
    assert FsOk(st') && PmOk(st') && DriverOk(st', d) && ChanOk(st', c);
    hide DriverOk, ChanOk, FsOk, PmOk;
    Local(st, st', d, c);
  }

  lemma KeepsFsReturn(st: State, c: nat, d: nat, dst: nat)
    requires Inv(st) && st.fs == FsWait(c, d, dst) && st.answered
    ensures Inv(st.(fs := FsRelease(d, dst), answered := false))
  {
    hide Inv;
    var st' := st.(fs := FsRelease(d, dst), answered := false);
    ClosersAt(st);
    DriverAt(st, d);
    forall e: nat | e < |st.drivers| && e != d ensures SameForDriver(st, st', e) {
    }
    forall x: nat | x < |st.chans| ensures SameForChan(st, st', d, x) {
    }
    assert FsOk(st') && PmOk(st') && DriverOk(st', d);
    hide DriverOk, ChanOk, FsOk, PmOk;
    Local(st, st', d, -1);
  }

  lemma KeepsFsGo(st: State, d: nat, dst: nat)
    requires Inv(st) && st.fs == FsRelease(d, dst) && dst < |st.go|
    ensures Inv(st.(fs := FsIdle, go := st.go[dst := true]))
  {
    hide Inv;
    var st' := st.(fs := FsIdle, go := st.go[dst := true]);
    ClosersAt(st);
    DriverAt(st, d);
    forall e: nat | e < |st.drivers| && e != d ensures SameForDriver(st, st', e) {
    }
    forall x: nat | x < |st.chans| ensures SameForChan(st, st', d, x) {
    }
    assert FsOk(st') && PmOk(st') && DriverOk(st', d);
    hide DriverOk, ChanOk, FsOk, PmOk;
    Local(st, st', d, -1);
  }

  lemma KeepsPmOpen(st: State, c: nat, d: nat, fd: nat)
    requires Inv(st) && st.pm.PmIdle? && c < |st.chans| && !st.chans[c].live && IsDriver(st, d) && DriverOfFd(fd) == d
    ensures Inv(Opened(st, c, d, fd))
  {
    hide Inv;
    var st' := Opened(st, c, d, fd);
    ClosersAt(st);
    DriverAt(st, d);
    assert c !in st.lists[d];
    AddedIsPadded(st.lists[d], c);
    hide Padded, Added;
    forall e: nat | e < |st.drivers| && e != d ensures SameForDriver(st, st', e) {
    }
    forall x: nat | x < |st.chans| && x != c ensures SameForChan(st, st', d, x) {
    }
    assert FsOk(st') && PmOk(st') && DriverOk(st', d) && ChanOk(st', c);
    hide DriverOk, ChanOk, FsOk, PmOk;
    Local(st, st', d, c);
  }

  lemma KeepsPmClose(st: State, c: nat, d: nat)
    requires Inv(st) && st.pm.PmIdle? && Usable(st, c) && st.chans[c].driver == d
    ensures Inv(SetChan(st, c, Requested(st.chans[c], true)).(pm := PmSent(c, d, DriverOfFd(st.chans[c].fd))))
  {
    hide Inv;
    var st' := SetChan(st, c, Requested(st.chans[c], true)).(pm := PmSent(c, d, DriverOfFd(st.chans[c].fd)));
    ClosersAt(st);
    InvAt(st, d, c);
    forall e: nat | e < |st.drivers| && e != d ensures SameForDriver(st, st', e) {
    }
    forall x: nat | x < |st.chans| && x != c ensures SameForChan(st, st', d, x) {
    }
    assert FsOk(st') && PmOk(st') && DriverOk(st', d) && ChanOk(st', c);
    hide DriverOk, ChanOk, FsOk, PmOk;
    Local(st, st', d, c);
  }

  lemma KeepsPmSee(st: State, c: nat, d: nat, dst: nat)
    requires Inv(st) && st.pm == PmSent(c, d, dst) && c < |st.chans| && st.chans[c].readyReply
    ensures Inv(SetChan(st, c, st.chans[c].(readyReply := false)).(pm := PmCompact(c, d, dst, true)))
  {
    hide Inv;
    var st' := SetChan(st, c, st.chans[c].(readyReply := false)).(pm := PmCompact(c, d, dst, true));
    ClosersAt(st);
    InvAt(st, d, c);
    forall e: nat | e < |st.drivers| && e != d ensures SameForDriver(st, st', e) {
    }
    forall x: nat | x < |st.chans| && x != c ensures SameForChan(st, st', d, x) {
    }
    assert FsOk(st') && PmOk(st') && DriverOk(st', d) && ChanOk(st', c);
    hide DriverOk, ChanOk, FsOk, PmOk;
    Local(st, st', d, c);
  }

  lemma KeepsPmServeFs(st: State, c: nat, d: nat, dst: nat)
    requires Inv(st) && st.pm.PmIdle? && st.asked && st.fs == FsWait(c, d, dst)
    ensures Inv(st.(pm := PmCompact(c, d, dst, false), asked := false))
  {
    hide Inv;
    var st' := st.(pm := PmCompact(c, d, dst, false), asked := false);
    ClosersAt(st);
    InvAt(st, d, c);
    forall e: nat | e < |st.drivers| && e != d ensures SameForDriver(st, st', e) {
    }
    forall x: nat | x < |st.chans| && x != c ensures SameForChan(st, st', d, x) {
    }
    assert FsOk(st') && PmOk(st') && DriverOk(st', d) && ChanOk(st', c);
    hide DriverOk, ChanOk, FsOk, PmOk;
    Local(st, st', d, c);
  }

  lemma KeepsPmRemove(st: State, c: nat, d: nat, dst: nat, own: bool)
    requires Inv(st) && st.pm == PmCompact(c, d, dst, own) && d < |st.lists| && c in st.lists[d]
      && !Stuck(st.lists[d], c)
    ensures Inv(st.(lists := st.lists[d := Removed(st.lists[d], c)], pm := PmFree(c, d, dst, own)))
  {
    hide Inv, Removed;
    var st' := st.(lists := st.lists[d := Removed(st.lists[d], c)], pm := PmFree(c, d, dst, own));
    ClosersAt(st);
    InvAt(st, d, c);
    RemovedIff(st.lists[d], c);
    hide Padded, Stuck;
    forall e: nat | e < |st.drivers| && e != d ensures SameForDriver(st, st', e) {
    }
    forall x: nat | x < |st.chans| && x != c ensures SameForChan(st, st', d, x) {
    }
    assert FsOk(st') && PmOk(st') && DriverOk(st', d) && ChanOk(st', c);
    hide DriverOk, ChanOk, FsOk, PmOk;
    Local(st, st', d, c);
  }

  lemma KeepsPmFreePage(st: State, c: nat, d: nat, dst: nat, own: bool)
    requires Inv(st) && st.pm == PmFree(c, d, dst, own) && c < |st.chans|
    ensures Inv(SetChan(st, c, st.chans[c].(live := false)).(pm := if own then PmRelease(d, dst) else PmAnswer))
  {
    hide Inv;
    var st' := SetChan(st, c, st.chans[c].(live := false)).(pm := if own then PmRelease(d, dst) else PmAnswer);
    ClosersAt(st);
    InvAt(st, d, c);
    forall e: nat | e < |st.drivers| && e != d ensures SameForDriver(st, st', e) {
    }
    forall x: nat | x < |st.chans| && x != c ensures SameForChan(st, st', d, x) {
    }
    assert FsOk(st') && PmOk(st') && DriverOk(st', d) && ChanOk(st', c);
    hide DriverOk, ChanOk, FsOk, PmOk;
    Local(st, st', d, c);
  }

  lemma KeepsPmGo(st: State, d: nat, dst: nat)
    requires Inv(st) && st.pm == PmRelease(d, dst) && dst < |st.go|
    ensures Inv(st.(pm := PmIdle, go := st.go[dst := true]))
  {
    hide Inv;
    var st' := st.(pm := PmIdle, go := st.go[dst := true]);
    ClosersAt(st);
    DriverAt(st, d);
    forall e: nat | e < |st.drivers| && e != d ensures SameForDriver(st, st', e) {
    }
    forall x: nat | x < |st.chans| ensures SameForChan(st, st', d, x) {
    }
    assert FsOk(st') && PmOk(st') && DriverOk(st', d);
    hide DriverOk, ChanOk, FsOk, PmOk;
    Local(st, st', d, -1);
  }

  lemma KeepsPmReply(st: State)
    requires Inv(st) && st.pm.PmAnswer?
    ensures Inv(st.(pm := PmIdle, answered := true))
  {
    hide Inv;
    var st' := st.(pm := PmIdle, answered := true);
    ClosersAt(st);
    forall e: nat | e < |st.drivers| ensures SameForDriver(st, st', e) {
    }
    forall x: nat | x < |st.chans| ensures SameForChan(st, st', -1, x) {
    }
    assert FsOk(st') && PmOk(st');
    hide FsOk, PmOk;
    Local(st, st', -1, -1);
  }

  lemma DriverAt(st: State, d: nat)
    requires Inv(st) && d < |st.drivers|
    ensures DriverOk(st, d)
  {
  }

  // ----------------------------------------------------------------------- runs

  lemma StepKeeps(st: State, step: Step)
    requires Inv(st) && Enabled(st, step) && IsClean(st, step)
    ensures Inv(Apply(st, step))
  {
    hide Inv, Removed;
    match step
    case LoadEntry(d) => KeepsLoadEntry(st, d);
    case LoadReady(d) => KeepsLoadReady(st, d, st.drivers[d].c);
    case StoreTaken(d) => KeepsStoreTaken(st, d, st.drivers[d].c);
    case LoadData(d) => KeepsLoadData(st, d, st.drivers[d].c);
    case DoServe(d) => KeepsDoServe(st, d, st.drivers[d].c);
    case DoReply(d) => KeepsDoReply(st, d, st.drivers[d].c);
    case DoCloseReply(d) => KeepsDoCloseReply(st, d, st.drivers[d].c);
    case Wake(d) => KeepsWake(st, d);
    case Send(c) => KeepsSend(st, c);
    case Receive(c) => KeepsReceive(st, c);
    case FsClose(c) => KeepsFsClose(st, c, st.chans[c].driver);
    case FsSee => KeepsFsSee(st, st.fs.c, st.fs.d, st.fs.dst);
    case FsCall => KeepsFsCall(st, st.fs.c, st.fs.d, st.fs.dst);
    case FsReturn => KeepsFsReturn(st, st.fs.c, st.fs.d, st.fs.dst);
    case FsGo => KeepsFsGo(st, st.fs.d, st.fs.dst);
    case PmOpen(c, dev) => KeepsPmOpen(st, c, DriverOf(dev), FdOf(dev));
    case PmClose(c) => KeepsPmClose(st, c, st.chans[c].driver);
    case PmSee => KeepsPmSee(st, st.pm.c, st.pm.d, st.pm.dst);
    case PmServeFs => KeepsPmServeFs(st, st.fs.c, st.fs.d, st.fs.dst);
    case PmRemove => KeepsPmRemove(st, st.pm.c, st.pm.d, st.pm.dst, st.pm.own);
    case PmFreePage => KeepsPmFreePage(st, st.pm.c, st.pm.d, st.pm.dst, st.pm.own);
    case PmReply => KeepsPmReply(st);
    case PmGo => KeepsPmGo(st, st.pm.d, st.pm.dst);
  }

  /** No channel yet; all drivers look for one. */
  predicate Start(st: State) {
    && Shape(st) && st.fs.FsIdle? && st.pm.PmIdle? && !st.asked && !st.answered
    && (forall d | 0 <= d < |st.drivers| :: st.drivers[d].Look? && st.lists[d] == [] && !st.go[d])
    && (forall c | 0 <= c < |st.chans| :: !st.chans[c].live)
  }

  /** The steps can be taken one after the other. */
  predicate CanRun(st: State, steps: seq<Step>)
    decreases |steps|
  {
    steps == [] || (Enabled(st, steps[0]) && CanRun(Apply(st, steps[0]), steps[1..]))
  }

  function After(st: State, steps: seq<Step>): State
    requires CanRun(st, steps)
    decreases |steps|
  {
    if steps == [] then st else After(Apply(st, steps[0]), steps[1..])
  }

  /** The step does not take out the last channel of a full list. */
  predicate IsClean(st: State, step: Step) {
    step.PmRemove? && st.pm.PmCompact? && st.pm.d < |st.lists| ==> !Stuck(st.lists[st.pm.d], st.pm.c)
  }

  predicate IsCleanRun(st: State, steps: seq<Step>)
    requires CanRun(st, steps)
    decreases |steps|
  {
    steps == [] || (IsClean(st, steps[0]) && IsCleanRun(Apply(st, steps[0]), steps[1..]))
  }

  lemma {:induction false} RunKeeps(st: State, steps: seq<Step>)
    requires Inv(st) && CanRun(st, steps) && IsCleanRun(st, steps)
    ensures Inv(After(st, steps))
    decreases |steps|
  {
    hide Inv, Apply, Enabled, IsClean;
    if steps != [] {
      StepKeeps(st, steps[0]);
      RunKeeps(Apply(st, steps[0]), steps[1..]);
    }
  }

  lemma StartIsInv(st: State)
    requires Start(st)
    ensures Inv(st)
  {
    forall d: nat | d < |st.drivers| ensures DriverOk(st, d) {
    }
  }

  /** In every interleaving of FS, PM, clients and drivers in which the last channel of a
      full list is not closed, no driver ever touches or finds a page that is not its own
      live channel, and a driver is blocked whenever PM compacts its list or frees one of
      its pages. */
  lemma CloseIsSafe(st: State, steps: seq<Step>)
    requires Start(st) && CanRun(st, steps) && IsCleanRun(st, steps)
    ensures Safe(After(st, steps))
  {
    hide Inv;
    StartIsInv(st);
    RunKeeps(st, steps);
    InvIsSafe(After(st, steps));
  }

  // ------------------------------------------------------------ and exactly then

  lemma {:induction false} RunConcat(st: State, a: seq<Step>, b: seq<Step>)
    requires CanRun(st, a) && CanRun(After(st, a), b)
    ensures CanRun(st, a + b) && After(st, a + b) == After(After(st, a), b)
    decreases |a|
  {
    hide Apply, Enabled;
    if a == [] {
      assert a + b == b;
    } else {
      RunConcat(Apply(st, a[0]), a[1..], b);
      assert (a + b)[0] == a[0] && (a + b)[1..] == a[1..] + b;
    }
  }

  lemma RunFirst(st: State, step: Step, rest: seq<Step>)
    requires Enabled(st, step) && CanRun(Apply(st, step), rest)
    ensures CanRun(st, [step] + rest) && After(st, [step] + rest) == After(Apply(st, step), rest)
  {
    hide Apply, Enabled;
    assert ([step] + rest)[1..] == rest;
  }

  lemma RunNothing(st: State)
    ensures CanRun(st, []) && After(st, []) == st
  {
  }

  /** A driver that is told to go on, with channel c in its list and no page behind it. */
  predicate FindsFreed(st: State, d: nat, c: nat) {
    Shape(st) && d < |st.drivers| && st.drivers[d].Blocked? && c in st.lists[d] && c < |st.chans| && !st.chans[c].live
  }

  lemma WakesToFreed(st: State, d: nat, c: nat)
    requires FindsFreed(st, d, c) && st.go[d]
    ensures CanRun(st, [Wake(d)]) && !Safe(After(st, [Wake(d)]))
  {
    hide CanRun, After;
    var next := Apply(st, Wake(d));
    RunNothing(next);
    RunFirst(st, Wake(d), []);
    assert [Wake(d)] + [] == [Wake(d)];
    assert c in next.lists[d] && !next.drivers[d].Blocked? && !LiveOf(next, c, d);
  }

  lemma OwnReleaseIsUnsafe(st: State, d: nat, c: nat)
    requires FindsFreed(st, d, c) && st.pm == PmRelease(d, d)
    ensures CanRun(st, [PmGo] + [Wake(d)]) && !Safe(After(st, [PmGo] + [Wake(d)]))
  {
    hide CanRun, After, Safe;
    WakesToFreed(Apply(st, PmGo), d, c);
    RunFirst(st, PmGo, [Wake(d)]);
  }

  lemma FsReleaseIsUnsafe(st: State, d: nat, c: nat)
    requires FindsFreed(st, d, c) && st.fs.FsWait? && st.fs.d == st.fs.dst == d && st.pm.PmAnswer?
    ensures
      var steps := [PmReply] + ([FsReturn] + ([FsGo] + [Wake(d)]));
      CanRun(st, steps) && !Safe(After(st, steps))
  {
    hide CanRun, After, Safe;
    var s1 := Apply(st, PmReply);
    var s2 := Apply(s1, FsReturn);
    var s3 := Apply(s2, FsGo);
    WakesToFreed(s3, d, c);
    RunFirst(s2, FsGo, [Wake(d)]);
    RunFirst(s1, FsReturn, [FsGo] + [Wake(d)]);
    RunFirst(st, PmReply, [FsReturn] + ([FsGo] + [Wake(d)]));
  }

  /** Closing the last channel of a full list leaves it in the list: when the driver is
      told to go on, it finds a freed page there. */
  lemma StuckIsUnsafe(st: State) returns (steps: seq<Step>)
    requires Inv(st) && Enabled(st, PmRemove) && !IsClean(st, PmRemove)
    ensures CanRun(st, steps) && steps != [] && steps[0] == PmRemove && !Safe(After(st, steps))
  {
    var c, d := st.pm.c, st.pm.d;
    ClosersAt(st);
    InvAt(st, d, c);
    RemovedIff(st.lists[d], c);
    var s1 := Apply(st, PmRemove);
    var s2 := Apply(s1, PmFreePage);
    assert FindsFreed(s2, d, c);
    hide Inv, Removed, CanRun, After, Safe, DriverOk, ChanOk, FsOk, PmOk, FindsFreed;
    var rest: seq<Step>;
    if st.pm.own {
      OwnReleaseIsUnsafe(s2, d, c);
      rest := [PmGo] + [Wake(d)];
    } else {
      FsReleaseIsUnsafe(s2, d, c);
      rest := [PmReply] + ([FsReturn] + ([FsGo] + [Wake(d)]));
    }
    RunFirst(s1, PmFreePage, rest);
    RunFirst(st, PmRemove, [PmFreePage] + rest);
    steps := [PmRemove] + ([PmFreePage] + rest);
  }

  /** A run that closes the last channel of a full list can go on, from there, to a state
      that is not safe: so closing is safe exactly when that does not happen. */
  lemma {:induction false} UncleanIsUnsafe(st: State, steps: seq<Step>) returns (bad: seq<Step>, k: nat)
    requires Inv(st) && CanRun(st, steps) && !IsCleanRun(st, steps)
    ensures CanRun(st, bad) && !Safe(After(st, bad))
    ensures k < |steps| && k < |bad| && bad[..k] == steps[..k] && bad[k] == steps[k] == PmRemove
    decreases |steps|
  {
    hide Inv, Safe, Removed, Apply, Enabled;
    if IsClean(st, steps[0]) {
      hide IsClean;
      StepKeeps(st, steps[0]);
      bad, k := UncleanIsUnsafe(Apply(st, steps[0]), steps[1..]);
      RunFirst(st, steps[0], bad);
      assert steps[..k + 1] == [steps[0]] + steps[1..][..k] && ([steps[0]] + bad)[..k + 1] == [steps[0]] + bad[..k];
      bad, k := [steps[0]] + bad, k + 1;
    } else {
      bad := StuckIsUnsafe(st);
      k := 0;
    }
  }

  // --------------------------------------------------------------- such a run

  const MANY: nat := 32

  function Range(k: nat): seq<nat> { seq(k, i => i) }

  function JunkChan(live: bool, c: nat): Chan { Chan(live, JUNK, 2 + c, false, false, false, Free) }

  function JunkChans(k: nat): (chans: seq<Chan>)
    ensures |chans| == MANY && forall c | 0 <= c < MANY :: chans[c] == JunkChan(c < k, c)
  {
    seq(MANY, c requires 0 <= c => JunkChan(c < k, c))
  }

  /** The junk driver has k channels. */
  function Filled(k: nat): State {
    State([Look, Look, Look], [0, 0, 0], [[], [], Range(k)], [false, false, false], JunkChans(k), FsIdle, PmIdle,
          false, false)
  }

  function Opens(k: nat): seq<Step> {
    if k == 0 then [] else Opens(k - 1) + [PmOpen(k - 1, Junkfd(k - 1))]
  }

  /** PM closes the last one while the driver looks at slot i. */
  function Asked(i: nat): State {
    Filled(MANY).(chans := Filled(MANY).chans[MANY - 1 := Requested(JunkChan(true, MANY - 1), true)],
                  pm := PmSent(MANY - 1, JUNK, JUNK), index := [0, 0, i])
  }

  function Scans(i: nat): seq<Step> {
    if i == 0 then [] else Scans(i - 1) + ([LoadEntry(JUNK)] + [LoadReady(JUNK)])
  }

  lemma {:induction false} OpensFill(k: nat)
    requires k <= MANY
    ensures CanRun(Filled(0), Opens(k)) && After(Filled(0), Opens(k)) == Filled(k)
  {
    hide CanRun, After;
    if k == 0 {
      RunNothing(Filled(0));
    } else {
      OpensFill(k - 1);
      OpenOne(k - 1);
      RunNothing(Filled(k));
      RunFirst(Filled(k - 1), PmOpen(k - 1, Junkfd(k - 1)), []);
      assert [PmOpen(k - 1, Junkfd(k - 1))] + [] == [PmOpen(k - 1, Junkfd(k - 1))];
      RunConcat(Filled(0), Opens(k - 1), [PmOpen(k - 1, Junkfd(k - 1))]);
    }
  }

  lemma OpenOne(k: nat)
    requires k < MANY
    ensures Enabled(Filled(k), PmOpen(k, Junkfd(k))) && Apply(Filled(k), PmOpen(k, Junkfd(k))) == Filled(k + 1)
  {
    var st := Opened(Filled(k), k, JUNK, 2 + k);
    assert st.lists == [[], [], Range(k + 1)] by { assert Range(k) + [k] == Range(k + 1); }
    assert st.chans == Filled(k + 1).chans;
  }

  lemma {:induction false} ScansReach(i: nat)
    requires i < MANY
    ensures CanRun(Asked(0), Scans(i)) && After(Asked(0), Scans(i)) == Asked(i)
  {
    hide CanRun, After;
    if i == 0 {
      RunNothing(Asked(0));
    } else {
      ScansReach(i - 1);
      ScanOne(i - 1);
      RunConcat(Asked(0), Scans(i - 1), [LoadEntry(JUNK)] + [LoadReady(JUNK)]);
    }
  }

  lemma ScanOne(i: nat)
    requires i < MANY - 1
    ensures
      var steps := [LoadEntry(JUNK)] + [LoadReady(JUNK)];
      CanRun(Asked(i), steps) && After(Asked(i), steps) == Asked(i + 1)
  {
    hide CanRun, After;
    var s0 := Asked(i);
    var s1 := SetDriver(s0, JUNK, Test(i));
    assert s0.lists[JUNK][i] == i && Apply(s0, LoadEntry(JUNK)) == s1;
    assert s1.chans[i] == JunkChan(true, i);
    assert Apply(s1, LoadReady(JUNK)) == Asked(i + 1) by {
      assert s0.drivers[JUNK := Test(i)][JUNK := Look] == s0.drivers;
    }
    RunNothing(Asked(i + 1));
    RunFirst(s1, LoadReady(JUNK), []);
    assert [LoadReady(JUNK)] + [] == [LoadReady(JUNK)];
    RunFirst(s0, LoadEntry(JUNK), [LoadReady(JUNK)]);
  }

  lemma {:induction false} CleanWithoutRemove(st: State, steps: seq<Step>)
    requires CanRun(st, steps) && PmRemove !in steps
    ensures IsCleanRun(st, steps)
    decreases |steps|
  {
    hide Apply, Enabled;
    if steps != [] {
      assert PmRemove !in steps[1..];
      CleanWithoutRemove(Apply(st, steps[0]), steps[1..]);
    }
  }

  lemma {:induction false} OpensRemoveNothing(k: nat)
    ensures PmRemove !in Opens(k)
  {
    if k != 0 {
      OpensRemoveNothing(k - 1);
    }
  }

  lemma {:induction false} ScansRemoveNothing(i: nat)
    ensures PmRemove !in Scans(i)
  {
    if i != 0 {
      ScansRemoveNothing(i - 1);
    }
  }

  lemma CloseLast()
    ensures CanRun(Filled(MANY), [PmClose(MANY - 1)]) && After(Filled(MANY), [PmClose(MANY - 1)]) == Asked(0)
  {
    hide CanRun, After;
    var s0 := Filled(MANY);
    assert s0.chans[MANY - 1] == JunkChan(true, MANY - 1);
    assert Apply(s0, PmClose(MANY - 1)) == Asked(0);
    RunNothing(Asked(0));
    RunFirst(s0, PmClose(MANY - 1), []);
    assert [PmClose(MANY - 1)] + [] == [PmClose(MANY - 1)];
  }

  /** The driver is at dr, with the last channel in state ch and PM in phase pm. */
  function Turn(dr: Driver, index: nat, ch: Chan, pm: Pm): State {
    Filled(MANY).(drivers := [Look, Look, dr], index := [0, 0, index], chans := JunkChans(MANY)[MANY - 1 := ch],
                  pm := pm)
  }

  /** The last channel, with the request to close it. */
  function ClosingChan(readySend: bool, readyReply: bool): Chan {
    Chan(true, JUNK, 1 + MANY, readySend, readyReply, true, Closing)
  }

  function Answered(): State {
    Turn(Blocked, MANY, ClosingChan(false, false), PmCompact(MANY - 1, JUNK, JUNK, true))
  }

  function Takes(): seq<Step> { [LoadEntry(JUNK)] + ([LoadReady(JUNK)] + [StoreTaken(JUNK)]) }

  function Answers(): seq<Step> { [LoadData(JUNK)] + ([DoCloseReply(JUNK)] + [PmSee]) }

  lemma TurnStep(dr: Driver, next: Driver, index: nat, ch: Chan, step: Step)
    requires match step
      case LoadEntry(d) => d == JUNK && dr == Look && index == MANY - 1 && next == Test(MANY - 1)
      case LoadReady(d) => d == JUNK && dr == Test(MANY - 1) && ch.readySend && next == Take(MANY - 1)
      case LoadData(d) => d == JUNK && dr == Read(MANY - 1) && ch.close && next == CloseReply(MANY - 1)
      case _ => false
    ensures
      var pm := PmSent(MANY - 1, JUNK, JUNK);
      Enabled(Turn(dr, index, ch, pm), step) && Apply(Turn(dr, index, ch, pm), step) == Turn(next, index, ch, pm)
  {
    assert Range(MANY)[MANY - 1] == MANY - 1;
  }

  lemma TakeLast()
    ensures
      var s3 := Turn(Read(MANY - 1), MANY, ClosingChan(false, false), PmSent(MANY - 1, JUNK, JUNK));
      CanRun(Asked(MANY - 1), Takes()) && After(Asked(MANY - 1), Takes()) == s3
  {
    hide CanRun, After, JunkChans;
    var pm := PmSent(MANY - 1, JUNK, JUNK);
    var s0 := Turn(Look, MANY - 1, ClosingChan(true, false), pm);
    var s1 := Turn(Test(MANY - 1), MANY - 1, ClosingChan(true, false), pm);
    var s2 := Turn(Take(MANY - 1), MANY - 1, ClosingChan(true, false), pm);
    var s3 := Turn(Read(MANY - 1), MANY, ClosingChan(false, false), pm);
    assert s0 == Asked(MANY - 1);
    TurnStep(Look, Test(MANY - 1), MANY - 1, ClosingChan(true, false), LoadEntry(JUNK));
    TurnStep(Test(MANY - 1), Take(MANY - 1), MANY - 1, ClosingChan(true, false), LoadReady(JUNK));
    assert Enabled(s2, StoreTaken(JUNK)) && Apply(s2, StoreTaken(JUNK)) == s3;
    hide Apply, Enabled, Turn, Asked;
    RunNothing(s3);
    RunFirst(s2, StoreTaken(JUNK), []);
    assert [StoreTaken(JUNK)] + [] == [StoreTaken(JUNK)];
    RunFirst(s1, LoadReady(JUNK), [StoreTaken(JUNK)]);
    RunFirst(s0, LoadEntry(JUNK), [LoadReady(JUNK)] + [StoreTaken(JUNK)]);
  }

  /** The driver answers the request and blocks, and PM sees the answer. */
  lemma AnswerLast()
    ensures
      var s0 := Turn(Read(MANY - 1), MANY, ClosingChan(false, false), PmSent(MANY - 1, JUNK, JUNK));
      CanRun(s0, Answers()) && After(s0, Answers()) == Answered()
  {
    hide CanRun, After, JunkChans;
    var pm := PmSent(MANY - 1, JUNK, JUNK);
    var s0 := Turn(Read(MANY - 1), MANY, ClosingChan(false, false), pm);
    var s1 := Turn(CloseReply(MANY - 1), MANY, ClosingChan(false, false), pm);
    var s2 := Turn(Blocked, MANY, ClosingChan(false, true), pm);
    TurnStep(Read(MANY - 1), CloseReply(MANY - 1), MANY, ClosingChan(false, false), LoadData(JUNK));
    assert Enabled(s1, DoCloseReply(JUNK)) && Apply(s1, DoCloseReply(JUNK)) == s2;
    assert Enabled(s2, PmSee) && Apply(s2, PmSee) == Answered();
    hide Apply, Enabled, Turn, Answered;
    RunNothing(Answered());
    RunFirst(s2, PmSee, []);
    assert [PmSee] + [] == [PmSee];
    RunFirst(s1, DoCloseReply(JUNK), [PmSee]);
    RunFirst(s0, LoadData(JUNK), [DoCloseReply(JUNK)] + [PmSee]);
  }

  /** 32 channels of the junk driver are opened, the last one is closed, and the driver
      answers. */
  function FillAndClose(): seq<Step> { Opens(MANY) + [PmClose(MANY - 1)] + Scans(MANY - 1) + Takes() + Answers() }

  lemma FillAndCloseRuns()
    ensures CanRun(Filled(0), FillAndClose()) && After(Filled(0), FillAndClose()) == Answered()
  {
    hide CanRun, After, Apply, Enabled;
    var st := Filled(0);
    OpensFill(MANY);
    CloseLast();
    RunConcat(st, Opens(MANY), [PmClose(MANY - 1)]);
    ScansReach(MANY - 1);
    RunConcat(st, Opens(MANY) + [PmClose(MANY - 1)], Scans(MANY - 1));
    TakeLast();
    RunConcat(st, Opens(MANY) + [PmClose(MANY - 1)] + Scans(MANY - 1), Takes());
    AnswerLast();
    RunConcat(st, Opens(MANY) + [PmClose(MANY - 1)] + Scans(MANY - 1) + Takes(), Answers());
  }

  lemma FillAndCloseIsClean()
    requires CanRun(Filled(0), FillAndClose())
    ensures IsCleanRun(Filled(0), FillAndClose())
  {
    hide CanRun, IsCleanRun, Filled;
    OpensRemoveNothing(MANY);
    ScansRemoveNothing(MANY - 1);
    CleanWithoutRemove(Filled(0), FillAndClose());
  }

  lemma FilledStarts()
    ensures Start(Filled(0))
  {
  }

  lemma AnsweredIsStuck()
    ensures Enabled(Answered(), PmRemove) && !IsClean(Answered(), PmRemove)
  {
    assert Range(MANY)[MANY - 1] == MANY - 1;
  }

  /** A run from an empty system that ends in a state that is not safe: the junk driver
      gets 32 channels and the last one is closed. */
  lemma FullListFails() returns (st: State, steps: seq<Step>)
    ensures Start(st) && CanRun(st, steps) && !Safe(After(st, steps))
    ensures FillAndClose() < steps
  {
    hide *;
    st := Filled(0);
    FilledStarts();
    FillAndCloseRuns();
    FillAndCloseIsClean();
    StartIsInv(st);
    RunKeeps(st, FillAndClose());
    AnsweredIsStuck();
    var bad := StuckIsUnsafe(Answered());
    RunConcat(st, FillAndClose(), bad);
    steps := FillAndClose() + bad;
  }
}
