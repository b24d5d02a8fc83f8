/** set_bit and clear_bit (lib/bitmap.c) as the load and the store they are. Neither is
    locked, so two cores that change one ready bitmap may both load it first. */
module BitSteps {
  import opened Bitmap
  import opened Ipc

  /** The word a core has loaded and not stored yet. */
  datatype Held = Nothing | Loaded(word: Word)

  datatype Split = Split(st: State, held: seq<Held>)

  /** A step of Ipc, or one half of a bit operation of core c. */
  datatype Half = Whole(step: Step) | Load(c: nat) | Store(c: nat)

  /** The core that takes the step. */
  function Actor(step: Step): nat {
    match step
    case Begin(c, _) => c
    case StoreFrom(c) => c
    case StoreNumber(c) => c
    case StoreByte(c) => c
    case StoreReady(c) => c
    case TakeReply(c) => c
    case LoadByte(c) => c
    case EndCall(c) => c
    case SeeBits(s) => s
    case CheckNext(s) => s
    case ClearFound(s) => s
    case LoadRequestByte(s) => s
    case Accept(s) => s
    case BeginReply(s, _, _) => s
    case StoreReplyFrom(s) => s
    case StoreReplyByte(s) => s
    case Publish(s) => s
  }

  predicate IsBitStep(step: Step) { step.StoreReady? || step.ClearFound? }

  /** Core c is about to change a bitmap: it sets its bit at a server, or clears a client's. */
  predicate Changes(st: State, c: nat) {
    c < |st| && (if st[c].call.SetReady? then st[c].call.req.to < |st| else st[c].call.Idle? && st[c].serve.Clear?)
  }

  /** The step of Ipc that joins the load and the store. */
  function Joined(st: State, c: nat): Step
    requires Changes(st, c)
  {
    if st[c].call.SetReady? then StoreReady(c) else ClearFound(c)
  }

  /** The core whose bitmap it changes. */
  function Target(st: State, c: nat): (s: nat)
    requires Changes(st, c)
    ensures s < |st|
  {
    if st[c].call.SetReady? then st[c].call.req.to else c
  }

  /** The bit it changes. */
  function BitOf(st: State, c: nat): nat
    requires Changes(st, c)
  {
    if st[c].call.SetReady? then c else st[c].serve.found
  }

  /** What it stores after it loaded w. */
  function Changed(st: State, c: nat, w: Word): Word
    requires Changes(st, c)
  {
    if BitOf(st, c) >= 32 then w
    else if st[c].call.SetReady? then SetBit(w, BitOf(st, c))
    else ClearBit(w, BitOf(st, c))
  }

  function WithBits(st: State, s: nat, w: Word): State { if s < |st| then st[s := st[s].(bits := w)] else st }

  predicate Able(x: Split, half: Half) {
    && |x.held| == |x.st| <= 32
    && match half
       case Whole(step) =>
         Enabled(x.st, step) && !IsBitStep(step) && Actor(step) < |x.held| && x.held[Actor(step)].Nothing?
       case Load(c) => Changes(x.st, c) && x.held[c].Nothing?
       case Store(c) => Changes(x.st, c) && x.held[c].Loaded?
  }

  function Next(x: Split, half: Half): Split
    requires Able(x, half)
  {
    match half
    case Whole(step) => Split(Apply(x.st, step), x.held)
    case Load(c) => Split(x.st, x.held[c := Loaded(x.st[Target(x.st, c)].bits)])
    case Store(c) =>
      Split(WithBits(Apply(x.st, Joined(x.st, c)), Target(x.st, c), Changed(x.st, c, x.held[c].word)),
            x.held[c := Nothing])
  }

  /** The states of a run from a start in which no core holds a word. */
  ghost predicate IsSplitRun(xs: seq<Split>, halves: seq<Half>) {
    && |xs| == |halves| + 1 && Start(xs[0].st) && xs[0].held == seq(|xs[0].st|, _ => Nothing)
    && forall i {:trigger halves[i]} | 0 <= i < |halves| ::
         Able(xs[i], halves[i]) && xs[i + 1] == Next(xs[i], halves[i])
  }

  /** The words differ at most in this bit. */
  ghost predicate SameBut(v: Word, w: Word, bit: nat) { forall j | 0 <= j < 64 && j != bit :: v[j] == w[j] }

  // -------------------------------------------------- when the halves may be joined

  lemma JoinedSetsBits(st: State, c: nat)
    requires Changes(st, c) && |st| <= 32
    ensures Enabled(st, Joined(st, c))
    ensures |Apply(st, Joined(st, c))| == |st|
    ensures Apply(st, Joined(st, c))[Target(st, c)].bits == Changed(st, c, st[Target(st, c)].bits)
  {
  }

  lemma ChangedAlike(st: State, c: nat, v: Word, w: Word)
    requires Changes(st, c) && BitOf(st, c) < 31
    ensures Changed(st, c, v) == Changed(st, c, w) <==> SameBut(v, w, BitOf(st, c))
  {
    var b := BitOf(st, c);
    BitsAreASet(v, b);
    BitsAreASet(w, b);
    if Changed(st, c, v) == Changed(st, c, w) {
      forall j | 0 <= j < 64 && j != b ensures v[j] == w[j] {
        assert Changed(st, c, v)[j] == v[j] && Changed(st, c, w)[j] == w[j];
      }
    }
    if SameBut(v, w, b) {
      assert Changed(st, c, v) == Changed(st, c, w);
    }
  }

  /** A store leaves what one joined step would leave exactly when nobody changed another bit
      of that word since the load. */
  lemma StoreJoinsIff(x: Split, c: nat)
    requires Able(x, Store(c)) && BitOf(x.st, c) < 31
    ensures Enabled(x.st, Joined(x.st, c))
    ensures Next(x, Store(c)).st == Apply(x.st, Joined(x.st, c))
       <==> SameBut(x.held[c].word, x.st[Target(x.st, c)].bits, BitOf(x.st, c))
  {
    hide Apply, Enabled, Changed;
    var s := Target(x.st, c);
    JoinedSetsBits(x.st, c);
    ChangedAlike(x.st, c, x.held[c].word, x.st[s].bits);
    var whole := Apply(x.st, Joined(x.st, c));
    var half := Next(x, Store(c)).st;
    assert half[s].bits == Changed(x.st, c, x.held[c].word);
    if Changed(x.st, c, x.held[c].word) == whole[s].bits {
      assert half == whole;
    }
  }

  /** The step is no store, or its store joins with its load. */
  ghost predicate Undisturbed(x: Split, half: Half) {
    && Able(x, half)
    && (half.Store? ==> SameBut(x.held[half.c].word, x.st[Target(x.st, half.c)].bits, BitOf(x.st, half.c)))
  }

  ghost predicate AllUndisturbed(xs: seq<Split>, halves: seq<Half>, n: nat)
    requires n <= |halves| && n <= |xs|
  {
    forall k {:trigger halves[k]} | 0 <= k < n :: Undisturbed(xs[k], halves[k])
  }

  lemma ExtendRun(sts: seq<State>, steps: seq<Step>, step: Step)
    requires IsRun(sts, steps) && |sts[|steps|]| <= 32 && Enabled(sts[|steps|], step)
    ensures IsRun(sts + [Apply(sts[|steps|], step)], steps + [step])
  {
    hide Apply, Enabled, Start;
    var sts', steps' := sts + [Apply(sts[|steps|], step)], steps + [step];
    forall i | 0 <= i < |steps'|
      ensures |sts'[i]| <= 32 && Enabled(sts'[i], steps'[i]) && sts'[i + 1] == Apply(sts'[i], steps'[i])
    {
      if i < |steps| {
        assert steps'[i] == steps[i];
      }
    }
  }

  lemma CutSplitRun(xs: seq<Split>, halves: seq<Half>, n: nat)
    requires IsSplitRun(xs, halves) && n <= |halves|
    ensures IsSplitRun(xs[..n + 1], halves[..n])
  {
    hide Able, Next, Start;
    forall i | 0 <= i < n
      ensures Able(xs[..n + 1][i], halves[..n][i]) && xs[..n + 1][i + 1] == Next(xs[..n + 1][i], halves[..n][i])
    {
      assert halves[..n][i] == halves[i];
    }
  }

  lemma BitIsLow(st: State, c: nat)
    requires Inv(st) && Changes(st, c)
    ensures BitOf(st, c) < 31
  {
    assert ServerOk(st, c);
  }

  /** As long as no store is disturbed, a run with the two halves reaches what a run of Ipc
      reaches in which they are one step. */
  lemma {:induction false} JoinRun(xs: seq<Split>, halves: seq<Half>) returns (sts: seq<State>, steps: seq<Step>)
    requires IsSplitRun(xs, halves) && AllUndisturbed(xs, halves, |halves|)
    ensures IsRun(sts, steps) && sts[|steps|] == xs[|halves|].st
    decreases |halves|
  {
    hide Able, Next, Start, Inv, Apply, Enabled, Target, BitOf, Joined, Changes, SameBut;
    if halves == [] {
      return [xs[0].st], [];
    }
    var n := |halves| - 1;
    CutSplitRun(xs, halves, n);
    forall k | 0 <= k < n ensures Undisturbed(xs[..n + 1][k], halves[..n][k]) {
      assert halves[..n][k] == halves[k];
    }
    sts, steps := JoinRun(xs[..n + 1], halves[..n]);
    EveryStateIsInv(sts, steps, |steps|);
    assert halves[n] == halves[n];
    sts, steps := JoinStep(sts, steps, xs[n], halves[n]);
  }

  lemma JoinStep(sts: seq<State>, steps: seq<Step>, x: Split, half: Half) returns (sts': seq<State>, steps': seq<Step>)
    requires IsRun(sts, steps) && sts[|steps|] == x.st && Inv(x.st) && Undisturbed(x, half)
    ensures IsRun(sts', steps') && sts'[|steps'|] == Next(x, half).st
  {
    hide Start, Inv, Apply, Enabled, Target, BitOf, Joined, Changes, SameBut;
    match half
    case Load(c) => return sts, steps;
    case Whole(step) =>
      assert |x.st| <= 32 && Enabled(x.st, step);
      ExtendRun(sts, steps, step);
      return sts + [Apply(x.st, step)], steps + [step];
    case Store(c) =>
      BitIsLow(x.st, c);
      StoreJoinsIff(x, c);
      var step := Joined(x.st, c);
      ExtendRun(sts, steps, step);
      return sts + [Apply(x.st, step)], steps + [step];
  }

  /** Then each request is read once, in order and as it was sent, with the halves apart. */
  lemma UndisturbedHandledOnce(xs: seq<Split>, halves: seq<Half>, i: nat, c: nat)
    requires IsSplitRun(xs, halves) && i < |xs| && AllUndisturbed(xs, halves, i) && c < |xs[i].st|
    ensures |xs[i].st[c].handled| <= |xs[i].st[c].sent| <= |xs[i].st[c].handled| + 1
    ensures forall k | 0 <= k < |xs[i].st[c].handled| :: Matches(c, xs[i].st[c].sent[k], xs[i].st[c].handled[k])
    ensures !xs[i].st[c].call.Wait? ==> |xs[i].st[c].handled| == |xs[i].st[c].sent|
  {
    hide Able, Next, Start, Apply, Enabled, Undisturbed, Matches;
    CutSplitRun(xs, halves, i);
    forall k | 0 <= k < i ensures Undisturbed(xs[..i + 1][k], halves[..i][k]) {
      assert halves[..i][k] == halves[k];
    }
    var sts, steps := JoinRun(xs[..i + 1], halves[..i]);
    HandledOnce(sts, steps, |steps|, c);
  }

  // ------------------------------------------------ what a core can rely on meanwhile

  /** The step is one of a core's own call. */
  predicate IsCallStep(step: Step) {
    step.Begin? || step.StoreFrom? || step.StoreNumber? || step.StoreByte? || step.TakeReply? || step.LoadByte?
      || step.EndCall?
  }

  /** The step leaves the bitmap of core c and, unless it is its own, what core c is at. */
  ghost predicate Leaves(st: State, st': State, c: nat, actor: nat) {
    && |st'| == |st| && c < |st| && st'[c].bits == st[c].bits
    && (actor != c ==> st'[c].call == st[c].call && st'[c].serve == st[c].serve)
  }

  lemma CallLeaves(st: State, step: Step, c: nat)
    requires |st| <= 32 && Enabled(st, step) && IsCallStep(step) && c < |st|
    ensures Leaves(st, Apply(st, step), c, Actor(step))
  {
  }

  lemma ServeLeaves(st: State, step: Step, c: nat)
    requires |st| <= 32 && Enabled(st, step) && !IsCallStep(step) && !IsBitStep(step) && c < |st|
    ensures Leaves(st, Apply(st, step), c, Actor(step))
  {
  }

  lemma OthersLeave(st: State, step: Step, c: nat)
    requires |st| <= 32 && Enabled(st, step) && !IsBitStep(step) && c < |st|
    ensures Leaves(st, Apply(st, step), c, Actor(step))
  {
    hide Apply, Enabled, Leaves, Actor;
    if IsCallStep(step) {
      CallLeaves(st, step, c);
    } else {
      ServeLeaves(st, step, c);
    }
  }

  lemma StoreLeaves(st: State, d: nat, c: nat)
    requires |st| <= 32 && Changes(st, d) && c < |st|
    ensures Enabled(st, Joined(st, d)) && |Apply(st, Joined(st, d))| == |st|
    ensures c != Target(st, d) ==> Apply(st, Joined(st, d))[c].bits == st[c].bits
    ensures c != d ==>
              Apply(st, Joined(st, d))[c].call == st[c].call && Apply(st, Joined(st, d))[c].serve == st[c].serve
  {
  }

  /** Core c holds the word its target still has. */
  ghost predicate Fresh(x: Split, c: nat, s: nat) {
    && |x.held| == |x.st| && Changes(x.st, c) && Target(x.st, c) == s
    && x.held[c] == Loaded(x.st[s].bits)
  }

  lemma LoadIsFresh(x: Split, c: nat)
    requires Able(x, Load(c))
    ensures Changes(x.st, c) && Fresh(Next(x, Load(c)), c, Target(x.st, c))
  {
  }

  lemma FreshIsUndisturbed(x: Split, c: nat, s: nat)
    requires Fresh(x, c, s) && Able(x, Store(c))
    ensures Undisturbed(x, Store(c))
  {
  }

  lemma StaysFresh(x: Split, half: Half, c: nat, s: nat)
    requires Able(x, half) && Fresh(x, c, s) && !(half.Store? && Target(x.st, half.c) == s)
    ensures Fresh(Next(x, half), c, s)
  {
    hide Apply, Enabled;
    match half
    case Load(d) =>
    case Whole(step) => OthersLeave(x.st, step, c); OthersLeave(x.st, step, s);
    case Store(d) => StoreLeaves(x.st, d, c); StoreLeaves(x.st, d, s);
  }

  /** A core that nobody overtakes is not disturbed: from its load to its store there is no
      other store into that word. */
  lemma {:induction false} NotOvertaken(xs: seq<Split>, halves: seq<Half>, i: nat, j: nat, c: nat)
    requires IsSplitRun(xs, halves) && i < j < |halves| && halves[i] == Load(c) && Changes(xs[i].st, c)
    requires forall k {:trigger halves[k]} | i < k < j ::
               Able(xs[k], halves[k]) && !(halves[k].Store? && Target(xs[k].st, halves[k].c) == Target(xs[i].st, c))
    ensures Fresh(xs[j], c, Target(xs[i].st, c))
    ensures halves[j] == Store(c) ==> Undisturbed(xs[j], halves[j])
    decreases j
  {
    hide Fresh, Next, Target, Changes, Undisturbed, Enabled, Start;
    var s := Target(xs[i].st, c);
    assert Able(xs[j - 1], halves[j - 1]) && xs[j] == Next(xs[j - 1], halves[j - 1]);
    if j == i + 1 {
      LoadIsFresh(xs[i], c);
    } else {
      NotOvertaken(xs, halves, i, j - 1, c);
      StaysFresh(xs[j - 1], halves[j - 1], c, s);
    }
    assert Able(xs[j], halves[j]);
    if halves[j] == Store(c) {
      FreshIsUndisturbed(xs[j], c, s);
    }
  }

  // --------------------------------------------------------- a store that is overtaken

  ghost predicate Reached(x: Split) {
    exists xs, halves | IsSplitRun(xs, halves) :: xs[|halves|] == x
  }

  lemma GoOn(x: Split, half: Half) returns (x': Split)
    requires Reached(x) && Able(x, half)
    ensures Reached(x') && x' == Next(x, half)
  {
    hide Able, Next, Start;
    var xs, halves :| IsSplitRun(xs, halves) && xs[|halves|] == x;
    x' := Next(x, half);
    var xs', halves' := xs + [x'], halves + [half];
    forall i | 0 <= i < |halves'| ensures Able(xs'[i], halves'[i]) && xs'[i + 1] == Next(xs'[i], halves'[i]) {
      if i < |halves| {
        assert halves'[i] == halves[i];
      }
    }
    assert IsSplitRun(xs', halves');
  }

  /** The two states agree outside core c. */
  ghost predicate OnlyCore(x: Split, x': Split, c: nat) {
    && |x'.st| == |x.st| == |x.held| == |x'.held|
    && forall d: nat | d < |x.st| && d != c :: x'.st[d] == x.st[d] && x'.held[d] == x.held[d]
  }

  /** An empty request number 1 to core 2. */
  const HELLO := Req(2, 1, [])

  /** An idle core gets as far as the call of set_bit. */
  lemma Prepare(x: Split, c: nat) returns (x': Split)
    requires Reached(x) && 2 < |x.st| == |x.held| <= 32 && c < |x.st| && x.st[c].call.Idle? && x.held[c].Nothing?
    ensures Reached(x') && OnlyCore(x, x', c) && x'.held[c].Nothing?
    ensures x'.st[c] == x.st[c].(call := SetReady(HELLO), out := x'.st[c].out)
  {
    var x1 := GoOn(x, Whole(Begin(c, HELLO)));
    var x2 := GoOn(x1, Whole(StoreFrom(c)));
    var x3 := GoOn(x2, Whole(StoreNumber(c)));
    x' := GoOn(x3, Whole(StoreByte(c)));
  }

  /** A server that sees bit 0 clears it. */
  lemma TakeUp(x: Split, s: nat) returns (x': Split)
    requires Reached(x) && s < |x.st| == |x.held| <= 32 && x.held[s].Nothing?
    requires x.st[s].call.Idle? && x.st[s].serve.Poll? && x.st[s].bits[0]
    ensures Reached(x') && OnlyCore(x, x', s) && x'.held[s].Nothing?
    ensures x'.st[s] == x.st[s].(serve := ReadRequest(0, []), bits := x.st[s].bits[0 := false])
  {
    BitsAreASet(x.st[s].bits, 0);
    var x1 := GoOn(x, Whole(SeeBits(s)));
    var x2 := GoOn(x1, Whole(CheckNext(s)));
    var x3 := GoOn(x2, Load(s));
    x' := GoOn(x3, Store(s));
  }

  lemma {:induction false} ReadBox(x: Split, s: nat) returns (x': Split)
    requires Reached(x) && s < |x.st| == |x.held| <= 32 && x.held[s].Nothing? && x.st[s].call.Idle?
    requires x.st[s].serve.ReadRequest? && |x.st[s].serve.buf| <= BOX
    ensures Reached(x') && OnlyCore(x, x', s) && x'.held[s].Nothing?
    ensures x'.st[s].serve.ReadRequest? && |x'.st[s].serve.buf| == BOX
    ensures x'.st[s] == x.st[s].(serve := ReadRequest(x.st[s].serve.client, x'.st[s].serve.buf))
    decreases BOX - |x.st[s].serve.buf|
  {
    x' := x;
    if |x.st[s].serve.buf| < BOX {
      var x1 := GoOn(x, Whole(LoadRequestByte(s)));
      x' := ReadBox(x1, s);
    }
  }

  /** It reads the request of core 0. */
  lemma ReadIt(x: Split, s: nat) returns (x': Split)
    requires Reached(x) && 0 < s < |x.st| == |x.held| <= 32 && x.held[s].Nothing?
    requires x.st[s].call.Idle? && x.st[s].serve == ReadRequest(0, [])
    ensures Reached(x') && |x'.st| == |x.st| && x'.held == x.held
    ensures x'.st[s] == x.st[s].(serve := Work(0))
    ensures x'.st[0] == x.st[0].(handled := x'.st[0].handled) && |x'.st[0].handled| == |x.st[0].handled| + 1
    ensures forall d: nat | 0 < d < |x.st| && d != s :: x'.st[d] == x.st[d]
  {
    var x1 := ReadBox(x, s);
    assert x1.held == x.held;
    x' := GoOn(x1, Whole(Accept(s)));
  }

  /** Server s moved on, and what core 0 sent and what was read of it is as before. */
  ghost predicate Moved(x: Split, x': Split, s: nat, serve: Serve) {
    && 0 < s < |x.st| == |x'.st| && x'.held == x.held
    && x'.st[s] == x.st[s].(serve := serve)
    && x'.st[0].sent == x.st[0].sent && x'.st[0].handled == x.st[0].handled
  }

  lemma BeginAnswer(x: Split, s: nat) returns (x': Split)
    requires Reached(x) && 0 < s < |x.st| == |x.held| <= 32 && x.held[s].Nothing?
    requires x.st[s].call.Idle? && x.st[s].serve == Work(0)
    ensures Reached(x') && Moved(x, x', s, ReplyData(0, 1, [], 0))
  {
    hide Reached;
    var x1 := GoOn(x, Whole(BeginReply(s, 1, [])));
    x' := GoOn(x1, Whole(StoreReplyFrom(s)));
  }

  lemma EndAnswer(x: Split, s: nat) returns (x': Split)
    requires Reached(x) && 0 < s < |x.st| == |x.held| <= 32 && x.held[s].Nothing?
    requires x.st[s].call.Idle? && x.st[s].serve == ReplyData(0, 1, [], 0)
    ensures Reached(x') && Moved(x, x', s, Poll)
  {
    hide Reached;
    var x1 := GoOn(x, Whole(StoreReplyByte(s)));
    x' := GoOn(x1, Whole(Publish(s)));
  }

  /** Three cores, before any call. */
  lemma ThreeCores() returns (x: Split)
    ensures Reached(x) && |x.st| == 3 && x.held == [Nothing, Nothing, Nothing]
    ensures forall c: nat | c < 3 :: x.st[c].call.Idle? && x.st[c].serve.Poll?
    ensures x.st[0].sent == [] && x.st[0].handled == []
  {
    var box := Msg(0, 0, seq(BOX, _ => 0));
    var core := Cpu(Idle, Poll, box, [box, box, box], ZERO, [], [], [], []);
    x := Split([core, core, core], [Nothing, Nothing, Nothing]);
    assert forall c: nat | c < 3 :: x.st[c] == core;
    assert Start(x.st);
    assert IsSplitRun([x], []);
  }

  /** Core 0 has told core 2 that its request is ready. */
  lemma FirstReady() returns (x: Split)
    ensures Reached(x) && |x.st| == 3 && x.held == [Nothing, Nothing, Nothing]
    ensures x.st[1].call.Idle? && x.st[2].call.Idle? && x.st[2].serve.Poll?
    ensures x.st[2].bits[0] && |x.st[0].sent| == 1 && x.st[0].handled == []
  {
    var x0 := ThreeCores();
    var x1 := Prepare(x0, 0);
    BitsAreASet(x1.st[2].bits, 0);
    var x2 := GoOn(x1, Load(0));
    x := GoOn(x2, Store(0));
  }

  /** With the halves apart a request is read twice: core 1 loads the bitmap while bit 0 is
      in it, core 2 clears that bit and reads the request of core 0, and then core 1 stores
      what it loaded. Core 2 finds bit 0 again and reads the request again. */
  lemma ReadTwice() returns (x: Split)
    ensures Reached(x) && |x.st| == 3 && |x.st[0].sent| == 1 && |x.st[0].handled| == 2
  {
    hide Reached;
    var x0 := FirstReady();
    var x1 := Prepare(x0, 1);
    var x2 := GoOn(x1, Load(1));
    var x3 := TakeUp(x2, 2);
    var x4 := ReadIt(x3, 2);
    var x5 := Overtaken(x4);
    var x6 := BeginAnswer(x5, 2);
    var x7 := EndAnswer(x6, 2);
    var x8 := TakeUp(x7, 2);
    x := ReadIt(x8, 2);
  }

  lemma Overtaken(x: Split) returns (x': Split)
    requires Reached(x) && |x.st| == |x.held| == 3 && x.st[1].call == SetReady(HELLO)
    requires x.held[1].Loaded? && x.held[1].word[0]
    ensures Reached(x') && |x'.st| == 3 && x'.held == x.held[1 := Nothing]
    ensures x'.st[0] == x.st[0] && x'.st[2] == x.st[2].(bits := x'.st[2].bits) && x'.st[2].bits[0]
  {
    hide Reached;
    BitsAreASet(x.held[1].word, 1);
    x' := GoOn(x, Store(1));
  }
}
