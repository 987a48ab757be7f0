/**
 The request ring of the shared-memory queue: one reactor thread pushes requests, N worker
 threads claim tickets with a compare-and-swap loop, copy the slot and give it back through
 an anonymous free-slot count. Runs are all interleavings of the individual operations.
 */
module RequestRing {
  import opened Counting

  type Word = int
  type Slot = seq<Word>

  /** Ring capacity, words per slot, number of worker threads. */
  datatype Config = Config(cap: nat, width: nat, workers: nat)

  /** Where a worker is inside wait_request. */
  datatype WorkerPc =
    | Elsewhere
    | Waiting                                // about to wait for a request
    | Granted                                // took a request token, has not looked at the shutdown flag
    | Loading                                // about to load the tail
    | Trying(seen: nat)                      // about to compare-and-swap the tail
    | Copying(ticket: nat, buf: Slot)        // claimed a ticket, has copied |buf| words of its slot

  /** Where the reactor is inside push_request. */
  datatype ReactorPc =
    | Out
    | Checking(slot: Slot)                   // took a free-slot token, has not looked at the shutdown flag
    | HeadUnread(slot: Slot)                 // about to load the head
    | Filling(slot: Slot, head: nat, k: nat) // has copied k words into the slot of `head`
    | Posting                                // published, about to announce the request

  /**
   History: `published` lists the requests in ticket order, `claims` the worker that got each
   ticket, `released` the tickets in the order their slots were given back, and `leaked`
   counts the free-slot tokens dropped because shutdown had been raised.
   */
  datatype State = State(
    head: nat, tail: nat, ring: seq<Slot>, items: nat, free: nat, shutdown: bool, posts: nat,
    pcs: seq<WorkerPc>, reactor: ReactorPc,
    published: seq<Slot>, claims: seq<nat>, released: seq<nat>, leaked: nat)

  datatype Action =
    | Call(w: nat) | TakeItem(w: nat) | Interrupted(w: nat) | CheckFlag(w: nat) | LoadTail(w: nat)
    | Swap(w: nat) | SwapSpurious(w: nat) | ReadWord(w: nat) | Release(w: nat)
    | TakeFree(slot: Slot) | PushFull | CheckFlagAsWriter | LoadHead | CopyWord | Publish | PostItem
    | RaiseShutdown | ShutdownPost

  predicate ValidConfig(c: Config) {
    c.cap > 0
  }

  function Zeros(c: Config): Slot {
    seq(c.width, _ => 0)
  }

  function Init(c: Config): State {
    State(0, 0, seq(c.cap, _ => Zeros(c)), 0, c.cap, false, 0, seq(c.workers, _ => Elsewhere), Out, [], [], [], 0)
  }

  // ---------- one atomic operation ----------

  predicate At(s: State, w: nat, pc: WorkerPc) {
    w < |s.pcs| && s.pcs[w] == pc
  }

  predicate Enabled(c: Config, s: State, a: Action) {
    match a
    case Call(w) => At(s, w, Elsewhere)
    case TakeItem(w) => At(s, w, Waiting) && s.items > 0
    case Interrupted(w) => At(s, w, Waiting)
    case CheckFlag(w) => At(s, w, Granted)
    case LoadTail(w) => At(s, w, Loading)
    case Swap(w) => w < |s.pcs| && s.pcs[w].Trying?
    case SwapSpurious(w) => w < |s.pcs| && s.pcs[w].Trying?
    case ReadWord(w) =>
      w < |s.pcs| && s.pcs[w].Copying? && |s.pcs[w].buf| < c.width && InRing(c, s, s.pcs[w].ticket, |s.pcs[w].buf|)
    case Release(w) => w < |s.pcs| && s.pcs[w].Copying? && |s.pcs[w].buf| == c.width
    case TakeFree(slot) => s.reactor.Out? && s.free > 0 && |slot| == c.width
    case PushFull => s.reactor.Out? && s.free == 0
    case CheckFlagAsWriter => s.reactor.Checking?
    case LoadHead => s.reactor.HeadUnread?
    case CopyWord => s.reactor.Filling? && s.reactor.k < |s.reactor.slot| && InRing(c, s, s.reactor.head, s.reactor.k)
    case Publish => s.reactor.Filling? && s.reactor.k == |s.reactor.slot|
    case PostItem => s.reactor.Posting?
    case RaiseShutdown => true
    case ShutdownPost => s.posts > 0
  }

  /** Word k of the slot with ticket h lies inside the ring memory. */
  predicate InRing(c: Config, s: State, h: nat, k: nat) {
    ValidConfig(c) && h % c.cap < |s.ring| && k < |s.ring[h % c.cap]|
  }

  function SetPc(s: State, w: nat, pc: WorkerPc): State
    requires w < |s.pcs|
  {
    s.(pcs := s.pcs[w := pc])
  }

  function Apply(c: Config, s: State, a: Action): State
    requires Enabled(c, s, a)
  {
    match a
    case Call(w) => SetPc(s, w, Waiting)
    case TakeItem(w) => SetPc(s.(items := s.items - 1), w, Granted)
    case Interrupted(w) => if s.shutdown then SetPc(s, w, Elsewhere) else s
    case CheckFlag(w) => SetPc(s, w, if s.shutdown then Elsewhere else Loading)
    case LoadTail(w) => SetPc(s, w, Trying(s.tail))
    case Swap(w) =>
      if s.tail == s.pcs[w].seen
      then SetPc(s.(tail := s.tail + 1, claims := s.claims + [w]), w, Copying(s.tail, []))
      else SetPc(s, w, Loading)
    case SwapSpurious(w) => SetPc(s, w, Loading)
    case ReadWord(w) =>
      var pc := s.pcs[w];
      SetPc(s, w, Copying(pc.ticket, pc.buf + [s.ring[pc.ticket % c.cap][|pc.buf|]]))
    case Release(w) =>
      SetPc(s.(free := s.free + 1, released := s.released + [s.pcs[w].ticket]), w, Elsewhere)
    case TakeFree(slot) => s.(free := s.free - 1, reactor := Checking(slot))
    case PushFull => s
    case CheckFlagAsWriter =>
      if s.shutdown then s.(reactor := Out, leaked := s.leaked + 1) else s.(reactor := HeadUnread(s.reactor.slot))
    case LoadHead => s.(reactor := Filling(s.reactor.slot, s.head, 0))
    case CopyWord =>
      var r := s.reactor;
      var i := r.head % c.cap;
      s.(ring := s.ring[i := s.ring[i][r.k := r.slot[r.k]]], reactor := r.(k := r.k + 1))
    case Publish => s.(head := s.reactor.head + 1, published := s.published + [s.reactor.slot], reactor := Posting)
    case PostItem => s.(items := s.items + 1, reactor := Out)
    case RaiseShutdown => s.(shutdown := true, posts := s.posts + c.cap)
    case ShutdownPost => s.(items := s.items + 1, posts := s.posts - 1)
  }

  // ---------- runs ----------

  ghost predicate Step(c: Config, s: State, s': State) {
    exists a :: Enabled(c, s, a) && s' == Apply(c, s, a)
  }

  ghost predicate IsRun(c: Config, run: seq<State>) {
    && |run| > 0 && run[0] == Init(c)
    && forall i :: 0 <= i < |run| - 1 ==> StepAt(c, run, i)
  }

  ghost predicate StepAt(c: Config, run: seq<State>, i: int)
    requires 0 <= i < |run| - 1
  {
    Step(c, run[i], run[i + 1])
  }

  // ---------- invariant: tickets and token counts ----------

  ghost function IsGranted(): WorkerPc -> bool {
    (pc: WorkerPc) => pc.Granted?
  }

  /** Past the flag check, ticket not claimed yet. */
  ghost function IsReady(): WorkerPc -> bool {
    (pc: WorkerPc) => pc.Loading? || pc.Trying?
  }

  /** Holds a claimed slot. */
  ghost function IsHolding(): WorkerPc -> bool {
    (pc: WorkerPc) => pc.Copying?
  }

  function Announcing(r: ReactorPc): nat {
    if r.Posting? then 1 else 0
  }

  function Owning(r: ReactorPc): nat {
    if r.Checking? || r.HeadUnread? || r.Filling? then 1 else 0
  }

  ghost predicate Shapes(c: Config, s: State) {
    && ValidConfig(c) && |s.ring| == c.cap && |s.pcs| == c.workers
    && (forall i :: 0 <= i < |s.ring| ==> |s.ring[i]| == c.width)
    && |s.published| == s.head && |s.claims| == s.tail
    && (forall i :: 0 <= i < |s.published| ==> |s.published[i]| == c.width)
  }

  /** Every request token stands for a published, unclaimed ticket until shutdown; then only tokens are made up. */
  ghost predicate ItemsConserved(s: State) {
    && s.tail + Count(s.pcs, IsReady()) + Announcing(s.reactor) <= s.head
    && (!s.shutdown ==> s.posts == 0)
    && (!s.shutdown ==>
      s.items + Count(s.pcs, IsGranted()) + Count(s.pcs, IsReady()) + s.tail + Announcing(s.reactor) == s.head)
  }

  /** Every slot is free, leaked, being filled, waiting to be claimed, or held by a worker. */
  ghost predicate SlotsConserved(c: Config, s: State) {
    && s.tail <= s.head
    && s.free + s.leaked + Owning(s.reactor) + (s.head - s.tail) + Count(s.pcs, IsHolding()) == c.cap
    && |s.released| + Count(s.pcs, IsHolding()) == s.tail
  }

  ghost predicate Holds(s: State, w: int, t: int) {
    0 <= w < |s.pcs| && s.pcs[w].Copying? && s.pcs[w].ticket == t
  }

  /** A claimed ticket was given back, or is held by the one worker that claimed it. */
  ghost predicate TicketsOk(c: Config, s: State)
    requires |s.claims| == s.tail
  {
    && (forall w, t :: Holds(s, w, t) ==>
        t < s.tail && s.claims[t] == w && t !in s.released && |s.pcs[w].buf| <= c.width)
    && (forall t :: t in s.released ==> t < s.tail)
    && (forall t :: 0 <= t < s.tail ==> t in s.released || Holds(s, s.claims[t], t))
  }

  ghost predicate WriterOk(c: Config, s: State) {
    match s.reactor
    case Checking(slot) => |slot| == c.width
    case HeadUnread(slot) => |slot| == c.width
    case Filling(slot, h, k) => |slot| == c.width && h == s.head && k <= c.width
    case _ => true
  }

  ghost predicate Inv(c: Config, s: State) {
    Shapes(c, s) && ItemsConserved(s) && SlotsConserved(c, s) && TicketsOk(c, s) && WriterOk(c, s)
  }

  lemma InitInv(c: Config)
    requires ValidConfig(c)
    ensures Inv(c, Init(c))
  {
    CountNone(Init(c).pcs, IsGranted());
    CountNone(Init(c).pcs, IsReady());
    CountNone(Init(c).pcs, IsHolding());
  }

  lemma MovePc(s: State, w: nat, pc: WorkerPc, f: WorkerPc -> bool)
    requires w < |s.pcs|
    ensures Count(s.pcs[w := pc], f) == Count(s.pcs, f) - (if f(s.pcs[w]) then 1 else 0) + (if f(pc) then 1 else 0)
  {
    CountUpdate(s.pcs, w, pc, f);
  }

  predicate ByWorker(a: Action) {
    a.Call? || a.TakeItem? || a.Interrupted? || a.CheckFlag? || a.LoadTail? || a.Swap? ||
    a.SwapSpurious? || a.ReadWord? || a.Release?
  }

  lemma WorkerConservesItems(c: Config, s: State, a: Action)
    requires Inv(c, s) && Enabled(c, s, a) && ByWorker(a)
    ensures ItemsConserved(Apply(c, s, a))
  {
    var pc := Apply(c, s, a).pcs[a.w];
    MovePc(s, a.w, pc, IsGranted());
    MovePc(s, a.w, pc, IsReady());
  }

  lemma WorkerConservesSlots(c: Config, s: State, a: Action)
    requires Inv(c, s) && Enabled(c, s, a) && ByWorker(a)
    ensures var s' := Apply(c, s, a);
            Shapes(c, s') && SlotsConserved(c, s') && WriterOk(c, s')
  {
    MovePc(s, a.w, Apply(c, s, a).pcs[a.w], IsHolding());
    if a.Swap? {
      CountAtLeast(s.pcs, a.w, IsReady());
    }
  }

  lemma WorkerKeepsTickets(c: Config, s: State, a: Action)
    requires Inv(c, s) && Enabled(c, s, a) && ByWorker(a) && !a.Swap? && !a.Release?
    ensures TicketsOk(c, Apply(c, s, a))
  {
    var s' := Apply(c, s, a);
    assert forall w, t :: Holds(s', w, t) <==> Holds(s, w, t);
  }

  lemma SwapKeepsTickets(c: Config, s: State, w: nat)
    requires Inv(c, s) && Enabled(c, s, Swap(w))
    ensures TicketsOk(c, Apply(c, s, Swap(w)))
  {
    var s' := Apply(c, s, Swap(w));
    if s.tail == s.pcs[w].seen {
      assert forall v, t :: Holds(s', v, t) <==> Holds(s, v, t) || (v == w && t == s.tail);
    } else {
      assert forall v, t :: Holds(s', v, t) <==> Holds(s, v, t);
    }
  }

  lemma ReleaseKeepsTickets(c: Config, s: State, w: nat)
    requires Inv(c, s) && Enabled(c, s, Release(w))
    ensures TicketsOk(c, Apply(c, s, Release(w)))
  {
    var s' := Apply(c, s, Release(w));
    assert Holds(s, w, s.pcs[w].ticket);
    assert forall v, t :: Holds(s', v, t) <==> Holds(s, v, t) && v != w;
    assert forall t :: t in s'.released <==> t in s.released || t == s.pcs[w].ticket;
  }

  lemma ReactorKeepsInv(c: Config, s: State, a: Action)
    requires Inv(c, s) && Enabled(c, s, a) && !ByWorker(a)
    ensures Inv(c, Apply(c, s, a))
  {
    var s' := Apply(c, s, a);
    assert forall w, t :: Holds(s', w, t) <==> Holds(s, w, t);
  }

  lemma StepKeepsInv(c: Config, s: State, a: Action)
    requires Inv(c, s) && Enabled(c, s, a)
    ensures Inv(c, Apply(c, s, a))
  {
    if ByWorker(a) {
      WorkerConservesItems(c, s, a);
      WorkerConservesSlots(c, s, a);
      if a.Swap? {
        SwapKeepsTickets(c, s, a.w);
      } else if a.Release? {
        ReleaseKeepsTickets(c, s, a.w);
      } else {
        WorkerKeepsTickets(c, s, a);
      }
    } else {
      ReactorKeepsInv(c, s, a);
    }
  }

  lemma {:induction false} RunKeepsInv(c: Config, run: seq<State>, i: nat)
    requires ValidConfig(c) && IsRun(c, run) && i < |run|
    ensures Inv(c, run[i])
  {
    if i == 0 {
      InitInv(c);
    } else {
      RunKeepsInv(c, run, i - 1);
      assert StepAt(c, run, i - 1);
      var a :| Enabled(c, run[i - 1], a) && run[i] == Apply(c, run[i - 1], a);
      StepKeepsInv(c, run[i - 1], a);
    }
  }

  // ---------- tickets, in every run ----------

  /**
   Claims are consecutive: ticket t went to the t-th successful swap, the log of winners only
   grows, a ticket is held by its winner only, and the ring never overflows.
   */
  lemma TicketSafety(c: Config, run: seq<State>, i: nat)
    requires ValidConfig(c) && IsRun(c, run) && i < |run|
    ensures run[i].tail <= run[i].head <= run[i].tail + c.cap
    ensures |run[i].claims| == run[i].tail
    ensures forall w, t :: Holds(run[i], w, t) ==> 0 <= t < run[i].tail && run[i].claims[t] == w
    ensures i + 1 < |run| ==> run[i].claims <= run[i + 1].claims && run[i].published <= run[i + 1].published
  {
    RunKeepsInv(c, run, i);
    if i + 1 < |run| {
      assert StepAt(c, run, i);
      HistoryGrows(c, run[i], run[i + 1]);
    }
  }

  /** Until shutdown there is one token, or one thread about to use or post one, for every unclaimed ticket. */
  lemma TokenCountIsExact(c: Config, run: seq<State>, i: nat)
    requires ValidConfig(c) && IsRun(c, run) && i < |run| && !run[i].shutdown
    ensures var s := run[i];
            s.items + Count(s.pcs, IsGranted()) + Count(s.pcs, IsReady()) + Announcing(s.reactor) == s.head - s.tail
  {
    RunKeepsInv(c, run, i);
  }

  /** A worker that was let through and will claim a ticket, or find the server shutting down. */
  predicate Underway(pc: WorkerPc) {
    pc.Granted? || pc.Loading? || pc.Trying?
  }

  /** Until shutdown no published request is left without somebody who will fetch it. */
  lemma NoRequestIsStranded(c: Config, run: seq<State>, i: nat)
    requires ValidConfig(c) && IsRun(c, run) && i < |run| && !run[i].shutdown && run[i].tail < run[i].head
    ensures || run[i].items > 0 || run[i].reactor.Posting?
            || exists w :: 0 <= w < |run[i].pcs| && Underway(run[i].pcs[w])
  {
    TokenCountIsExact(c, run, i);
    if forall w :: 0 <= w < |run[i].pcs| ==> !Underway(run[i].pcs[w]) {
      CountNone(run[i].pcs, IsGranted());
      CountNone(run[i].pcs, IsReady());
    }
  }

  lemma HistoryGrows(c: Config, s: State, s': State)
    requires Step(c, s, s')
    ensures s.claims <= s'.claims && s.published <= s'.published && s.released <= s'.released
  {
    var a :| Enabled(c, s, a) && s' == Apply(c, s, a);
    if ByWorker(a) {
      WorkerHistory(c, s, a);
    }
  }

  lemma WorkerHistory(c: Config, s: State, a: Action)
    requires Enabled(c, s, a) && ByWorker(a)
    ensures var s' := Apply(c, s, a);
            s.claims <= s'.claims && s.published == s'.published && s.released <= s'.released
  {
  }

  // ---------- contents, when slots come back in claim order ----------

  /** Slots were given back in the order their tickets were claimed. */
  ghost predicate Ordered(s: State) {
    forall i :: 0 <= i < |s.released| ==> s.released[i] == i
  }

  /** What a worker has copied so far is the request published under its ticket. */
  ghost predicate CopiesIntact(s: State) {
    forall w :: 0 <= w < |s.pcs| && s.pcs[w].Copying? ==>
      && s.pcs[w].ticket < |s.published| && |s.pcs[w].buf| <= |s.published[s.pcs[w].ticket]|
      && s.pcs[w].buf == s.published[s.pcs[w].ticket][..|s.pcs[w].buf|]
  }

  ghost predicate RingIntact(c: Config, s: State)
    requires Shapes(c, s)
  {
    && (forall i :: |s.released| <= i < s.head ==> s.ring[i % c.cap] == s.published[i])
    && (s.reactor.Filling? ==>
      |s.reactor.slot| == c.width && s.reactor.k <= c.width &&
        s.ring[s.head % c.cap][..s.reactor.k] == s.reactor.slot[..s.reactor.k])
  }

  ghost predicate Intact(c: Config, s: State) {
    Shapes(c, s) && RingIntact(c, s) && CopiesIntact(s)
  }

  lemma HeldNotReleased(c: Config, s: State, w: nat)
    requires Inv(c, s) && Ordered(s) && w < |s.pcs| && s.pcs[w].Copying?
    ensures |s.released| <= s.pcs[w].ticket < s.tail
  {
    assert Holds(s, w, s.pcs[w].ticket);
    forall t | 0 <= t < |s.released|
      ensures t in s.released
    {
      assert s.released[t] == t;
    }
  }

  lemma CopyWordKeepsIntact(c: Config, s: State)
    requires Inv(c, s) && Ordered(s) && Intact(c, s) && Enabled(c, s, CopyWord)
    ensures Intact(c, Apply(c, s, CopyWord))
  {
    var s' := Apply(c, s, CopyWord);
    forall i | |s'.released| <= i < s'.head
      ensures s'.ring[i % c.cap] == s'.published[i]
    {
      LapsDiffer(i, s.head, c.cap);
    }
    assert CopiesIntact(s');
  }

  lemma PublishKeepsIntact(c: Config, s: State)
    requires Inv(c, s) && Intact(c, s) && Enabled(c, s, Publish)
    ensures Intact(c, Apply(c, s, Publish))
  {
    var i := s.head % c.cap;
    assert s.ring[i][..c.width] == s.ring[i] && s.reactor.slot[..c.width] == s.reactor.slot;
  }

  lemma ReadWordKeepsIntact(c: Config, s: State, w: nat)
    requires Inv(c, s) && Ordered(s) && Intact(c, s) && Enabled(c, s, ReadWord(w))
    ensures Intact(c, Apply(c, s, ReadWord(w)))
  {
    var s' := Apply(c, s, ReadWord(w));
    var pc := s.pcs[w];
    HeldNotReleased(c, s, w);
    assert s.ring[pc.ticket % c.cap] == s.published[pc.ticket];
    assert s'.pcs[w].buf == s.published[pc.ticket][..|pc.buf| + 1];
  }

  lemma StepKeepsIntact(c: Config, s: State, a: Action)
    requires Inv(c, s) && Ordered(s) && Intact(c, s) && Enabled(c, s, a)
    ensures Intact(c, Apply(c, s, a))
  {
    StepKeepsInv(c, s, a);
    if a.CopyWord? {
      CopyWordKeepsIntact(c, s);
    } else if a.Publish? {
      PublishKeepsIntact(c, s);
    } else if a.ReadWord? {
      ReadWordKeepsIntact(c, s, a.w);
    } else {
      PlainKeepsRing(c, s, a);
      PlainKeepsCopies(c, s, a);
    }
  }

  predicate Plain(a: Action) {
    !a.CopyWord? && !a.Publish? && !a.ReadWord?
  }

  lemma PlainKeepsRing(c: Config, s: State, a: Action)
    requires Inv(c, s) && Intact(c, s) && Enabled(c, s, a) && Plain(a) && Shapes(c, Apply(c, s, a))
    ensures RingIntact(c, Apply(c, s, a))
  {
    var s' := Apply(c, s, a);
    assert s'.ring == s.ring && s'.head == s.head && s'.published == s.published && |s.released| <= |s'.released|;
  }

  lemma PlainKeepsCopies(c: Config, s: State, a: Action)
    requires Inv(c, s) && Intact(c, s) && Enabled(c, s, a) && Plain(a) && ItemsConserved(Apply(c, s, a))
    ensures CopiesIntact(Apply(c, s, a))
  {
    var s' := Apply(c, s, a);
    assert s'.published == s.published;
    forall w | 0 <= w < |s'.pcs| && s'.pcs[w].Copying?
      ensures s'.pcs[w] == s.pcs[w] || s'.pcs[w] == Copying(s.tail, [])
    {
    }
  }

  /** If slots come back in claim order, every copy is exactly the request published under its ticket. */
  lemma {:induction false} OrderedReleaseKeepsContents(c: Config, run: seq<State>, i: nat)
    requires ValidConfig(c) && IsRun(c, run) && i < |run| && Ordered(run[i])
    ensures Intact(c, run[i])
  {
    if i > 0 {
      assert StepAt(c, run, i - 1);
      WasOrdered(c, run[i - 1], run[i]);
      OrderedReleaseKeepsContents(c, run, i - 1);
      RunKeepsInv(c, run, i - 1);
      NextIntact(c, run[i - 1], run[i]);
    }
  }

  lemma NextIntact(c: Config, s: State, s': State)
    requires Inv(c, s) && Ordered(s) && Intact(c, s) && Step(c, s, s')
    ensures Intact(c, s')
  {
    var a :| Enabled(c, s, a) && s' == Apply(c, s, a);
    StepKeepsIntact(c, s, a);
  }

  lemma WasOrdered(c: Config, s: State, s': State)
    requires Step(c, s, s') && Ordered(s')
    ensures Ordered(s)
  {
    HistoryGrows(c, s, s');
    assert forall k :: 0 <= k < |s.released| ==> s.released[k] == s'.released[k];
  }

  /** An overtaking release needs a second worker that still holds an older ticket. */
  lemma OvertakingNeedsTwo(c: Config, s: State, w: nat)
    requires Inv(c, s) && Ordered(s) && Enabled(c, s, Release(w)) && s.pcs[w].ticket != |s.released|
    ensures c.workers >= 2 && c.cap >= 2
  {
    var r := |s.released|;
    HeldNotReleased(c, s, w);
    assert Holds(s, s.claims[r], r);
    var v := s.claims[r];
    if v < w {
      CountTwo(s.pcs, v, w, IsHolding());
    } else {
      CountTwo(s.pcs, w, v, IsHolding());
    }
  }

  lemma {:induction false} AlwaysOrdered(c: Config, run: seq<State>, i: nat)
    requires ValidConfig(c) && IsRun(c, run) && i < |run| && (c.workers <= 1 || c.cap <= 1)
    ensures Ordered(run[i])
  {
    if i > 0 {
      AlwaysOrdered(c, run, i - 1);
      RunKeepsInv(c, run, i - 1);
      assert StepAt(c, run, i - 1);
      StepKeepsOrdered(c, run[i - 1], run[i]);
    }
  }

  lemma StepKeepsOrdered(c: Config, s: State, s': State)
    requires Inv(c, s) && Ordered(s) && Step(c, s, s') && (c.workers <= 1 || c.cap <= 1)
    ensures Ordered(s')
  {
    var a :| Enabled(c, s, a) && s' == Apply(c, s, a);
    if a.Release? {
      ReleaseInTurn(c, s, a.w);
    }
  }

  lemma ReleaseInTurn(c: Config, s: State, w: nat)
    requires Inv(c, s) && Ordered(s) && Enabled(c, s, Release(w)) && (c.workers <= 1 || c.cap <= 1)
    ensures Ordered(Apply(c, s, Release(w)))
  {
    if s.pcs[w].ticket != |s.released| {
      OvertakingNeedsTwo(c, s, w);
    }
  }

  // ---------- and what happens otherwise ----------

  ghost predicate Reachable(c: Config, s: State) {
    exists run :: IsRun(c, run) && run[|run| - 1] == s
  }

  lemma ReachInit(c: Config)
    ensures Reachable(c, Init(c))
  {
    assert IsRun(c, [Init(c)]);
  }

  lemma ReachStep(c: Config, s: State, a: Action)
    requires Reachable(c, s) && Enabled(c, s, a)
    ensures Reachable(c, Apply(c, s, a))
  {
    var run :| IsRun(c, run) && run[|run| - 1] == s;
    var run' := run + [Apply(c, s, a)];
    forall i | 0 <= i < |run'| - 1
      ensures StepAt(c, run', i)
    {
      if i + 1 < |run| {
        assert StepAt(c, run, i) && run'[i] == run[i] && run'[i + 1] == run[i + 1];
      }
    }
    assert IsRun(c, run');
  }

  /** Writing the remaining words of a slot. */
  lemma {:induction false} ReachFilled(c: Config, s: State, slot: Slot)
    requires Reachable(c, s) && ValidConfig(c) && |s.ring| == c.cap && |slot| == c.width
    requires s.reactor.Filling? && s.reactor.slot == slot && s.reactor.k <= c.width
    requires |s.ring[s.reactor.head % c.cap]| == c.width
    requires s.ring[s.reactor.head % c.cap][..s.reactor.k] == slot[..s.reactor.k]
    ensures Reachable(c, s.(ring := s.ring[s.reactor.head % c.cap := slot],
                            reactor := Filling(slot, s.reactor.head, c.width)))
    decreases c.width - s.reactor.k
  {
    var i, k := s.reactor.head % c.cap, s.reactor.k;
    if k == c.width {
      assert s.ring[i] == s.ring[i][..k] && slot == slot[..k];
      assert s.ring[i := slot] == s.ring;
    } else {
      ReachStep(c, s, CopyWord);
      var s' := Apply(c, s, CopyWord);
      assert s'.ring[i][..k + 1] == slot[..k + 1];
      ReachFilled(c, s', slot);
      assert s'.ring[i := slot] == s.ring[i := slot];
    }
  }

  /** The effect of one complete, undisturbed push. */
  function Pushed(c: Config, s: State, slot: Slot): State
    requires ValidConfig(c) && |s.ring| == c.cap && s.free > 0
  {
    s.(head := s.head + 1, ring := s.ring[s.head % c.cap := slot], items := s.items + 1, free := s.free - 1,
       published := s.published + [slot])
  }

  lemma ReachPushed(c: Config, s: State, slot: Slot)
    requires Reachable(c, s) && ValidConfig(c) && |s.ring| == c.cap && |slot| == c.width
    requires |s.ring[s.head % c.cap]| == c.width
    requires s.reactor.Out? && !s.shutdown && s.free > 0
    ensures Reachable(c, Pushed(c, s, slot))
  {
    ReachStep(c, s, TakeFree(slot));
    var s1 := Apply(c, s, TakeFree(slot));
    ReachStep(c, s1, CheckFlagAsWriter);
    var s2 := Apply(c, s1, CheckFlagAsWriter);
    ReachStep(c, s2, LoadHead);
    var s3 := Apply(c, s2, LoadHead);
    ReachFilled(c, s3, slot);
    var s4 := s3.(ring := s.ring[s.head % c.cap := slot], reactor := Filling(slot, s.head, c.width));
    ReachStep(c, s4, Publish);
    var s5 := Apply(c, s4, Publish);
    ReachStep(c, s5, PostItem);
    assert Apply(c, s5, PostItem) == Pushed(c, s, slot);
  }

  /** The effect of an undisturbed claim. */
  function Claimed(s: State, w: nat): State
    requires w < |s.pcs| && s.items > 0
  {
    s.(tail := s.tail + 1, items := s.items - 1, claims := s.claims + [w], pcs := s.pcs[w := Copying(s.tail, [])])
  }

  lemma ReachClaimed(c: Config, s: State, w: nat)
    requires Reachable(c, s) && At(s, w, Elsewhere) && s.items > 0 && !s.shutdown
    ensures Reachable(c, Claimed(s, w))
  {
    ReachStep(c, s, Call(w));
    var s1 := Apply(c, s, Call(w));
    ReachStep(c, s1, TakeItem(w));
    var s2 := Apply(c, s1, TakeItem(w));
    ReachStep(c, s2, CheckFlag(w));
    var s3 := Apply(c, s2, CheckFlag(w));
    ReachStep(c, s3, LoadTail(w));
    var s4 := Apply(c, s3, LoadTail(w));
    ReachStep(c, s4, Swap(w));
    assert Apply(c, s4, Swap(w)) == Claimed(s, w);
  }

  /** Reading the remaining words of a claimed slot. */
  lemma {:induction false} ReachRead(c: Config, s: State, w: nat, t: nat, slot: Slot)
    requires Reachable(c, s) && ValidConfig(c) && |s.ring| == c.cap
    requires w < |s.pcs| && s.pcs[w].Copying? && s.pcs[w].ticket == t
    requires s.ring[t % c.cap] == slot && |slot| == c.width && s.pcs[w].buf <= slot
    ensures Reachable(c, SetPc(s, w, Copying(t, slot)))
    decreases c.width - |s.pcs[w].buf|
  {
    if |s.pcs[w].buf| == c.width {
      assert s.pcs[w].buf == slot;
      assert SetPc(s, w, Copying(t, slot)) == s;
    } else {
      ReachStep(c, s, ReadWord(w));
      var s' := Apply(c, s, ReadWord(w));
      assert s'.pcs[w].buf <= slot;
      ReachRead(c, s', w, t, slot);
      assert SetPc(s', w, Copying(t, slot)) == SetPc(s, w, Copying(t, slot));
    }
  }

  /** The ring after n pushes of zeros. */
  function Filled(c: Config, n: nat): State
    requires n <= c.cap
  {
    Init(c).(head := n, items := n, free := c.cap - n, published := seq(n, _ => Zeros(c)))
  }

  lemma {:induction false} ReachFilledRing(c: Config, n: nat)
    requires ValidConfig(c) && n <= c.cap
    ensures Reachable(c, Filled(c, n))
  {
    if n == 0 {
      ReachInit(c);
      assert Filled(c, 0) == Init(c);
    } else {
      ReachFilledRing(c, n - 1);
      var s := Filled(c, n - 1);
      ReachPushed(c, s, Zeros(c));
      assert s.ring[(n - 1) % c.cap := Zeros(c)] == s.ring;
      assert Pushed(c, s, Zeros(c)) == Filled(c, n);
    }
  }

  /** Worker 0 holds ticket 0 and has copied nothing; worker 1 claimed, copied and gave back ticket 1. */
  lemma ReachOvertaken(c: Config) returns (s: State)
    requires ValidConfig(c) && c.workers >= 2 && c.cap >= 2
    ensures Reachable(c, s) && |s.ring| == c.cap && |s.ring[0]| == c.width && |s.pcs| == c.workers
    ensures s.head == c.cap && s.free == 1 && !s.shutdown && s.reactor.Out?
    ensures s.pcs[0] == Copying(0, []) && |s.published| == c.cap && s.published[0] == Zeros(c)
  {
    var s0 := Filled(c, c.cap);
    ReachFilledRing(c, c.cap);
    ReachClaimed(c, s0, 0);
    var s1 := Claimed(s0, 0);
    ReachClaimed(c, s1, 1);
    var s2 := Claimed(s1, 1);
    ReachRead(c, s2, 1, 1, Zeros(c));
    var s3 := SetPc(s2, 1, Copying(1, Zeros(c)));
    ReachStep(c, s3, Release(1));
    s := Apply(c, s3, Release(1));
  }

  /** With two workers and two slots a worker can copy a request other than the one it claimed. */
  lemma OvertakenCopyIsWrong(c: Config) returns (s: State)
    requires ValidConfig(c) && c.workers >= 2 && c.cap >= 2 && c.width >= 1
    ensures Reachable(c, s) && !CopiesIntact(s)
  {
    var s1 := ReachOvertaken(c);
    var ones: Slot := seq(c.width, _ => 1);
    ReachPushed(c, s1, ones);
    var s2 := Pushed(c, s1, ones);
    assert s2.ring[0] == ones;
    ReachRead(c, s2, 0, 0, ones);
    s := SetPc(s2, 0, Copying(0, ones));
    assert s.pcs[0].buf[0] != s.published[0][0];
  }

  /**
   Exactly when copies can be trusted in every run: with at most one worker, or at most one
   slot, or nothing to copy.
   */
  lemma CopiesIntactIff(c: Config)
    requires ValidConfig(c)
    ensures (forall s :: Reachable(c, s) ==> CopiesIntact(s)) <==> c.workers <= 1 || c.cap <= 1 || c.width == 0
  {
    if c.workers <= 1 || c.cap <= 1 {
      forall s | Reachable(c, s)
        ensures CopiesIntact(s)
      {
        var run :| IsRun(c, run) && run[|run| - 1] == s;
        AlwaysOrdered(c, run, |run| - 1);
        OrderedReleaseKeepsContents(c, run, |run| - 1);
      }
    } else if c.width == 0 {
      forall s | Reachable(c, s)
        ensures CopiesIntact(s)
      {
        var run :| IsRun(c, run) && run[|run| - 1] == s;
        RunKeepsInv(c, run, |run| - 1);
        assert forall w :: 0 <= w < |s.pcs| && s.pcs[w].Copying? ==> Holds(s, w, s.pcs[w].ticket);
      }
    } else {
      var s := OvertakenCopyIsWrong(c);
    }
  }
}
