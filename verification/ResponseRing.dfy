/**
 The response ring of the shared-memory queue: N worker threads push responses under a
 mutex, one reactor thread is woken through an eventfd and drains them. Every interleaving
 of their individual memory and semaphore operations is a run of the machine below.
 */
module ResponseRing {
  import opened Counting

  type Word = int
  type Slot = seq<Word>

  /** Ring capacity, words per slot, number of worker threads. */
  datatype Config = Config(cap: nat, width: nat, workers: nat)

  /** Where a worker is inside push_response. */
  datatype WorkerPc =
    | Elsewhere
    | Waiting(slot: Slot)                        // about to wait for a free slot
    | Granted(slot: Slot)                        // took a free-slot token, has not looked at the shutdown flag
    | Locking(slot: Slot)                        // about to lock the mutex
    | Loading(slot: Slot)                        // holds the mutex, about to load the head
    | Copying(slot: Slot, head: nat, k: nat)     // has copied k words into the slot of `head`
    | Unlocking                                  // published, still holds the mutex
    | Notifying                                  // about to write the eventfd

  /** Where the reactor is inside on_response_ready and pop_response. */
  datatype ReactorPc =
    | Sleeping                                   // in epoll
    | Starting                                   // about to load the tail
    | TailLoaded(tail: nat)                      // about to load the head
    | Deciding(tail: nat, head: nat)             // compares the two loaded values
    | Reading(tail: nat, buf: Slot)              // has copied |buf| words out of the slot of `tail`
    | Freeing                                    // advanced the tail, about to give the slot back

  datatype Option = None | Some(worker: nat)

  /** `published` and `popped` record history: all responses published and popped so far, in order. */
  datatype State = State(
    head: nat, tail: nat, ring: seq<Slot>, free: nat, mutex: Option, efd: nat,
    shutdown: bool, posts: nat,
    pcs: seq<WorkerPc>, reactor: ReactorPc,
    published: seq<Slot>, popped: seq<Slot>)

  datatype Action =
    | Call(w: nat, slot: Slot) | TakeFree(w: nat) | Interrupted(w: nat) | CheckFlag(w: nat)
    | Lock(w: nat) | LoadHead(w: nat) | CopyWord(w: nat) | Publish(w: nat) | Unlock(w: nat) | Notify(w: nat)
    | Wake | LoadTail | LoadHeadAsReader | Decide | ReadWord | AdvanceTail | PostFree
    | RaiseShutdown | ShutdownPost

  predicate ValidConfig(c: Config) {
    c.cap > 0
  }

  function Init(c: Config): State {
    State(0, 0, seq(c.cap, _ => seq(c.width, _ => 0)), c.cap, None, 0, false, 0,
          seq(c.workers, _ => Elsewhere), Sleeping, [], [])
  }

  // ---------- one atomic operation ----------

  predicate Enabled(c: Config, s: State, a: Action) {
    match a
    case Call(w, slot) => w < |s.pcs| && s.pcs[w].Elsewhere? && |slot| == c.width
    case TakeFree(w) => w < |s.pcs| && s.pcs[w].Waiting? && s.free > 0
    case Interrupted(w) => w < |s.pcs| && s.pcs[w].Waiting?
    case CheckFlag(w) => w < |s.pcs| && s.pcs[w].Granted?
    case Lock(w) => w < |s.pcs| && s.pcs[w].Locking? && s.mutex == None
    case LoadHead(w) => w < |s.pcs| && s.pcs[w].Loading?
    case CopyWord(w) => w < |s.pcs| && s.pcs[w].Copying? && s.pcs[w].k < |s.pcs[w].slot| &&
      InRing(c, s, s.pcs[w].head, s.pcs[w].k)
    case Publish(w) => w < |s.pcs| && s.pcs[w].Copying? && s.pcs[w].k == |s.pcs[w].slot|
    case Unlock(w) => w < |s.pcs| && s.pcs[w].Unlocking?
    case Notify(w) => w < |s.pcs| && s.pcs[w].Notifying?
    case Wake => s.reactor.Sleeping?
    case LoadTail => s.reactor.Starting?
    case LoadHeadAsReader => s.reactor.TailLoaded?
    case Decide => s.reactor.Deciding?
    case ReadWord => s.reactor.Reading? && |s.reactor.buf| < c.width && InRing(c, s, s.reactor.tail, |s.reactor.buf|)
    case AdvanceTail => s.reactor.Reading? && |s.reactor.buf| == c.width
    case PostFree => s.reactor.Freeing?
    case RaiseShutdown => true
    case ShutdownPost => s.posts > 0
  }

  /** Word k of the slot with ticket h lies inside the ring memory. */
  predicate InRing(c: Config, s: State, h: nat, k: nat) {
    ValidConfig(c) && h % c.cap < |s.ring| && k < |s.ring[h % c.cap]|
  }

  function SetPc(s: State, w: nat, pc: WorkerPc): State
    requires w < |s.pcs|
  {
    s.(pcs := s.pcs[w := pc])
  }

  function Apply(c: Config, s: State, a: Action): State
    requires Enabled(c, s, a)
  {
    match a
    case Call(w, slot) => SetPc(s, w, Waiting(slot))
    case TakeFree(w) => SetPc(s.(free := s.free - 1), w, Granted(s.pcs[w].slot))
    case Interrupted(w) => if s.shutdown then SetPc(s, w, Elsewhere) else s
    case CheckFlag(w) => SetPc(s, w, if s.shutdown then Elsewhere else Locking(s.pcs[w].slot))
    case Lock(w) => SetPc(s.(mutex := Some(w)), w, Loading(s.pcs[w].slot))
    case LoadHead(w) => SetPc(s, w, Copying(s.pcs[w].slot, s.head, 0))
    case CopyWord(w) =>
      var pc := s.pcs[w];
      var i := pc.head % c.cap;
      SetPc(s.(ring := s.ring[i := s.ring[i][pc.k := pc.slot[pc.k]]]), w, pc.(k := pc.k + 1))
    case Publish(w) =>
      SetPc(s.(head := s.pcs[w].head + 1, published := s.published + [s.pcs[w].slot]), w, Unlocking)
    case Unlock(w) => SetPc(s.(mutex := None), w, Notifying)
    case Notify(w) => SetPc(s.(efd := s.efd + 1), w, Elsewhere)
    case Wake => s.(efd := 0, reactor := Starting)
    case LoadTail => s.(reactor := TailLoaded(s.tail))
    case LoadHeadAsReader => s.(reactor := Deciding(s.reactor.tail, s.head))
    case Decide =>
      s.(reactor := if s.reactor.tail >= s.reactor.head then Sleeping else Reading(s.reactor.tail, []))
    case ReadWord =>
      var r := s.reactor;
      s.(reactor := Reading(r.tail, r.buf + [s.ring[r.tail % c.cap][|r.buf|]]))
    case AdvanceTail =>
      s.(tail := s.reactor.tail + 1, popped := s.popped + [s.reactor.buf], reactor := Freeing)
    case PostFree => s.(free := s.free + 1, reactor := Starting)
    case RaiseShutdown => s.(shutdown := true, posts := s.posts + c.cap)
    case ShutdownPost => s.(free := s.free + 1, posts := s.posts - 1)
  }

  // ---------- runs ----------

  ghost predicate Step(c: Config, s: State, s': State) {
    exists a :: Enabled(c, s, a) && s' == Apply(c, s, a)
  }

  ghost predicate IsRun(c: Config, run: seq<State>) {
    && |run| > 0 && run[0] == Init(c)
    && forall i :: 0 <= i < |run| - 1 ==> StepAt(c, run, i)
  }

  ghost predicate StepAt(c: Config, run: seq<State>, i: int)
    requires 0 <= i < |run| - 1
  {
    Step(c, run[i], run[i + 1])
  }

  // ---------- invariant ----------

  /** Past the flag check, not yet published: the worker will use up one slot. */
  ghost function IsCommitted(): WorkerPc -> bool {
    (pc: WorkerPc) => pc.Locking? || pc.Loading? || pc.Copying?
  }

  ghost function IsGranted(): WorkerPc -> bool {
    (pc: WorkerPc) => pc.Granted?
  }

  predicate HoldsMutex(pc: WorkerPc) {
    pc.Loading? || pc.Copying? || pc.Unlocking?
  }

  function Returning(r: ReactorPc): nat {
    if r.Freeing? then 1 else 0
  }

  /**
   Slots are neither lost nor made up: until shutdown every slot is free, granted, committed,
   unread or being given back. Shutdown floods the free count, but only workers that passed
   the flag check before it still write.
   */
  ghost predicate SlotsConserved(c: Config, s: State) {
    && s.tail <= s.head
    && Count(s.pcs, IsCommitted()) + (s.head - s.tail) + Returning(s.reactor) <= c.cap
    && (!s.shutdown ==>
      s.free + Count(s.pcs, IsGranted()) + Count(s.pcs, IsCommitted())
      + (s.head - s.tail) + Returning(s.reactor) == c.cap)
    && (!s.shutdown ==> s.posts == 0)
  }

  ghost predicate MutexHeldByOne(s: State) {
    forall w :: 0 <= w < |s.pcs| ==> (HoldsMutex(s.pcs[w]) <==> s.mutex == Some(w))
  }

  ghost predicate Shapes(c: Config, s: State) {
    && ValidConfig(c) && |s.ring| == c.cap && |s.pcs| == c.workers
    && (forall i :: 0 <= i < |s.ring| ==> |s.ring[i]| == c.width)
    && |s.published| == s.head && |s.popped| == s.tail
    && (forall i :: 0 <= i < |s.published| ==> |s.published[i]| == c.width)
  }

  ghost predicate WorkerOk(c: Config, s: State, pc: WorkerPc)
    requires Shapes(c, s)
  {
    match pc
    case Copying(slot, head, k) =>
      |slot| == c.width && head == s.head && k <= c.width && s.ring[s.head % c.cap][..k] == slot[..k]
    case Waiting(slot) => |slot| == c.width
    case Granted(slot) => |slot| == c.width
    case Locking(slot) => |slot| == c.width
    case Loading(slot) => |slot| == c.width
    case _ => true
  }

  ghost predicate ReactorOk(c: Config, s: State)
    requires Shapes(c, s)
  {
    match s.reactor
    case TailLoaded(t) => t == s.tail
    case Deciding(t, h) => t == s.tail && h <= s.head
    case Reading(t, buf) => t == s.tail && t < s.head && |buf| <= c.width && buf == s.published[t][..|buf|]
    case _ => true
  }

  /** Unread slots hold what was published; what was popped is the published prefix. */
  ghost predicate ContentsOk(c: Config, s: State)
    requires Shapes(c, s)
  {
    && s.tail <= s.head
    && (forall i :: s.tail <= i < s.head ==> s.ring[i % c.cap] == s.published[i])
    && s.popped == s.published[..s.tail]
  }

  /** The eventfd will be, or already is, readable. */
  ghost predicate WakePending(s: State) {
    s.efd > 0 || exists w :: 0 <= w < |s.pcs| && (s.pcs[w].Unlocking? || s.pcs[w].Notifying?)
  }

  ghost predicate NoLostWakeUp(s: State) {
    && (s.reactor.Sleeping? && s.tail < s.head ==> WakePending(s))
    && (s.reactor.Deciding? && s.reactor.head < s.head ==> WakePending(s))
  }

  ghost predicate Inv(c: Config, s: State) {
    && Shapes(c, s) && SlotsConserved(c, s) && MutexHeldByOne(s)
    && (forall w :: 0 <= w < |s.pcs| ==> WorkerOk(c, s, s.pcs[w]))
    && ReactorOk(c, s) && ContentsOk(c, s) && NoLostWakeUp(s)
  }

  lemma InitInv(c: Config)
    requires ValidConfig(c)
    ensures Inv(c, Init(c))
  {
    CountNone(Init(c).pcs, IsCommitted());
    CountNone(Init(c).pcs, IsGranted());
  }

  lemma MovePc(s: State, w: nat, pc: WorkerPc)
    requires w < |s.pcs|
    ensures Count(s.pcs[w := pc], IsCommitted())
         == Count(s.pcs, IsCommitted())
            - (if IsCommitted()(s.pcs[w]) then 1 else 0) + (if IsCommitted()(pc) then 1 else 0)
    ensures Count(s.pcs[w := pc], IsGranted())
         == Count(s.pcs, IsGranted()) - (if IsGranted()(s.pcs[w]) then 1 else 0) + (if IsGranted()(pc) then 1 else 0)
  {
    CountUpdate(s.pcs, w, pc, IsCommitted());
    CountUpdate(s.pcs, w, pc, IsGranted());
  }

  /** A worker that is writing has a slot no unread response occupies. */
  lemma WritesFreeSlot(c: Config, s: State, w: nat, i: nat)
    requires Inv(c, s) && w < |s.pcs| && s.pcs[w].Copying? && s.tail <= i < s.head
    ensures s.pcs[w].head % c.cap != i % c.cap
  {
    CountAtLeast(s.pcs, w, IsCommitted());
    LapsDiffer(i, s.head, c.cap);
  }

  predicate ByWorker(a: Action) {
    a.Call? || a.TakeFree? || a.Interrupted? || a.CheckFlag? || a.Lock? || a.LoadHead? || a.CopyWord? || a.Publish? ||
    a.Unlock? || a.Notify?
  }

  lemma CopyWordKeepsContents(c: Config, s: State, w: nat)
    requires Inv(c, s) && Enabled(c, s, CopyWord(w))
    ensures var s' := Apply(c, s, CopyWord(w));
            Shapes(c, s') && ContentsOk(c, s') && ReactorOk(c, s')
  {
    var s' := Apply(c, s, CopyWord(w));
    forall i | s'.tail <= i < s'.head
      ensures s'.ring[i % c.cap] == s'.published[i]
    {
      WritesFreeSlot(c, s, w, i);
    }
  }

  lemma CopyWordKeepsInv(c: Config, s: State, w: nat)
    requires Inv(c, s) && Enabled(c, s, CopyWord(w))
    ensures Inv(c, Apply(c, s, CopyWord(w)))
  {
    var pc := s.pcs[w];
    MovePc(s, w, pc.(k := pc.k + 1));
    CopyWordKeepsContents(c, s, w);
  }

  lemma PublishKeepsContents(c: Config, s: State, w: nat)
    requires Inv(c, s) && Enabled(c, s, Publish(w))
    ensures var s' := Apply(c, s, Publish(w));
            Shapes(c, s') && ContentsOk(c, s') && ReactorOk(c, s')
  {
    assert WorkerOk(c, s, s.pcs[w]);
    assert s.ring[s.head % c.cap] == s.ring[s.head % c.cap][..c.width] && s.pcs[w].slot == s.pcs[w].slot[..c.width];
  }

  lemma PublishKeepsInv(c: Config, s: State, w: nat)
    requires Inv(c, s) && Enabled(c, s, Publish(w))
    ensures Inv(c, Apply(c, s, Publish(w)))
  {
    var s' := Apply(c, s, Publish(w));
    MovePc(s, w, Unlocking);
    PublishKeepsContents(c, s, w);
    assert s'.pcs[w].Unlocking?;
    forall v | 0 <= v < |s'.pcs|
      ensures WorkerOk(c, s', s'.pcs[v])
    {
      assert WorkerOk(c, s, s.pcs[v]);
    }
  }

  /** Only thread bookkeeping changes: neither the ring nor its two ends. */
  ghost predicate SameRing(s: State, s': State) {
    && s'.head == s.head && s'.tail == s.tail && s'.ring == s.ring && s'.reactor == s.reactor
    && s'.published == s.published && s'.popped == s.popped && s'.shutdown == s.shutdown && s'.posts == s.posts
  }

  predicate Minor(a: Action) {
    ByWorker(a) && !a.CopyWord? && !a.Publish?
  }

  lemma MinorConserves(c: Config, s: State, a: Action)
    requires Inv(c, s) && Enabled(c, s, a) && Minor(a)
    ensures SlotsConserved(c, Apply(c, s, a))
  {
    MovePc(s, a.w, Apply(c, s, a).pcs[a.w]);
  }

  lemma MinorKeepsMutex(c: Config, s: State, a: Action)
    requires Inv(c, s) && Enabled(c, s, a) && Minor(a)
    ensures MutexHeldByOne(Apply(c, s, a))
  {
  }

  lemma MinorKeepsWorkers(c: Config, s: State, a: Action)
    requires Inv(c, s) && Enabled(c, s, a) && Minor(a)
    ensures var s' := Apply(c, s, a);
            SameRing(s, s') && Shapes(c, s') && (forall w :: 0 <= w < |s'.pcs| ==> WorkerOk(c, s', s'.pcs[w]))
  {
    var s' := Apply(c, s, a);
    forall v | 0 <= v < |s'.pcs|
      ensures WorkerOk(c, s', s'.pcs[v])
    {
      assert WorkerOk(c, s, s.pcs[v]);
    }
  }

  lemma MinorKeepsWake(c: Config, s: State, a: Action)
    requires Inv(c, s) && Enabled(c, s, a) && Minor(a)
    ensures WakePending(s) ==> WakePending(Apply(c, s, a))
  {
    var s' := Apply(c, s, a);
    if w :| 0 <= w < |s.pcs| && (s.pcs[w].Unlocking? || s.pcs[w].Notifying?) {
      assert w != a.w ==> s'.pcs[w] == s.pcs[w];
      assert s'.pcs[a.w] == s'.pcs[a.w];
    }
  }

  lemma WorkerKeepsInv(c: Config, s: State, a: Action)
    requires Inv(c, s) && Enabled(c, s, a) && Minor(a)
    ensures Inv(c, Apply(c, s, a))
  {
    MinorConserves(c, s, a);
    MinorKeepsMutex(c, s, a);
    MinorKeepsWorkers(c, s, a);
    MinorKeepsWake(c, s, a);
  }

  lemma AdvanceKeepsInv(c: Config, s: State)
    requires Inv(c, s) && Enabled(c, s, AdvanceTail)
    ensures Inv(c, Apply(c, s, AdvanceTail))
  {
    var s' := Apply(c, s, AdvanceTail);
    var t := s.tail;
    assert s.published[t][..c.width] == s.published[t];
    assert s.published[..t + 1] == s.published[..t] + [s.published[t]];
    forall v | 0 <= v < |s'.pcs|
      ensures WorkerOk(c, s', s'.pcs[v])
    {
      assert WorkerOk(c, s, s.pcs[v]);
    }
  }

  lemma ReactorKeepsInv(c: Config, s: State, a: Action)
    requires Inv(c, s) && Enabled(c, s, a) && !ByWorker(a) && !a.AdvanceTail? && !a.ReadWord?
    ensures Inv(c, Apply(c, s, a))
  {
    var s' := Apply(c, s, a);
    forall v | 0 <= v < |s'.pcs|
      ensures WorkerOk(c, s', s'.pcs[v])
    {
      assert WorkerOk(c, s, s.pcs[v]);
    }
  }

  lemma ReadWordKeepsInv(c: Config, s: State)
    requires Inv(c, s) && Enabled(c, s, ReadWord)
    ensures Inv(c, Apply(c, s, ReadWord))
  {
    var s', r := Apply(c, s, ReadWord), s.reactor;
    assert s.ring[r.tail % c.cap] == s.published[r.tail];
    forall v | 0 <= v < |s'.pcs|
      ensures WorkerOk(c, s', s'.pcs[v])
    {
      assert WorkerOk(c, s, s.pcs[v]);
    }
  }

  lemma StepKeepsInv(c: Config, s: State, s': State)
    requires Inv(c, s) && Step(c, s, s')
    ensures Inv(c, s')
  {
    var a :| Enabled(c, s, a) && s' == Apply(c, s, a);
    if a.CopyWord? {
      CopyWordKeepsInv(c, s, a.w);
    } else if a.Publish? {
      PublishKeepsInv(c, s, a.w);
    } else if a.AdvanceTail? {
      AdvanceKeepsInv(c, s);
    } else if a.ReadWord? {
      ReadWordKeepsInv(c, s);
    } else if ByWorker(a) {
      WorkerKeepsInv(c, s, a);
    } else {
      ReactorKeepsInv(c, s, a);
    }
  }

  lemma {:induction false} RunKeepsInv(c: Config, run: seq<State>, i: nat)
    requires ValidConfig(c) && IsRun(c, run) && i < |run|
    ensures Inv(c, run[i])
  {
    if i == 0 {
      InitInv(c);
    } else {
      RunKeepsInv(c, run, i - 1);
      assert StepAt(c, run, i - 1);
      StepKeepsInv(c, run[i - 1], run[i]);
    }
  }

  // ---------- what every run guarantees ----------

  /** The reactor pops exactly the published responses, in order; the ring never holds more than its capacity. */
  lemma DeliveredInOrder(c: Config, run: seq<State>, i: nat)
    requires ValidConfig(c) && IsRun(c, run) && i < |run|
    ensures run[i].tail <= run[i].head <= run[i].tail + c.cap
    ensures |run[i].published| == run[i].head && run[i].popped == run[i].published[..run[i].tail]
    ensures run[i].reactor.Reading? && |run[i].reactor.buf| == c.width ==>
      run[i].tail < run[i].head && run[i].reactor.buf == run[i].published[run[i].tail]
  {
    RunKeepsInv(c, run, i);
    if run[i].reactor.Reading? {
      assert run[i].published[run[i].tail][..c.width] == run[i].published[run[i].tail];
    }
  }

  /** A write into the ring by any thread leaves every unread response as it was published. */
  lemma UnreadNeverOverwritten(c: Config, run: seq<State>, i: nat, k: nat)
    requires ValidConfig(c) && IsRun(c, run) && i + 1 < |run|
    requires run[i + 1].tail <= k < run[i].head
    ensures k < |run[i].published| && |run[i].ring| == |run[i + 1].ring| == c.cap
    ensures run[i + 1].ring[k % c.cap] == run[i].ring[k % c.cap] == run[i].published[k]
  {
    RunKeepsInv(c, run, i);
    RunKeepsInv(c, run, i + 1);
    HistoryGrows(c, run, i, i + 1);
  }

  lemma WorkerHistory(c: Config, s: State, a: Action)
    requires Enabled(c, s, a) && ByWorker(a)
    ensures var s' := Apply(c, s, a);
            s.published <= s'.published && s.popped == s'.popped
  {
  }

  /** Nothing published or popped is ever taken back. */
  lemma {:induction false} HistoryGrows(c: Config, run: seq<State>, i: nat, j: nat)
    requires ValidConfig(c) && IsRun(c, run) && i <= j < |run|
    ensures run[i].published <= run[j].published && run[i].popped <= run[j].popped
  {
    if i < j {
      HistoryGrows(c, run, i, j - 1);
      assert StepAt(c, run, j - 1);
    }
  }

  /** The reactor will still compare tail and head before it goes back to sleep, or has just found a response. */
  predicate StillDraining(r: ReactorPc) {
    r.Starting? || r.TailLoaded? || r.Reading? || r.Freeing? || (r.Deciding? && r.tail < r.head)
  }

  /** Whenever a response is unread, the reactor is draining or is going to be woken. */
  lemma NoResponseIsStranded(c: Config, run: seq<State>, i: nat)
    requires ValidConfig(c) && IsRun(c, run) && i < |run|
    requires run[i].tail < run[i].head
    ensures StillDraining(run[i].reactor) || WakePending(run[i])
  {
    RunKeepsInv(c, run, i);
  }

  /** Until shutdown the free-slot semaphore accounts for every slot of the ring. */
  lemma FreeCountIsExact(c: Config, run: seq<State>, i: nat)
    requires ValidConfig(c) && IsRun(c, run) && i < |run| && !run[i].shutdown
    ensures var s := run[i];
            s.free + Count(s.pcs, IsGranted()) + Count(s.pcs, IsCommitted())
            + (s.head - s.tail) + Returning(s.reactor) == c.cap
  {
    RunKeepsInv(c, run, i);
  }
}
