/**
 Where the responses in the ring come from and where they can go: every published response
 is the argument of exactly one push_response call, no call is dropped before shutdown, every
 call can be carried through to the reactor, and shutdown stops new responses.
 */
module ResponseTraces {
  import opened Counting
  import opened ResponseRing

  // ---------- runs with the operations that made them ----------

  ghost predicate DoneAt(c: Config, acts: seq<Action>, run: seq<State>, i: int)
    requires 0 <= i < |acts| && |run| == |acts| + 1
  {
    Enabled(c, run[i], acts[i]) && run[i + 1] == Apply(c, run[i], acts[i])
  }

  ghost predicate Follows(c: Config, acts: seq<Action>, run: seq<State>) {
    && |run| == |acts| + 1 && run[0] == Init(c)
    && forall i :: 0 <= i < |acts| ==> DoneAt(c, acts, run, i)
  }

  lemma {:induction false} EveryRunHasActions(c: Config, run: seq<State>) returns (acts: seq<Action>)
    requires IsRun(c, run)
    ensures Follows(c, acts, run)
  {
    if |run| == 1 {
      acts := [];
    } else {
      var n := |run| - 1;
      var front := run[..n];
      assert IsRun(c, front) by {
        forall i | 0 <= i < |front| - 1
          ensures StepAt(c, front, i)
        {
          assert StepAt(c, run, i);
        }
      }
      var before := EveryRunHasActions(c, front);
      assert StepAt(c, run, n - 1);
      var a :| Enabled(c, run[n - 1], a) && run[n] == Apply(c, run[n - 1], a);
      acts := before + [a];
      forall i | 0 <= i < |acts|
        ensures DoneAt(c, acts, run, i)
      {
        if i < n - 1 {
          assert DoneAt(c, before, front, i);
        }
      }
    }
  }

  // ---------- published responses and the calls behind them ----------

  /** A worker inside push_response whose response is not in the ring yet. */
  predicate Carrying(pc: WorkerPc) {
    pc.Waiting? || pc.Granted? || pc.Locking? || pc.Loading? || pc.Copying?
  }

  /** `calls[k]` is the step that called push_response with the k-th published response. */
  ghost predicate CallsBehind(acts: seq<Action>, i: nat, published: seq<Slot>, calls: seq<nat>)
    requires i <= |acts|
  {
    && |calls| == |published|
    && forall k :: 0 <= k < |calls| ==> IsCall(acts, i, calls[k]) && acts[calls[k]].slot == published[k]
  }

  predicate IsCall(acts: seq<Action>, i: nat, n: nat)
    requires i <= |acts|
  {
    n < i && acts[n].Call?
  }

  ghost predicate AllCalls(acts: seq<Action>, calls: seq<nat>) {
    forall k :: 0 <= k < |calls| ==> calls[k] < |acts| && acts[calls[k]].Call?
  }

  /** No call stands behind two responses, and those of one worker are in the order of its calls. */
  ghost predicate OncePerCall(acts: seq<Action>, calls: seq<nat>)
    requires AllCalls(acts, calls)
  {
    forall j, k :: 0 <= j < k < |calls| ==>
      calls[j] != calls[k] && (acts[calls[j]].w == acts[calls[k]].w ==> calls[j] < calls[k])
  }

  /** `open[w]` is the call worker w is inside of: later than all its published ones. */
  ghost predicate OpenCalls(acts: seq<Action>, i: nat, pcs: seq<WorkerPc>, calls: seq<nat>, open: seq<nat>)
    requires i <= |acts| && AllCalls(acts, calls)
  {
    && |open| == |pcs|
    && forall w :: 0 <= w < |pcs| && Carrying(pcs[w]) ==> OpenCall(acts, i, pcs[w], w, calls, open[w])
  }

  ghost predicate OpenCall(acts: seq<Action>, i: nat, pc: WorkerPc, w: nat, calls: seq<nat>, n: nat)
    requires i <= |acts| && Carrying(pc) && AllCalls(acts, calls)
  {
    && n < i && acts[n] == Call(w, pc.slot)
    && forall k :: 0 <= k < |calls| && acts[calls[k]].w == w ==> calls[k] < n
  }

  /** Call n is behind a published response or still open. */
  ghost predicate Accounted(acts: seq<Action>, pcs: seq<WorkerPc>, calls: seq<nat>, open: seq<nat>, n: nat)
    requires n < |acts| && acts[n].Call? && |open| == |pcs|
  {
    n in calls || (acts[n].w < |pcs| && Carrying(pcs[acts[n].w]) && open[acts[n].w] == n)
  }

  ghost predicate Traced(acts: seq<Action>, i: nat, s: State, calls: seq<nat>, open: seq<nat>)
    requires i <= |acts|
  {
    && CallsBehind(acts, i, s.published, calls) && AllCalls(acts, calls) && OncePerCall(acts, calls)
    && OpenCalls(acts, i, s.pcs, calls, open)
    && (!s.shutdown ==> forall n :: 0 <= n < i && acts[n].Call? ==> Accounted(acts, s.pcs, calls, open, n))
  }

  lemma TraceCall(c: Config, acts: seq<Action>, i: nat, s: State, calls: seq<nat>, open: seq<nat>)
    returns (open': seq<nat>)
    requires i < |acts| && Traced(acts, i, s, calls, open) && acts[i].Call? && Enabled(c, s, acts[i])
    ensures Traced(acts, i + 1, Apply(c, s, acts[i]), calls, open')
  {
    var w := acts[i].w;
    var s' := Apply(c, s, acts[i]);
    open' := open[w := i];
    forall v | 0 <= v < |s'.pcs| && Carrying(s'.pcs[v])
      ensures OpenCall(acts, i + 1, s'.pcs[v], v, calls, open'[v])
    {
      if v != w {
        assert OpenCall(acts, i, s.pcs[v], v, calls, open[v]);
      }
    }
    if !s'.shutdown {
      forall n | 0 <= n < i + 1 && acts[n].Call?
        ensures Accounted(acts, s'.pcs, calls, open', n)
      {
        assert n < i ==> Accounted(acts, s.pcs, calls, open, n);
      }
    }
  }

  lemma TracePublish(c: Config, acts: seq<Action>, i: nat, s: State, calls: seq<nat>, open: seq<nat>)
    returns (calls': seq<nat>)
    requires i < |acts| && Traced(acts, i, s, calls, open) && acts[i].Publish? && Enabled(c, s, acts[i])
    ensures Traced(acts, i + 1, Apply(c, s, acts[i]), calls', open)
  {
    var w := acts[i].w;
    var s' := Apply(c, s, acts[i]);
    assert OpenCall(acts, i, s.pcs[w], w, calls, open[w]);
    calls' := calls + [open[w]];
    forall v | 0 <= v < |s'.pcs| && Carrying(s'.pcs[v])
      ensures OpenCall(acts, i + 1, s'.pcs[v], v, calls', open[v])
    {
      assert OpenCall(acts, i, s.pcs[v], v, calls, open[v]);
    }
    if !s'.shutdown {
      forall n | 0 <= n < i + 1 && acts[n].Call?
        ensures Accounted(acts, s'.pcs, calls', open, n)
      {
        assert Accounted(acts, s.pcs, calls, open, n);
        assert calls'[|calls|] == open[w];
      }
    }
  }

  lemma TraceOther(c: Config, acts: seq<Action>, i: nat, s: State, calls: seq<nat>, open: seq<nat>)
    requires i < |acts| && Traced(acts, i, s, calls, open) && Enabled(c, s, acts[i])
    requires !acts[i].Call? && !acts[i].Publish?
    ensures Traced(acts, i + 1, Apply(c, s, acts[i]), calls, open)
  {
    var s' := Apply(c, s, acts[i]);
    forall v | 0 <= v < |s'.pcs| && Carrying(s'.pcs[v])
      ensures OpenCall(acts, i + 1, s'.pcs[v], v, calls, open[v])
    {
      assert OpenCall(acts, i, s.pcs[v], v, calls, open[v]);
    }
    if !s'.shutdown {
      forall n | 0 <= n < i + 1 && acts[n].Call?
        ensures Accounted(acts, s'.pcs, calls, open, n)
      {
        assert Accounted(acts, s.pcs, calls, open, n);
      }
    }
  }

  lemma {:induction false} Trace(c: Config, acts: seq<Action>, run: seq<State>, i: nat)
    returns (calls: seq<nat>, open: seq<nat>)
    requires Follows(c, acts, run) && i < |run|
    ensures Traced(acts, i, run[i], calls, open)
  {
    if i == 0 {
      calls, open := [], seq(|run[0].pcs|, _ => 0);
    } else {
      calls, open := Trace(c, acts, run, i - 1);
      assert DoneAt(c, acts, run, i - 1);
      if acts[i - 1].Call? {
        open := TraceCall(c, acts, i - 1, run[i - 1], calls, open);
      } else if acts[i - 1].Publish? {
        calls := TracePublish(c, acts, i - 1, run[i - 1], calls, open);
      } else {
        TraceOther(c, acts, i - 1, run[i - 1], calls, open);
      }
    }
  }

  /** Published responses are arguments of earlier calls, each of its own, one worker's in the order it called. */
  lemma PublishedOncePerCall(c: Config, acts: seq<Action>, run: seq<State>, i: nat) returns (calls: seq<nat>)
    requires Follows(c, acts, run) && i < |run|
    ensures |calls| == |run[i].published|
    ensures forall k :: 0 <= k < |calls| ==>
      calls[k] < i && acts[calls[k]].Call? && acts[calls[k]].slot == run[i].published[k]
    ensures forall j, k :: 0 <= j < k < |calls| ==> calls[j] != calls[k]
    ensures forall j, k :: 0 <= j < k < |calls| && acts[calls[j]].w == acts[calls[k]].w ==> calls[j] < calls[k]
  {
    var open;
    calls, open := Trace(c, acts, run, i);
  }

  /** Until shutdown, a worker that is done with a call has published its response. */
  lemma NoCallDropped(c: Config, acts: seq<Action>, run: seq<State>, i: nat, n: nat) returns (k: nat)
    requires Follows(c, acts, run) && n < i < |run| && acts[n].Call? && !run[i].shutdown
    requires acts[n].w < |run[i].pcs| ==> !Carrying(run[i].pcs[acts[n].w])
    ensures k < |run[i].published| && run[i].published[k] == acts[n].slot
  {
    var calls, open := Trace(c, acts, run, i);
    assert Accounted(acts, run[i].pcs, calls, open, n);
    k :| 0 <= k < |calls| && calls[k] == n;
  }

  // ---------- every call can be carried through ----------

  ghost predicate Reachable(c: Config, s: State) {
    exists run :: IsRun(c, run) && run[|run| - 1] == s
  }

  lemma ReachStep(c: Config, s: State, a: Action)
    requires Reachable(c, s) && Enabled(c, s, a)
    ensures Reachable(c, Apply(c, s, a))
  {
    var run :| IsRun(c, run) && run[|run| - 1] == s;
    var run' := run + [Apply(c, s, a)];
    forall i | 0 <= i < |run'| - 1
      ensures StepAt(c, run', i)
    {
      if i + 1 < |run| {
        assert StepAt(c, run, i) && run'[i] == run[i] && run'[i + 1] == run[i + 1];
      }
    }
    assert IsRun(c, run');
  }

  lemma ReachableInv(c: Config, s: State)
    requires ValidConfig(c) && Reachable(c, s)
    ensures Inv(c, s)
  {
    var run :| IsRun(c, run) && run[|run| - 1] == s;
    RunKeepsInv(c, run, |run| - 1);
  }

  /** Copying the remaining words of a response. */
  lemma {:induction false} ReachCopied(c: Config, s: State, w: nat, slot: Slot, k: nat)
    requires Reachable(c, s) && ValidConfig(c) && |s.ring| == c.cap && |slot| == c.width && k <= c.width
    requires w < |s.pcs| && s.pcs[w] == Copying(slot, s.head, k)
    requires |s.ring[s.head % c.cap]| == c.width && s.ring[s.head % c.cap][..k] == slot[..k]
    ensures Reachable(c, SetPc(s.(ring := s.ring[s.head % c.cap := slot]), w, Copying(slot, s.head, c.width)))
    decreases c.width - k
  {
    var i := s.head % c.cap;
    if k == c.width {
      assert s.ring[i] == s.ring[i][..k] && slot == slot[..k];
      assert s.ring[i := slot] == s.ring;
      assert s.pcs[w := Copying(slot, s.head, c.width)] == s.pcs;
    } else {
      ReachStep(c, s, CopyWord(w));
      var s' := Apply(c, s, CopyWord(w));
      assert s'.ring[i][..k + 1] == slot[..k + 1];
      ReachCopied(c, s', w, slot, k + 1);
      assert s'.ring[i := slot] == s.ring[i := slot];
      assert s'.pcs[w := Copying(slot, s.head, c.width)] == s.pcs[w := Copying(slot, s.head, c.width)];
    }
  }

  /** The effect of one complete, undisturbed push. */
  function Pushed(c: Config, s: State, slot: Slot): State
    requires ValidConfig(c) && |s.ring| == c.cap && s.free > 0
  {
    s.(head := s.head + 1, ring := s.ring[s.head % c.cap := slot], free := s.free - 1, efd := s.efd + 1,
       published := s.published + [slot])
  }

  /** Up to holding the mutex with the head loaded. */
  lemma ReachHolding(c: Config, s: State, w: nat, slot: Slot)
    requires Reachable(c, s) && |slot| == c.width
    requires w < |s.pcs| && s.pcs[w].Elsewhere? && s.mutex == None && s.free > 0 && !s.shutdown
    ensures Reachable(c, SetPc(s.(free := s.free - 1, mutex := Some(w)), w, Copying(slot, s.head, 0)))
  {
    ReachStep(c, s, Call(w, slot));
    var s1 := Apply(c, s, Call(w, slot));
    ReachStep(c, s1, TakeFree(w));
    var s2 := Apply(c, s1, TakeFree(w));
    ReachStep(c, s2, CheckFlag(w));
    var s3 := Apply(c, s2, CheckFlag(w));
    ReachStep(c, s3, Lock(w));
    var s4 := Apply(c, s3, Lock(w));
    ReachStep(c, s4, LoadHead(w));
    assert Apply(c, s4, LoadHead(w)).pcs == s.pcs[w := Copying(slot, s.head, 0)];
  }

  /** Any worker can push any response of the right width whenever a slot is free. */
  lemma ReachPushed(c: Config, s: State, w: nat, slot: Slot)
    requires Reachable(c, s) && ValidConfig(c) && |s.ring| == c.cap && |s.ring[s.head % c.cap]| == c.width
    requires |slot| == c.width
    requires w < |s.pcs| && s.pcs[w].Elsewhere? && s.mutex == None && s.free > 0 && !s.shutdown
    ensures Reachable(c, Pushed(c, s, slot))
  {
    ReachHolding(c, s, w, slot);
    var s1 := SetPc(s.(free := s.free - 1, mutex := Some(w)), w, Copying(slot, s.head, 0));
    ReachCopied(c, s1, w, slot, 0);
    var s2 := SetPc(s1.(ring := s.ring[s.head % c.cap := slot]), w, Copying(slot, s.head, c.width));
    ReachStep(c, s2, Publish(w));
    var s3 := Apply(c, s2, Publish(w));
    ReachStep(c, s3, Unlock(w));
    var s4 := Apply(c, s3, Unlock(w));
    ReachStep(c, s4, Notify(w));
    var s5 := Apply(c, s4, Notify(w));
    assert s5.pcs == s.pcs;
    assert s5 == Pushed(c, s, slot);
  }

  /** Reading the remaining words of the oldest response. */
  lemma {:induction false} ReachRead(c: Config, s: State, slot: Slot)
    requires Reachable(c, s) && ValidConfig(c) && |s.ring| == c.cap && |slot| == c.width
    requires s.reactor.Reading? && s.ring[s.reactor.tail % c.cap] == slot && s.reactor.buf <= slot
    ensures Reachable(c, s.(reactor := Reading(s.reactor.tail, slot)))
    decreases c.width - |s.reactor.buf|
  {
    if |s.reactor.buf| == c.width {
      assert s.reactor.buf == slot;
    } else {
      ReachStep(c, s, ReadWord);
      ReachRead(c, Apply(c, s, ReadWord), slot);
    }
  }

  /** The effect of popping the oldest response. */
  function Popped(c: Config, s: State): State
    requires ValidConfig(c) && |s.ring| == c.cap
  {
    s.(tail := s.tail + 1, free := s.free + 1, popped := s.popped + [s.ring[s.tail % c.cap]])
  }

  /** An awake reactor finds the oldest response. */
  lemma ReachFound(c: Config, s: State)
    requires Reachable(c, s) && s.reactor.Starting? && s.tail < s.head
    ensures Reachable(c, s.(reactor := Reading(s.tail, [])))
  {
    ReachStep(c, s, LoadTail);
    var s1 := Apply(c, s, LoadTail);
    ReachStep(c, s1, LoadHeadAsReader);
    var s2 := Apply(c, s1, LoadHeadAsReader);
    ReachStep(c, s2, Decide);
  }

  lemma ReachPopped(c: Config, s: State)
    requires Reachable(c, s) && ValidConfig(c) && |s.ring| == c.cap && |s.ring[s.tail % c.cap]| == c.width
    requires s.reactor.Starting? && s.tail < s.head
    ensures Reachable(c, Popped(c, s))
  {
    var slot := s.ring[s.tail % c.cap];
    ReachFound(c, s);
    ReachRead(c, s.(reactor := Reading(s.tail, [])), slot);
    var s1 := s.(reactor := Reading(s.tail, slot));
    ReachStep(c, s1, AdvanceTail);
    var s2 := Apply(c, s1, AdvanceTail);
    ReachStep(c, s2, PostFree);
    assert Apply(c, s2, PostFree) == Popped(c, s);
  }

  /** Everything read, and nothing else changed. */
  function Drained(s: State): State
    requires s.tail <= s.head
  {
    s.(tail := s.head, free := s.free + (s.head - s.tail), popped := s.published)
  }

  lemma {:induction false} ReachDrained(c: Config, s: State)
    requires ValidConfig(c) && Reachable(c, s) && s.reactor.Starting?
    ensures s.tail <= s.head && Reachable(c, Drained(s))
    decreases s.head - s.tail
  {
    ReachableInv(c, s);
    if s.tail == s.head {
      assert s.popped == s.published;
    } else {
      assert |s.ring[s.tail % c.cap]| == c.width;
      ReachPopped(c, s);
      ReachDrained(c, Popped(c, s));
      assert Drained(Popped(c, s)) == Drained(s);
    }
  }

  /**
   A response pushed into a ring with a free slot is published last, and an awake or sleeping
   reactor can then hand over all responses up to and including it.
   */
  lemma ResponseCanBeDelivered(c: Config, s: State, w: nat, slot: Slot) returns (published: State, popped: State)
    requires ValidConfig(c) && Reachable(c, s) && !s.shutdown && |slot| == c.width
    requires w < |s.pcs| && s.pcs[w].Elsewhere? && s.mutex == None && s.free > 0
    requires s.reactor.Starting? || s.reactor.Sleeping?
    ensures Reachable(c, published) && published.published == s.published + [slot] && published.popped == s.popped
    ensures published.pcs == s.pcs && published.mutex == None && published.free == s.free - 1
    ensures published.efd == s.efd + 1 && !popped.shutdown && popped.posts == s.posts
    ensures Reachable(c, popped) && popped.popped == popped.published == s.published + [slot]
    ensures popped.pcs == s.pcs && popped.mutex == None && popped.reactor.Starting?
    ensures popped.efd == (if s.reactor.Sleeping? then 0 else s.efd + 1)
  {
    ReachableInv(c, s);
    assert |s.ring[s.head % c.cap]| == c.width;
    ReachPushed(c, s, w, slot);
    published := Pushed(c, s, slot);
    var awake := published;
    if published.reactor.Sleeping? {
      ReachStep(c, published, Wake);
      awake := Apply(c, published, Wake);
    }
    ReachDrained(c, awake);
    popped := Drained(awake);
  }

  /** A new ring is open: its first response, whatever it is, can be published, announced and popped. */
  lemma FirstResponseDelivered(c: Config, slot: Slot) returns (published: State, popped: State)
    requires ValidConfig(c) && c.workers >= 1 && |slot| == c.width
    ensures Reachable(c, published) && published.published == [slot] && published.popped == [] && published.efd == 1
    ensures Reachable(c, popped) && popped.popped == popped.published == [slot] && popped.efd == 0
    ensures !popped.shutdown && popped.posts == 0
  {
    assert IsRun(c, [Init(c)]) && [Init(c)][0] == Init(c);
    published, popped := ResponseCanBeDelivered(c, Init(c), 0, slot);
  }

  // ---------- shutdown ----------

  /** Raising shutdown gives the free-slot semaphore one token per slot on top of what it had. */
  lemma ReachShutdown(c: Config, s: State)
    requires Reachable(c, s)
    ensures Reachable(c, s.(shutdown := true, free := s.free + c.cap))
  {
    ReachStep(c, s, RaiseShutdown);
    ReachPosted(c, Apply(c, s, RaiseShutdown), c.cap);
  }

  lemma {:induction false} ReachPosted(c: Config, s: State, n: nat)
    requires Reachable(c, s) && n <= s.posts
    ensures Reachable(c, s.(free := s.free + n, posts := s.posts - n))
  {
    if n > 0 {
      ReachPosted(c, s, n - 1);
      ReachStep(c, s.(free := s.free + (n - 1), posts := s.posts - (n - 1)), ShutdownPost);
    }
  }

  /** After shutdown a waiting worker that gets a token, or is interrupted, leaves without publishing. */
  lemma ReachDismissed(c: Config, s: State, w: nat)
    requires Reachable(c, s) && s.shutdown && w < |s.pcs| && s.pcs[w].Waiting? && s.free > 0
    ensures Reachable(c, SetPc(s.(free := s.free - 1), w, Elsewhere))
    ensures Reachable(c, SetPc(s, w, Elsewhere))
  {
    ReachStep(c, s, Interrupted(w));
    ReachStep(c, s, TakeFree(w));
    var s1 := Apply(c, s, TakeFree(w));
    ReachStep(c, s1, CheckFlag(w));
    assert Apply(c, s1, CheckFlag(w)).pcs == s.pcs[w := Elsewhere];
  }

  ghost function StillToCome(s: State): nat {
    |s.published| + Count(s.pcs, IsCommitted())
  }

  lemma ShutdownStep(c: Config, s: State, a: Action)
    requires Enabled(c, s, a) && s.shutdown
    ensures Apply(c, s, a).shutdown && StillToCome(Apply(c, s, a)) <= StillToCome(s)
  {
    if ByWorker(a) {
      MovePc(s, a.w, Apply(c, s, a).pcs[a.w]);
    }
  }

  /** Once shutdown is raised, only workers already past the flag check still publish. */
  lemma {:induction false} ShutdownStopsPublishing(c: Config, run: seq<State>, i: nat, j: nat)
    requires IsRun(c, run) && i <= j < |run| && run[i].shutdown
    ensures run[j].shutdown && StillToCome(run[j]) <= StillToCome(run[i])
    ensures |run[j].published| <= |run[i].published| + Count(run[i].pcs, IsCommitted())
  {
    if i < j {
      ShutdownStopsPublishing(c, run, i, j - 1);
      assert StepAt(c, run, j - 1);
      var a :| Enabled(c, run[j - 1], a) && run[j] == Apply(c, run[j - 1], a);
      ShutdownStep(c, run[j - 1], a);
    }
  }
}
