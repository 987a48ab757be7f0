/**
 Where the requests in the ring come from and where they can go: every published request is
 the argument of exactly one push_request call, in call order, none is dropped before
 shutdown, each can be fetched by any idle worker, and shutdown sends the workers home.
 */
module RequestTraces {
  import opened Counting
  import opened RequestRing

  // ---------- runs with the operations that made them ----------

  ghost predicate DoneAt(c: Config, acts: seq<Action>, run: seq<State>, i: int)
    requires 0 <= i < |acts| && |run| == |acts| + 1
  {
    Enabled(c, run[i], acts[i]) && run[i + 1] == Apply(c, run[i], acts[i])
  }

  ghost predicate Follows(c: Config, acts: seq<Action>, run: seq<State>) {
    && |run| == |acts| + 1 && run[0] == Init(c)
    && forall i :: 0 <= i < |acts| ==> DoneAt(c, acts, run, i)
  }

  lemma {:induction false} EveryRunHasActions(c: Config, run: seq<State>) returns (acts: seq<Action>)
    requires IsRun(c, run)
    ensures Follows(c, acts, run)
  {
    if |run| == 1 {
      acts := [];
    } else {
      var n := |run| - 1;
      var front := run[..n];
      assert IsRun(c, front) by {
        forall i | 0 <= i < |front| - 1
          ensures StepAt(c, front, i)
        {
          assert StepAt(c, run, i);
        }
      }
      var before := EveryRunHasActions(c, front);
      assert StepAt(c, run, n - 1);
      var a :| Enabled(c, run[n - 1], a) && run[n] == Apply(c, run[n - 1], a);
      acts := before + [a];
      forall i | 0 <= i < |acts|
        ensures DoneAt(c, acts, run, i)
      {
        if i < n - 1 {
          assert DoneAt(c, before, front, i);
        }
      }
    }
  }

  // ---------- published requests and the pushes behind them ----------

  /** The reactor is inside push_request with a slot of its own and has not published yet. */
  predicate Carrying(r: ReactorPc) {
    r.Checking? || r.HeadUnread? || r.Filling?
  }

  /** Step n, before step i, began a push of the given request. */
  predicate IsPush(acts: seq<Action>, i: nat, n: nat, slot: Slot)
    requires i <= |acts|
  {
    n < i && acts[n] == TakeFree(slot)
  }

  /** `pushes[k]` is the step that began the push of the k-th published request. */
  ghost predicate PushesBehind(acts: seq<Action>, i: nat, published: seq<Slot>, pushes: seq<nat>)
    requires i <= |acts|
  {
    && |pushes| == |published|
    && (forall k :: 0 <= k < |pushes| ==> IsPush(acts, i, pushes[k], published[k]))
    && (forall j, k :: 0 <= j < k < |pushes| ==> pushes[j] < pushes[k])
  }

  /** Step `open` began the push the reactor is inside of. */
  ghost predicate OpenPush(acts: seq<Action>, i: nat, r: ReactorPc, pushes: seq<nat>, open: nat)
    requires i <= |acts|
  {
    Carrying(r) ==> IsPush(acts, i, open, r.slot) && forall k :: 0 <= k < |pushes| ==> pushes[k] < open
  }

  ghost predicate Accounted(r: ReactorPc, pushes: seq<nat>, open: nat, n: nat) {
    n in pushes || (Carrying(r) && open == n)
  }

  ghost predicate Traced(acts: seq<Action>, i: nat, s: State, pushes: seq<nat>, open: nat)
    requires i <= |acts|
  {
    && PushesBehind(acts, i, s.published, pushes) && OpenPush(acts, i, s.reactor, pushes, open)
    && (!s.shutdown ==> forall n :: 0 <= n < i && acts[n].TakeFree? ==> Accounted(s.reactor, pushes, open, n))
  }

  /** What a step that neither begins nor ends a push does to the push under way. */
  lemma OtherStep(c: Config, s: State, a: Action)
    requires Enabled(c, s, a) && !a.TakeFree? && !a.Publish?
    ensures var s' := Apply(c, s, a);
            && s'.published == s.published && (s.shutdown ==> s'.shutdown)
            && (Carrying(s'.reactor) ==> Carrying(s.reactor) && s'.reactor.slot == s.reactor.slot)
            && (Carrying(s.reactor) && !s'.shutdown ==> Carrying(s'.reactor))
  {
  }

  lemma TraceOther(c: Config, acts: seq<Action>, i: nat, s: State, pushes: seq<nat>, open: nat)
    requires i < |acts| && Traced(acts, i, s, pushes, open) && Enabled(c, s, acts[i])
    requires !acts[i].TakeFree? && !acts[i].Publish?
    ensures Traced(acts, i + 1, Apply(c, s, acts[i]), pushes, open)
  {
    OtherStep(c, s, acts[i]);
    SameTrace(acts, i, s, Apply(c, s, acts[i]), pushes, open);
  }

  lemma SameTrace(acts: seq<Action>, i: nat, s: State, s': State, pushes: seq<nat>, open: nat)
    requires i < |acts| && Traced(acts, i, s, pushes, open) && !acts[i].TakeFree?
    requires s'.published == s.published && (s.shutdown ==> s'.shutdown)
    requires Carrying(s'.reactor) ==> Carrying(s.reactor) && s'.reactor.slot == s.reactor.slot
    requires Carrying(s.reactor) && !s'.shutdown ==> Carrying(s'.reactor)
    ensures Traced(acts, i + 1, s', pushes, open)
  {
    assert forall k :: 0 <= k < |pushes| ==> IsPush(acts, i, pushes[k], s.published[k]);
    if !s'.shutdown {
      forall n | 0 <= n < i + 1 && acts[n].TakeFree?
        ensures Accounted(s'.reactor, pushes, open, n)
      {
        assert Accounted(s.reactor, pushes, open, n);
      }
    }
  }

  lemma TracePublish(c: Config, acts: seq<Action>, i: nat, s: State, pushes: seq<nat>, open: nat)
    requires i < |acts| && Traced(acts, i, s, pushes, open) && Enabled(c, s, acts[i]) && acts[i].Publish?
    ensures Traced(acts, i + 1, Apply(c, s, acts[i]), pushes + [open], open)
  {
    var s', pushes' := Apply(c, s, acts[i]), pushes + [open];
    assert IsPush(acts, i, open, s.reactor.slot);
    if !s'.shutdown {
      forall n | 0 <= n < i + 1 && acts[n].TakeFree?
        ensures Accounted(s'.reactor, pushes', open, n)
      {
        assert Accounted(s.reactor, pushes, open, n);
        assert pushes'[|pushes|] == open;
      }
    }
  }

  lemma TraceTakeFree(c: Config, acts: seq<Action>, i: nat, s: State, pushes: seq<nat>, open: nat)
    requires i < |acts| && Traced(acts, i, s, pushes, open) && Enabled(c, s, acts[i]) && acts[i].TakeFree?
    ensures Traced(acts, i + 1, Apply(c, s, acts[i]), pushes, i)
  {
    var s' := Apply(c, s, acts[i]);
    if !s'.shutdown {
      forall n | 0 <= n < i + 1 && acts[n].TakeFree?
        ensures Accounted(s'.reactor, pushes, i, n)
      {
        assert n < i ==> Accounted(s.reactor, pushes, open, n);
      }
    }
  }

  lemma {:induction false} Trace(c: Config, acts: seq<Action>, run: seq<State>, i: nat)
    returns (pushes: seq<nat>, open: nat)
    requires Follows(c, acts, run) && i < |run|
    ensures Traced(acts, i, run[i], pushes, open)
  {
    if i == 0 {
      pushes, open := [], 0;
    } else {
      pushes, open := Trace(c, acts, run, i - 1);
      assert DoneAt(c, acts, run, i - 1);
      if acts[i - 1].TakeFree? {
        TraceTakeFree(c, acts, i - 1, run[i - 1], pushes, open);
        open := i - 1;
      } else if acts[i - 1].Publish? {
        TracePublish(c, acts, i - 1, run[i - 1], pushes, open);
        pushes := pushes + [open];
      } else {
        TraceOther(c, acts, i - 1, run[i - 1], pushes, open);
      }
    }
  }

  /** The published requests are the arguments of different pushes, in the order they were pushed. */
  lemma PublishedInPushOrder(c: Config, acts: seq<Action>, run: seq<State>, i: nat) returns (pushes: seq<nat>)
    requires Follows(c, acts, run) && i < |run|
    ensures |pushes| == |run[i].published|
    ensures forall k :: 0 <= k < |pushes| ==> pushes[k] < i && acts[pushes[k]] == TakeFree(run[i].published[k])
    ensures forall j, k :: 0 <= j < k < |pushes| ==> pushes[j] < pushes[k]
  {
    var open;
    pushes, open := Trace(c, acts, run, i);
  }

  /** Until shutdown, a push that got a slot and is over has published its request. */
  lemma NoPushDropped(c: Config, acts: seq<Action>, run: seq<State>, i: nat, n: nat) returns (k: nat)
    requires Follows(c, acts, run) && n < i < |run| && acts[n].TakeFree? && !run[i].shutdown
    requires !Carrying(run[i].reactor)
    ensures k < |run[i].published| && run[i].published[k] == acts[n].slot
  {
    var pushes, open := Trace(c, acts, run, i);
    assert Accounted(run[i].reactor, pushes, open, n);
    k :| 0 <= k < |pushes| && pushes[k] == n;
  }

  /** Until shutdown a worker comes back from wait_request only with a whole slot copied and given back. */
  lemma ReturnsWithRequest(c: Config, acts: seq<Action>, run: seq<State>, i: nat, w: nat)
    requires Follows(c, acts, run) && i < |acts| && w < |run[i].pcs| == |run[i + 1].pcs| && !run[i].shutdown
    requires !run[i].pcs[w].Elsewhere? && run[i + 1].pcs[w].Elsewhere?
    ensures acts[i] == Release(w) && run[i].pcs[w].Copying? && |run[i].pcs[w].buf| == c.width
    ensures run[i + 1].released == run[i].released + [run[i].pcs[w].ticket] && run[i + 1].free == run[i].free + 1
  {
    assert DoneAt(c, acts, run, i);
  }

  /** A push is refused only when every slot is taken (queued, held or leaked), and changes nothing. */
  lemma RefusedOnlyWhenFull(c: Config, acts: seq<Action>, run: seq<State>, i: nat)
    requires ValidConfig(c) && IsRun(c, run) && Follows(c, acts, run) && i < |acts| && acts[i].PushFull?
    ensures run[i + 1] == run[i] && !Carrying(run[i].reactor)
    ensures run[i].leaked + (run[i].head - run[i].tail) + Count(run[i].pcs, IsHolding()) == c.cap
  {
    assert DoneAt(c, acts, run, i);
    RunKeepsInv(c, run, i);
  }

  // ---------- every request can be fetched ----------

  /** The effect of one worker fetching the oldest request undisturbed. */
  function Served(s: State, w: nat): State
    requires s.items > 0
  {
    s.(tail := s.tail + 1, items := s.items - 1, free := s.free + 1,
       claims := s.claims + [w], released := s.released + [s.tail])
  }

  /** Any idle worker can fetch the oldest request: it copies that slot, gives it back and nothing else changes. */
  lemma ReachServed(c: Config, s: State, w: nat) returns (copied: State)
    requires Reachable(c, s) && ValidConfig(c) && |s.ring| == c.cap && |s.ring[s.tail % c.cap]| == c.width
    requires At(s, w, Elsewhere) && s.items > 0 && !s.shutdown
    ensures Reachable(c, copied) && w < |copied.pcs| && copied.pcs[w] == Copying(s.tail, s.ring[s.tail % c.cap])
    ensures Reachable(c, Served(s, w))
  {
    var slot := s.ring[s.tail % c.cap];
    ReachClaimed(c, s, w);
    var s1 := Claimed(s, w);
    ReachRead(c, s1, w, s.tail, slot);
    copied := SetPc(s1, w, Copying(s.tail, slot));
    ReachStep(c, copied, Release(w));
    var s2 := Apply(c, copied, Release(w));
    assert s2.pcs == s.pcs;
    assert s2 == Served(s, w);
  }

  /** A request pushed into an empty ring with a free slot can reach any idle worker word for word. */
  lemma RequestCanBeDelivered(c: Config, s: State, w: nat, slot: Slot) returns (copied: State)
    requires ValidConfig(c) && Reachable(c, s) && |slot| == c.width && !s.shutdown
    requires s.reactor.Out? && s.free > 0 && s.tail == s.head && At(s, w, Elsewhere)
    ensures |s.ring| == c.cap && Reachable(c, Pushed(c, s, slot))
    ensures Pushed(c, s, slot).published == s.published + [slot]
    ensures Reachable(c, copied) && w < |copied.pcs| && copied.pcs[w] == Copying(s.head, slot)
    ensures Reachable(c, Served(Pushed(c, s, slot), w))
  {
    var run :| IsRun(c, run) && run[|run| - 1] == s;
    RunKeepsInv(c, run, |run| - 1);
    assert |s.ring[s.head % c.cap]| == c.width;
    ReachPushed(c, s, slot);
    copied := ReachServed(c, Pushed(c, s, slot), w);
  }

  // ---------- shutdown ----------

  lemma {:induction false} ReachPosted(c: Config, s: State, n: nat)
    requires Reachable(c, s) && n <= s.posts
    ensures Reachable(c, s.(items := s.items + n, posts := s.posts - n))
  {
    if n > 0 {
      ReachPosted(c, s, n - 1);
      ReachStep(c, s.(items := s.items + (n - 1), posts := s.posts - (n - 1)), ShutdownPost);
    }
  }

  /** Raising shutdown gives the request semaphore one token per slot on top of what it had. */
  lemma ReachShutdown(c: Config, s: State)
    requires Reachable(c, s)
    ensures Reachable(c, s.(shutdown := true, items := s.items + c.cap))
  {
    ReachStep(c, s, RaiseShutdown);
    ReachPosted(c, Apply(c, s, RaiseShutdown), c.cap);
  }

  /** After shutdown a waiting worker that gets a token, or is interrupted, leaves without claiming. */
  lemma ReachDismissed(c: Config, s: State, w: nat)
    requires Reachable(c, s) && s.shutdown && At(s, w, Waiting) && s.items > 0
    ensures Reachable(c, SetPc(s.(items := s.items - 1), w, Elsewhere))
    ensures Reachable(c, SetPc(s, w, Elsewhere))
  {
    ReachStep(c, s, Interrupted(w));
    ReachStep(c, s, TakeItem(w));
    var s1 := Apply(c, s, TakeItem(w));
    ReachStep(c, s1, CheckFlag(w));
    assert Apply(c, s1, CheckFlag(w)).pcs == s.pcs[w := Elsewhere];
  }

  /** Past its flag check: the push under way will publish. */
  function Committed(r: ReactorPc): nat {
    if r.HeadUnread? || r.Filling? then 1 else 0
  }

  lemma ShutdownStep(c: Config, s: State, a: Action)
    requires Enabled(c, s, a) && s.shutdown
    ensures var s' := Apply(c, s, a);
            && s'.shutdown && |s'.published| + Committed(s'.reactor) <= |s.published| + Committed(s.reactor)
            && |s'.claims| + Count(s'.pcs, IsReady()) <= |s.claims| + Count(s.pcs, IsReady())
  {
    if ByWorker(a) {
      MovePc(s, a.w, Apply(c, s, a).pcs[a.w], IsReady());
    }
  }

  /** Once shutdown is raised, only threads already past their flag check still publish or claim. */
  lemma {:induction false} ShutdownStopsTraffic(c: Config, run: seq<State>, i: nat, j: nat)
    requires IsRun(c, run) && i <= j < |run| && run[i].shutdown
    ensures run[j].shutdown
    ensures |run[j].published| + Committed(run[j].reactor) <= |run[i].published| + Committed(run[i].reactor)
    ensures |run[j].claims| + Count(run[j].pcs, IsReady()) <= |run[i].claims| + Count(run[i].pcs, IsReady())
  {
    if i < j {
      ShutdownStopsTraffic(c, run, i, j - 1);
      assert StepAt(c, run, j - 1);
      var a :| Enabled(c, run[j - 1], a) && run[j] == Apply(c, run[j - 1], a);
      ShutdownStep(c, run[j - 1], a);
    }
  }
}
