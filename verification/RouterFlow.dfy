/** How requests flow through the router (`internal/pipeline/router.go`, `internal/workerpool/workerpool.go`):
    each list hands out the oldest request first, and one the fetcher took is in exactly one later stage until
    its processing has ended. */
module RouterFlow {
  import opened Router

  // ---------------------------------------------------------------- oldest first

  /** Requests are numbered in the order they enter, so a list in order of age ascends, below `bound`. */
  ghost predicate Aged(q: seq<nat>, bound: nat) {
    && (forall i, j :: 0 <= i < j < |q| ==> q[i] < q[j])
    && (forall i :: 0 <= i < |q| ==> q[i] < bound)
  }

  /** The request the loop holds, or the next one to come. */
  function Newest(s: Router): nat {
    if s.loop.Offering? || s.loop.Trying? || s.loop.Spilling? then s.loop.req else s.next
  }

  ghost predicate InOrder(s: Router) {
    Aged(s.channel, Newest(s)) && Aged(s.overflow, Newest(s)) && Newest(s) <= s.next
  }

  lemma AgedNext(q: seq<nat>, x: nat, bound: nat)
    requires Aged(q, x) && x < bound
    ensures Aged(q + [x], bound)
  {
  }

  lemma AgedRest(q: seq<nat>, bound: nat)
    requires Aged(q, bound) && q != []
    ensures Aged(q[1..], bound)
    ensures q[0] in q && q[0] !in q[1..] && forall x :: x in q ==> q[0] <= x
  {
  }

  lemma AgedLonger(q: seq<nat>, bound: nat, more: nat)
    requires Aged(q, bound) && bound <= more
    ensures Aged(q, more)
  {
  }

  lemma LoopOrder(b: Bounds, s: Router, a: LoopAction)
    requires InOrder(s) && HandsBelow(s) && LoopCan(b, s, a)
    ensures InOrder(LoopStep(b, s, a))
  {
    var t := LoopStep(b, s, a);
    AgedLonger(s.channel, Newest(s), s.next);
    AgedLonger(s.overflow, Newest(s), s.next);
    if a.OfferSent? {
      AgedNext(s.channel, s.loop.req, s.next);
    } else if a.Spill? {
      AgedNext(s.overflow, s.loop.req, s.next);
    }
  }

  /** A held request has been numbered. */
  ghost predicate HandsBelow(s: Router) {
    s.loop.Offering? || s.loop.Trying? || s.loop.Spilling? ==> s.loop.req < s.next
  }

  lemma LoopHands(b: Bounds, s: Router, a: LoopAction)
    requires HandsBelow(s) && LoopCan(b, s, a)
    ensures HandsBelow(LoopStep(b, s, a))
  {
  }

  lemma PoolOrder(s: Router, a: PoolAction)
    requires InOrder(s) && HandsBelow(s) && PoolCan(s, a)
    ensures InOrder(PoolStep(s, a)) && HandsBelow(PoolStep(s, a))
  {
    if a.Seed? {
      AgedLonger(s.channel, Newest(s), Newest(PoolStep(s, a)));
      AgedLonger(s.overflow, Newest(s), Newest(PoolStep(s, a)));
    }
  }

  lemma WorkerOrder(s: Router, i: nat, a: WorkerAction)
    requires InOrder(s) && HandsBelow(s) && i < |s.workers| && WorkerCan(s, s.workers[i], a)
    ensures var t := WorkerEffect(s, s.workers[i], a).(workers := s.workers[i := WorkerAfter(s, s.workers[i], a)]);
      InOrder(t) && HandsBelow(t)
  {
    if a.Receive? {
      AgedRest(s.channel, Newest(s));
    } else if a.Pop? {
      AgedRest(s.overflow, Newest(s));
    }
  }

  lemma OrderStep(b: Bounds, s: Router, a: Action)
    requires InOrder(s) && HandsBelow(s) && Enabled(b, s, a)
    ensures InOrder(Act(b, s, a)) && HandsBelow(Act(b, s, a))
  {
    match a
    case Pools(p) => PoolOrder(s, p);
    case Looping(l) => LoopOrder(b, s, l); LoopHands(b, s, l);
    case Working(i, w) => WorkerOrder(s, i, w);
  }

  lemma {:induction false} EveryInterleavingKeepsOrder(b: Bounds, actions: seq<Action>)
    requires Execute(b, actions).Reached?
    ensures InOrder(Execute(b, actions).state) && HandsBelow(Execute(b, actions).state)
  {
    if actions != [] {
      var front := actions[..|actions| - 1];
      EveryInterleavingKeepsOrder(b, front);
      OrderStep(b, Execute(b, front).state, actions[|actions| - 1]);
    }
  }

  /** A worker that receives or pops gets the oldest request of the list, and the list loses just that one. */
  lemma OldestFirst(b: Bounds, actions: seq<Action>, i: nat, a: WorkerAction)
    requires Execute(b, actions).Reached? && Enabled(b, Execute(b, actions).state, Working(i, a)) && (a.Receive? || a.Pop?)
    ensures var s := Execute(b, actions).state;
      var t := Act(b, s, Working(i, a));
      var before, after := (if a.Receive? then s.channel else s.overflow), (if a.Receive? then t.channel else t.overflow);
      && t.workers[i].Submitting? && t.workers[i].req in before
      && (forall x :: x in before ==> t.workers[i].req <= x)
      && before == [t.workers[i].req] + after
  {
    var s := Execute(b, actions).state;
    EveryInterleavingKeepsOrder(b, actions);
    AgedRest(if a.Receive? then s.channel else s.overflow, Newest(s));
  }

  // ---------------------------------------------------------------- later stages

  /** Being fetched, between the pools, being processed, or processed and not yet routed. */
  predicate InPipeline(s: Router, r: nat) {
    r in s.pending || r in s.transit || r in s.processing || r in s.inbox
  }

  /** The action that ends a request: its fetch or processing fails, or the loop takes or skips its output. */
  predicate Ends(a: Action, r: nat) {
    || a == Pools(FetchFailed(r)) || a == Pools(ProcessFailed(r)) || a == Looping(SkipOutput(r))
    || (a.Looping? && a.step.TakeOutput? && a.step.r == r)
  }

  /** From `s` to `t` the request stays taken, leaves its stage only by ending, and only ends out of one. */
  ghost predicate OnlyEndingLeaves(s: Router, t: Router, ends: bool, r: nat) {
    && (r in s.accepted ==> r in t.accepted)
    && (r in t.accepted && !InPipeline(t, r) ==> ends || (r in s.accepted && !InPipeline(s, r)))
    && (ends ==> InPipeline(s, r))
  }

  lemma PoolLeaves(s: Router, a: PoolAction, r: nat)
    requires PoolCan(s, a)
    ensures OnlyEndingLeaves(s, PoolStep(s, a), Ends(Pools(a), r), r)
  {
  }

  lemma LoopLeaves(b: Bounds, s: Router, a: LoopAction, r: nat)
    requires LoopCan(b, s, a)
    ensures OnlyEndingLeaves(s, LoopStep(b, s, a), Ends(Looping(a), r), r)
  {
    LoopKeepsStages(b, s, a, r);
  }

  lemma WorkerLeaves(s: Router, i: nat, a: WorkerAction, r: nat)
    requires i < |s.workers| && WorkerCan(s, s.workers[i], a)
    ensures OnlyEndingLeaves(s, WorkerEffect(s, s.workers[i], a), false, r)
  {
  }

  lemma LeavesByEnding(b: Bounds, s: Router, a: Action, r: nat)
    requires Enabled(b, s, a)
    ensures OnlyEndingLeaves(s, Act(b, s, a), Ends(a, r), r)
  {
    match a
    case Pools(p) => PoolLeaves(s, p, r);
    case Looping(l) => LoopLeaves(b, s, l, r);
    case Working(i, w) => WorkerLeaves(s, i, w, r);
  }

  lemma LoopKeepsStages(b: Bounds, s: Router, a: LoopAction, r: nat)
    requires LoopCan(b, s, a)
    ensures var t := LoopStep(b, s, a);
      && t.accepted == (if a.TryTaken? then s.accepted + [s.loop.req] else s.accepted)
      && t.pending == (if a.TryTaken? then s.pending + {s.loop.req} else s.pending)
      && t.transit == s.transit && t.processing == s.processing
      && t.inbox == (if a.TakeOutput? || a.SkipOutput? then s.inbox - {a.r} else s.inbox)
  {
  }

  /** Every request the fetcher took is in a later stage until an action of the run has ended it. */
  lemma {:induction false} TakenUntilEnded(b: Bounds, actions: seq<Action>, r: nat)
    requires Execute(b, actions).Reached? && r in Execute(b, actions).state.accepted
    ensures InPipeline(Execute(b, actions).state, r) || exists k :: 0 <= k < |actions| && Ends(actions[k], r)
  {
    if actions != [] {
      var front, a := actions[..|actions| - 1], actions[|actions| - 1];
      LeavesByEnding(b, Execute(b, front).state, a, r);
      if !InPipeline(Execute(b, actions).state, r) && !Ends(a, r) {
        TakenUntilEnded(b, front, r);
        var k :| 0 <= k < |front| && Ends(front[k], r);
        assert Ends(actions[k], r);
      }
    }
  }

  /** The stages do not overlap, and hold only requests the fetcher took. */
  ghost predicate OneStage(s: Router) {
    && s.pending !! s.transit !! s.processing !! s.inbox
    && (forall r :: InPipeline(s, r) ==> r in s.accepted)
  }

  /** A request about to be taken has not been taken before. */
  lemma NotYetTaken(s: Router, r: nat)
    requires EachOnce(s) && Waiting(s, r) > 0
    ensures r !in s.accepted
  {
    assert Everywhere(s, r) <= 1;
  }

  lemma {:induction false} WorkerHolds(ws: seq<Worker>, i: nat)
    requires i < |ws| && ws[i].Submitting?
    ensures Held(ws, ws[i].req) > 0
  {
    if i > 0 {
      WorkerHolds(ws[1..], i - 1);
    }
  }

  lemma PoolStage(s: Router, a: PoolAction)
    requires OneStage(s) && EachOnce(s) && PoolCan(s, a)
    ensures OneStage(PoolStep(s, a))
  {
    if a.Seed? {
      assert Everywhere(s, s.next) == 0;
      assert s.next !in s.accepted;
    }
  }

  lemma LoopStage(b: Bounds, s: Router, a: LoopAction)
    requires OneStage(s) && EachOnce(s) && LoopCan(b, s, a)
    ensures OneStage(LoopStep(b, s, a))
  {
    LoopKeepsStages(b, s, a, 0);
    if a.TryTaken? {
      NotYetTaken(s, s.loop.req);
    }
  }

  lemma WorkerStage(s: Router, i: nat, a: WorkerAction)
    requires OneStage(s) && EachOnce(s) && i < |s.workers| && WorkerCan(s, s.workers[i], a)
    ensures OneStage(WorkerEffect(s, s.workers[i], a).(workers := s.workers[i := WorkerAfter(s, s.workers[i], a)]))
  {
    if a.SubmitTaken? {
      WorkerHolds(s.workers, i);
      NotYetTaken(s, s.workers[i].req);
    }
  }

  /** Under every interleaving each request the fetcher took is in at most one stage. */
  lemma {:induction false} EveryInterleavingKeepsStages(b: Bounds, actions: seq<Action>)
    requires Execute(b, actions).Reached?
    ensures OneStage(Execute(b, actions).state)
  {
    if actions != [] {
      var front, a := actions[..|actions| - 1], actions[|actions| - 1];
      var s := Execute(b, front).state;
      EveryInterleavingKeepsStages(b, front);
      EveryInterleavingKeepsInv(b, front);
      match a
      case Pools(p) => PoolStage(s, p);
      case Looping(l) => LoopStage(b, s, l);
      case Working(i, w) => WorkerStage(s, i, w);
    }
  }
}
