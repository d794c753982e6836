/** The requeue router (`internal/pipeline/router.go`): one routing loop, a pool of requeue workers,
    a bounded channel, an overflow list and an in-flight counter, interleaved in any order.
    Every action below is one atomic step of one goroutine. Requests are numbered in the order they
    enter the pipeline, so two requests are never confused even when they carry the same URL. */
module Router {

  /** Where the routing loop is. `left` counts the derived requests of the item still to be enqueued. */
  datatype Loop =
    | Ready                              // waiting for a processor output
    | InItem(left: nat)                  // routerInflight raised for the item
    | Offering(req: nat, left: nat)      // routerInflight raised for the request, before the select
    | Trying(req: nat, left: nat)        // channel full: non-blocking submit to the fetcher
    | Spilling(req: nat, left: nat)      // fetcher queue full: about to lock the overflow list
    | Settling(left: nat)                // request submitted or dropped, its counter still raised
    | Leaving                            // cancelled mid-item, the item's counter still raised
    | Stopped

  /** Where a requeue worker is. */
  datatype Worker =
    | Polling                            // first select: channel, or fall through
    | Popping                            // about to look at the overflow list
    | Blocked                            // second select: channel only
    | Submitting(req: nat)               // in SubmitWait
    | Releasing                          // submitted or failed, counter still raised
    | Gone

  datatype Router = Router(
    channel: seq<nat>,
    overflow: seq<nat>,
    loop: Loop,
    workers: seq<Worker>,
    inflight: int,
    next: nat,                           // requests numbered so far
    accepted: seq<nat>,                  // every request the fetcher pool took, in order
    dropped: seq<nat>,
    pending: set<nat>,                   // taken by the fetcher pool, neither completed nor failed
    transit: set<nat>,                   // fetched, on the way to the processor pool
    processing: set<nat>,                // pending in the processor pool
    inbox: set<nat>,                     // processed, not yet received by the routing loop
    saving: nat,                         // pending in the saver pool
    cancelled: bool,
    poolStopped: bool,
    outputsClosed: bool,                 // the processor pool has closed its results
    spilledOver: bool)                   // the overflow list was full when a request needed it

  datatype Bounds = Bounds(channelCap: nat, overflowCap: nat, workers: nat)

  function Initial(b: Bounds): Router {
    Router([], [], Ready, seq(b.workers, i => Polling), 0, 0, [], [], {}, {}, {}, {}, 0, false, false, false, false)
  }

  // ---------------------------------------------------------------- steps of the pools and the context

  datatype PoolAction =
    | Seed
    | Cancel
    | StopPool
    | CloseOutputs
    | FetchDone(r: nat)
    | FetchFailed(r: nat)
    | HandToProcessor(r: nat)
    | ProcessDone(r: nat)
    | ProcessFailed(r: nat)
    | Saved

  predicate PoolCan(s: Router, a: PoolAction) {
    match a
    case Seed => true
    case Cancel => true
    case StopPool => true
    case CloseOutputs => true
    case FetchDone(r) => r in s.pending
    case FetchFailed(r) => r in s.pending
    case HandToProcessor(r) => r in s.transit
    case ProcessDone(r) => r in s.processing
    case ProcessFailed(r) => r in s.processing
    case Saved => s.saving > 0
  }

  function PoolStep(s: Router, a: PoolAction): Router
    requires PoolCan(s, a)
  {
    match a
    case Seed => s.(next := s.next + 1, accepted := s.accepted + [s.next], pending := s.pending + {s.next})
    case Cancel => s.(cancelled := true)
    case StopPool => s.(poolStopped := true)
    case CloseOutputs => s.(outputsClosed := true)
    case FetchDone(r) => s.(pending := s.pending - {r}, transit := s.transit + {r})
    case FetchFailed(r) => s.(pending := s.pending - {r})
    case HandToProcessor(r) => s.(transit := s.transit - {r}, processing := s.processing + {r})
    case ProcessDone(r) => s.(processing := s.processing - {r}, inbox := s.inbox + {r})
    case ProcessFailed(r) => s.(processing := s.processing - {r})
    case Saved => s.(saving := s.saving - 1)
  }

  // ---------------------------------------------------------------- steps of the routing loop

  datatype LoopAction =
    | TakeOutput(r: nat, derived: nat)   // a good output with so many derived requests
    | SkipOutput(r: nat)                 // an error or nil output
    | SaveOne
    | LeaveItem                          // a saver submit failed and the context is cancelled
    | FinishLeaving
    | SkipNil                            // enqueueFetch(nil)
    | StartRequest
    | OfferSent
    | OfferFull
    | OfferCancelled
    | TryTaken
    | TryQueueFull                       // full, or any other error while the context is alive
    | TryFailed                          // another error and the context is cancelled
    | Spill
    | SpillDropped
    | Settle
    | FinishItem
    | StopLoop

  predicate LoopCan(b: Bounds, s: Router, a: LoopAction) {
    match a
    case TakeOutput(r, derived) => s.loop.Ready? && r in s.inbox
    case SkipOutput(r) => s.loop.Ready? && r in s.inbox
    case SaveOne => s.loop.InItem?
    case LeaveItem => s.loop.InItem? && s.cancelled
    case FinishLeaving => s.loop.Leaving?
    case SkipNil => s.loop.InItem? && s.loop.left > 0
    case StartRequest => s.loop.InItem? && s.loop.left > 0
    case OfferSent => s.loop.Offering? && |s.channel| < b.channelCap
    case OfferFull => s.loop.Offering? && |s.channel| >= b.channelCap && !s.cancelled
    case OfferCancelled => s.loop.Offering? && s.cancelled
    case TryTaken => s.loop.Trying?      // also after a stop that came between its test and the enqueue
    case TryQueueFull => s.loop.Trying?
    case TryFailed => s.loop.Trying? && s.cancelled
    case Spill => s.loop.Spilling? && |s.overflow| < b.overflowCap
    case SpillDropped => s.loop.Spilling? && |s.overflow| >= b.overflowCap
    case Settle => s.loop.Settling?
    case FinishItem => s.loop.InItem? && s.loop.left == 0
    case StopLoop => s.loop.Ready? && (s.cancelled || s.outputsClosed)
  }

  function LoopStep(b: Bounds, s: Router, a: LoopAction): Router
    requires LoopCan(b, s, a)
  {
    match a
    case TakeOutput(r, derived) => s.(inbox := s.inbox - {r}, loop := InItem(derived), inflight := s.inflight + 1)
    case SkipOutput(r) => s.(inbox := s.inbox - {r})
    case SaveOne => s.(saving := s.saving + 1)
    case LeaveItem => s.(loop := Leaving)
    case FinishLeaving => s.(loop := Stopped, inflight := s.inflight - 1)
    case SkipNil => s.(loop := InItem(s.loop.left - 1))
    case StartRequest => s.(loop := Offering(s.next, s.loop.left - 1), next := s.next + 1, inflight := s.inflight + 1)
    case OfferSent => s.(loop := InItem(s.loop.left), channel := s.channel + [s.loop.req])
    case OfferFull => s.(loop := Trying(s.loop.req, s.loop.left))
    case OfferCancelled => s.(loop := Settling(s.loop.left), dropped := s.dropped + [s.loop.req])
    case TryTaken =>
      s.(loop := Settling(s.loop.left), accepted := s.accepted + [s.loop.req], pending := s.pending + {s.loop.req})
    case TryQueueFull => s.(loop := Spilling(s.loop.req, s.loop.left))
    case TryFailed => s.(loop := Settling(s.loop.left), dropped := s.dropped + [s.loop.req])
    case Spill => s.(loop := InItem(s.loop.left), overflow := s.overflow + [s.loop.req])
    case SpillDropped =>
      s.(loop := Settling(s.loop.left), dropped := s.dropped + [s.loop.req], spilledOver := true)
    case Settle => s.(loop := InItem(s.loop.left), inflight := s.inflight - 1)
    case FinishItem => s.(loop := Ready, inflight := s.inflight - 1)
    case StopLoop => s.(loop := Stopped)
  }

  // ---------------------------------------------------------------- steps of a requeue worker

  datatype WorkerAction =
    | Receive
    | FallThrough
    | Pop
    | PopNothing
    | SubmitTaken
    | SubmitFailed
    | Release
    | Leave

  predicate WorkerCan(s: Router, w: Worker, a: WorkerAction) {
    match a
    case Receive => (w.Polling? || w.Blocked?) && s.channel != []
    case FallThrough => w.Polling? && s.channel == [] && !s.cancelled
    case Pop => w.Popping? && s.overflow != []
    case PopNothing => w.Popping? && s.overflow == []
    case SubmitTaken => w.Submitting?    // the same
    case SubmitFailed => w.Submitting? && (s.cancelled || s.poolStopped)
    case Release => w.Releasing?
    case Leave => (w.Polling? || w.Blocked?) && s.cancelled
  }

  function WorkerAfter(s: Router, w: Worker, a: WorkerAction): Worker
    requires WorkerCan(s, w, a)
  {
    match a
    case Receive => Submitting(s.channel[0])
    case FallThrough => Popping
    case Pop => Submitting(s.overflow[0])
    case PopNothing => Blocked
    case SubmitTaken => Releasing
    case SubmitFailed => Releasing
    case Release => Polling
    case Leave => Gone
  }

  /** What a worker's step does to everything but the worker. */
  function WorkerEffect(s: Router, w: Worker, a: WorkerAction): Router
    requires WorkerCan(s, w, a)
  {
    match a
    case Receive => s.(channel := s.channel[1..])
    case Pop => s.(overflow := s.overflow[1..])
    case SubmitTaken => s.(accepted := s.accepted + [w.req], pending := s.pending + {w.req})
    case SubmitFailed => s.(dropped := s.dropped + [w.req])
    case Release => s.(inflight := s.inflight - 1)
    case _ => s
  }

  // ---------------------------------------------------------------- interleavings

  datatype Action = Pools(pool: PoolAction) | Looping(step: LoopAction) | Working(i: nat, work: WorkerAction)

  predicate Enabled(b: Bounds, s: Router, a: Action) {
    match a
    case Pools(p) => PoolCan(s, p)
    case Looping(l) => LoopCan(b, s, l)
    case Working(i, w) => i < |s.workers| && WorkerCan(s, s.workers[i], w)
  }

  function Act(b: Bounds, s: Router, a: Action): Router
    requires Enabled(b, s, a)
  {
    match a
    case Pools(p) => PoolStep(s, p)
    case Looping(l) => LoopStep(b, s, l)
    case Working(i, w) =>
      WorkerEffect(s, s.workers[i], w).(workers := s.workers[i := WorkerAfter(s, s.workers[i], w)])
  }

  /** The state an interleaving leads to, if every one of its actions is possible when it comes. */
  datatype Outcome = Impossible | Reached(state: Router)

  function Execute(b: Bounds, actions: seq<Action>): Outcome {
    if actions == [] then Reached(Initial(b)) else
    var o, a := Execute(b, actions[..|actions| - 1]), actions[|actions| - 1];
    if o.Reached? && Enabled(b, o.state, a) then Reached(Act(b, o.state, a)) else Impossible
  }

  // ---------------------------------------------------------------- what is held where

  function Times(s: seq<nat>, r: nat): nat {
    multiset(s)[r]
  }

  function HeldBy(w: Worker, r: nat): nat {
    if w.Submitting? && w.req == r then 1 else 0
  }

  function Raised(w: Worker): nat {
    if w.Submitting? || w.Releasing? then 1 else 0
  }

  function Held(ws: seq<Worker>, r: nat): nat {
    if ws == [] then 0 else HeldBy(ws[0], r) + Held(ws[1..], r)
  }

  function AllRaised(ws: seq<Worker>): nat {
    if ws == [] then 0 else Raised(ws[0]) + AllRaised(ws[1..])
  }

  lemma {:induction false} ReplaceWorker(ws: seq<Worker>, i: nat, w: Worker, r: nat)
    requires i < |ws|
    ensures Held(ws[i := w], r) + HeldBy(ws[i], r) == Held(ws, r) + HeldBy(w, r)
    ensures AllRaised(ws[i := w]) + Raised(ws[i]) == AllRaised(ws) + Raised(w)
  {
    if i > 0 {
      ReplaceWorker(ws[1..], i - 1, w, r);
      assert ws[i := w][1..] == ws[1..][i - 1 := w];
    } else {
      assert ws[i := w][1..] == ws[1..];
    }
  }

  function HeldByLoop(l: Loop, r: nat): nat {
    if (l.Offering? || l.Trying? || l.Spilling?) && l.req == r then 1 else 0
  }

  /** Requests the routing loop has counted and not yet handed on or given up: 0 or 1. */
  function HandOf(l: Loop): nat {
    if l.Offering? || l.Trying? || l.Spilling? || l.Settling? then 1 else 0
  }

  function MidItem(l: Loop): nat {
    if l.Ready? || l.Stopped? then 0 else 1
  }

  /** How often a request waits: in the channel, the overflow list, a worker's or the loop's hand. */
  function Waiting(s: Router, r: nat): nat {
    Times(s.channel, r) + Times(s.overflow, r) + Held(s.workers, r) + HeldByLoop(s.loop, r)
  }

  /** How often a request is anywhere. */
  function Everywhere(s: Router, r: nat): nat {
    Waiting(s, r) + Times(s.accepted, r) + Times(s.dropped, r)
  }

  /** routerInflight is exactly the requests in the channel, the overflow list, the workers' hands
      and the loop's hand, plus one while the loop is inside an item. */
  ghost predicate CounterExact(s: Router) {
    s.inflight == |s.channel| + |s.overflow| + AllRaised(s.workers) + HandOf(s.loop) + MidItem(s.loop)
  }

  /** Conservation: every numbered request is in exactly one place, so none is lost, duplicated or
      submitted twice. */
  ghost predicate EachOnce(s: Router) {
    forall r: nat :: Everywhere(s, r) == if r < s.next then 1 else 0
  }

  ghost predicate Bounded(b: Bounds, s: Router) {
    && |s.channel| <= b.channelCap
    && |s.overflow| <= b.overflowCap
    && |s.workers| == b.workers
    && (s.dropped != [] ==> s.cancelled || s.poolStopped || s.spilledOver)
  }

  ghost predicate Inv(b: Bounds, s: Router) {
    CounterExact(s) && EachOnce(s) && Bounded(b, s)
  }

  // ---------------------------------------------------------------- what every step keeps

  lemma {:induction false} IdleWorkers(n: nat, r: nat)
    ensures Held(seq(n, i => Polling), r) == 0 && AllRaised(seq(n, i => Polling)) == 0
  {
    if n > 0 {
      IdleWorkers(n - 1, r);
      assert seq(n, i => Polling)[1..] == seq(n - 1, i => Polling);
    }
  }

  function EnteredBy(a: Action): nat {
    if a == Pools(Seed) || a == Looping(StartRequest) then 1 else 0
  }

  lemma PoolConserves(s: Router, a: PoolAction, r: nat)
    requires PoolCan(s, a)
    ensures Everywhere(PoolStep(s, a), r) == Everywhere(s, r) + (if a.Seed? && r == s.next then 1 else 0)
  {
  }

  lemma OneMore(q: seq<nat>, x: nat, r: nat)
    ensures Times(q + [x], r) == Times(q, r) + (if x == r then 1 else 0)
  {
  }

  predicate HandsOn(a: LoopAction) {
    a.OfferSent? || a.TryTaken? || a.Spill?
  }

  predicate GivesUp(a: LoopAction) {
    a.OfferCancelled? || a.TryFailed? || a.SpillDropped?
  }

  /** The loop's request goes to the channel, the fetcher or the overflow list. */
  lemma HandingOnConserves(b: Bounds, s: Router, a: LoopAction, r: nat)
    requires LoopCan(b, s, a) && HandsOn(a)
    ensures Everywhere(LoopStep(b, s, a), r) == Everywhere(s, r)
  {
    var q := s.loop.req;
    if a.OfferSent? {
      OneMore(s.channel, q, r);
      SameElsewhere(s, s.(loop := InItem(s.loop.left), channel := s.channel + [q]), r);
    } else if a.TryTaken? {
      OneMore(s.accepted, q, r);
      SameElsewhere(s, s.(loop := Settling(s.loop.left), accepted := s.accepted + [q], pending := s.pending + {q}), r);
    } else {
      OneMore(s.overflow, q, r);
      SameElsewhere(s, s.(loop := InItem(s.loop.left), overflow := s.overflow + [q]), r);
    }
  }

  /** Where the loop's hand empties into one of the lists, the total stays. */
  lemma SameElsewhere(s: Router, t: Router, r: nat)
    requires t.workers == s.workers
    requires Times(t.channel, r) + Times(t.overflow, r) + Times(t.accepted, r) + Times(t.dropped, r)
          == Times(s.channel, r) + Times(s.overflow, r) + Times(s.accepted, r) + Times(s.dropped, r) + HeldByLoop(s.loop, r)
    requires HeldByLoop(t.loop, r) == 0
    ensures Everywhere(t, r) == Everywhere(s, r)
  {
  }

  lemma GivingUpConserves(b: Bounds, s: Router, a: LoopAction, r: nat)
    requires LoopCan(b, s, a) && GivesUp(a)
    ensures Everywhere(LoopStep(b, s, a), r) == Everywhere(s, r)
  {
    var t := LoopStep(b, s, a);
    OneMore(s.dropped, s.loop.req, r);
    assert t.channel == s.channel && t.overflow == s.overflow && t.workers == s.workers && t.accepted == s.accepted;
  }

  /** Any other action moves no request, except that StartRequest brings one in. */
  lemma StayingConserves(b: Bounds, s: Router, a: LoopAction, r: nat)
    requires LoopCan(b, s, a) && !HandsOn(a) && !GivesUp(a)
    ensures Everywhere(LoopStep(b, s, a), r) == Everywhere(s, r) + (if a.StartRequest? && r == s.next then 1 else 0)
  {
    var t := LoopStep(b, s, a);
    assert t.channel == s.channel && t.overflow == s.overflow && t.workers == s.workers;
    assert t.accepted == s.accepted && t.dropped == s.dropped;
  }

  lemma LoopConserves(b: Bounds, s: Router, a: LoopAction, r: nat)
    requires LoopCan(b, s, a)
    ensures Everywhere(LoopStep(b, s, a), r) == Everywhere(s, r) + (if a.StartRequest? && r == s.next then 1 else 0)
  {
    if HandsOn(a) {
      HandingOnConserves(b, s, a, r);
    } else if GivesUp(a) {
      GivingUpConserves(b, s, a, r);
    } else {
      StayingConserves(b, s, a, r);
    }
  }

  lemma FirstTaken(q: seq<nat>, r: nat)
    requires q != []
    ensures Times(q, r) == Times(q[1..], r) + (if q[0] == r then 1 else 0)
  {
    assert q == [q[0]] + q[1..];
  }

  lemma WorkerConserves(s: Router, i: nat, a: WorkerAction, r: nat)
    requires i < |s.workers| && WorkerCan(s, s.workers[i], a)
    ensures var w, t := s.workers[i], WorkerEffect(s, s.workers[i], a);
      Everywhere(t.(workers := s.workers[i := WorkerAfter(s, w, a)]), r) == Everywhere(s, r)
  {
    ReplaceWorker(s.workers, i, WorkerAfter(s, s.workers[i], a), r);
    if a.Receive? {
      FirstTaken(s.channel, r);
    } else if a.Pop? {
      FirstTaken(s.overflow, r);
    }
  }

  lemma PoolCounter(s: Router, a: PoolAction)
    requires CounterExact(s) && PoolCan(s, a)
    ensures CounterExact(PoolStep(s, a))
  {
  }

  lemma LoopCounter(b: Bounds, s: Router, a: LoopAction)
    requires CounterExact(s) && LoopCan(b, s, a)
    ensures CounterExact(LoopStep(b, s, a))
  {
  }

  lemma WorkerCounter(s: Router, i: nat, a: WorkerAction)
    requires CounterExact(s) && i < |s.workers| && WorkerCan(s, s.workers[i], a)
    ensures CounterExact(WorkerEffect(s, s.workers[i], a).(workers := s.workers[i := WorkerAfter(s, s.workers[i], a)]))
  {
    ReplaceWorker(s.workers, i, WorkerAfter(s, s.workers[i], a), 0);
  }

  lemma CounterStep(b: Bounds, s: Router, a: Action)
    requires CounterExact(s) && Enabled(b, s, a)
    ensures CounterExact(Act(b, s, a))
  {
    match a
    case Pools(p) => PoolCounter(s, p);
    case Looping(l) => LoopCounter(b, s, l);
    case Working(i, w) => WorkerCounter(s, i, w);
  }

  lemma LoopNumbers(b: Bounds, s: Router, a: LoopAction)
    requires LoopCan(b, s, a)
    ensures LoopStep(b, s, a).next == s.next + (if a.StartRequest? then 1 else 0)
  {
  }

  lemma WorkerNumbers(s: Router, w: Worker, a: WorkerAction)
    requires WorkerCan(s, w, a)
    ensures WorkerEffect(s, w, a).next == s.next
  {
  }

  lemma NextNumber(b: Bounds, s: Router, a: Action)
    requires Enabled(b, s, a)
    ensures Act(b, s, a).next == s.next + EnteredBy(a)
  {
    match a
    case Pools(p) => assert p.Seed? <==> p == Seed;
    case Looping(l) => LoopNumbers(b, s, l);
    case Working(i, w) => WorkerNumbers(s, s.workers[i], w);
  }

  lemma StepConserves(b: Bounds, s: Router, a: Action, r: nat)
    requires Enabled(b, s, a)
    ensures Everywhere(Act(b, s, a), r) == Everywhere(s, r) + (if r == s.next then EnteredBy(a) else 0)
  {
    match a
    case Pools(p) => PoolConserves(s, p, r);
    case Looping(l) => LoopConserves(b, s, l, r);
    case Working(i, w) => WorkerConserves(s, i, w, r);
  }

  lemma EachOnceStep(b: Bounds, s: Router, a: Action)
    requires EachOnce(s) && Enabled(b, s, a)
    ensures EachOnce(Act(b, s, a))
  {
    NextNumber(b, s, a);
    forall r: nat ensures Everywhere(Act(b, s, a), r) == if r < Act(b, s, a).next then 1 else 0 {
      assert Everywhere(s, r) == if r < s.next then 1 else 0;
      StepConserves(b, s, a, r);
    }
  }

  lemma PoolBounded(b: Bounds, s: Router, a: PoolAction)
    requires Bounded(b, s) && PoolCan(s, a)
    ensures Bounded(b, PoolStep(s, a))
  {
  }

  lemma HandingOnBounded(b: Bounds, s: Router, a: LoopAction)
    requires Bounded(b, s) && LoopCan(b, s, a) && HandsOn(a)
    ensures Bounded(b, LoopStep(b, s, a))
  {
    assert LoopStep(b, s, a).dropped == s.dropped;
  }

  lemma KeepsBuffers(b: Bounds, s: Router, a: LoopAction)
    requires LoopCan(b, s, a) && !HandsOn(a)
    ensures var t := LoopStep(b, s, a);
      t.channel == s.channel && t.overflow == s.overflow && t.workers == s.workers
  {
  }

  lemma KeepsReasons(b: Bounds, s: Router, a: LoopAction)
    requires LoopCan(b, s, a) && !HandsOn(a)
    ensures var t := LoopStep(b, s, a);
      && t.cancelled == s.cancelled && t.poolStopped == s.poolStopped && (s.spilledOver ==> t.spilledOver)
      && (t.dropped != s.dropped ==> s.cancelled || t.spilledOver)
  {
  }

  lemma KeepingBounded(b: Bounds, s: Router, a: LoopAction)
    requires Bounded(b, s) && LoopCan(b, s, a) && !HandsOn(a)
    ensures Bounded(b, LoopStep(b, s, a))
  {
    KeepsBuffers(b, s, a);
    KeepsReasons(b, s, a);
  }

  lemma LoopBounded(b: Bounds, s: Router, a: LoopAction)
    requires Bounded(b, s) && LoopCan(b, s, a)
    ensures Bounded(b, LoopStep(b, s, a))
  {
    if HandsOn(a) {
      HandingOnBounded(b, s, a);
    } else {
      KeepingBounded(b, s, a);
    }
  }

  lemma WorkerBounded(b: Bounds, s: Router, i: nat, a: WorkerAction)
    requires Bounded(b, s) && i < |s.workers| && WorkerCan(s, s.workers[i], a)
    ensures Bounded(b, WorkerEffect(s, s.workers[i], a).(workers := s.workers[i := WorkerAfter(s, s.workers[i], a)]))
  {
  }

  lemma BoundedStep(b: Bounds, s: Router, a: Action)
    requires Bounded(b, s) && Enabled(b, s, a)
    ensures Bounded(b, Act(b, s, a))
  {
    match a
    case Pools(p) => PoolBounded(b, s, p);
    case Looping(l) => LoopBounded(b, s, l);
    case Working(i, w) => WorkerBounded(b, s, i, w);
  }

  /** Under every interleaving the counter is exact, every request is in exactly one place, the two
      buffers respect their capacities, and nothing is dropped without a reason. */
  lemma {:induction false} EveryInterleavingKeepsInv(b: Bounds, actions: seq<Action>)
    requires Execute(b, actions).Reached?
    ensures Inv(b, Execute(b, actions).state)
  {
    if actions == [] {
      forall r: nat ensures Everywhere(Initial(b), r) == 0 {
        IdleWorkers(b.workers, r);
      }
      IdleWorkers(b.workers, 0);
    } else {
      var front, a := actions[..|actions| - 1], actions[|actions| - 1];
      EveryInterleavingKeepsInv(b, front);
      CounterStep(b, Execute(b, front).state, a);
      EachOnceStep(b, Execute(b, front).state, a);
      BoundedStep(b, Execute(b, front).state, a);
    }
  }

  // ---------------------------------------------------------------- consequences

  /** Each request is taken by the fetcher at most once, and one that was taken waits nowhere. */
  lemma SubmittedAtMostOnce(b: Bounds, actions: seq<Action>, r: nat)
    requires Execute(b, actions).Reached?
    ensures var s := Execute(b, actions).state;
      Times(s.accepted, r) <= 1 && (r in s.accepted ==> Waiting(s, r) == 0 && r !in s.dropped)
  {
    var s := Execute(b, actions).state;
    EveryInterleavingKeepsInv(b, actions);
    assert Everywhere(s, r) <= 1;
    assert r in s.accepted <==> Times(s.accepted, r) > 0;
    assert r in s.dropped <==> Times(s.dropped, r) > 0;
  }

  /** Unless the context is cancelled, the fetcher stops or the overflow list fills up, every request
      that entered has been taken by the fetcher or still waits, counted. */
  lemma NothingLost(b: Bounds, actions: seq<Action>, r: nat)
    requires Execute(b, actions).Reached? && r < Execute(b, actions).state.next
    requires var s := Execute(b, actions).state; !s.cancelled && !s.poolStopped && !s.spilledOver
    ensures var s := Execute(b, actions).state; r in s.accepted || Waiting(s, r) == 1
  {
    var s := Execute(b, actions).state;
    EveryInterleavingKeepsInv(b, actions);
    assert Everywhere(s, r) == 1;
  }

  /** isIdle, read atomically. */
  predicate IsIdle(s: Router) {
    s.inflight == 0 && |s.pending| == 0 && |s.processing| == 0 && s.saving == 0
  }

  lemma {:induction false} HeldMeansRaised(ws: seq<Worker>, r: nat)
    ensures Held(ws, r) <= AllRaised(ws)
  {
    if ws != [] {
      HeldMeansRaised(ws[1..], r);
    }
  }

  /** While any request waits to be submitted or is being fetched, isIdle is false. */
  lemma NeverIdleWhileOutstanding(b: Bounds, actions: seq<Action>, r: nat)
    requires Execute(b, actions).Reached?
    requires Waiting(Execute(b, actions).state, r) > 0 || r in Execute(b, actions).state.pending
    ensures !IsIdle(Execute(b, actions).state)
  {
    EveryInterleavingKeepsInv(b, actions);
    HeldMeansRaised(Execute(b, actions).state.workers, r);
  }

  /** Exactly what an idle reading means: no request waits, is being fetched, processed or saved, and
      the loop is outside an item. It says nothing about results between two pools, which no
      counter covers. */
  lemma IdleExactly(b: Bounds, actions: seq<Action>)
    requires Execute(b, actions).Reached?
    ensures var s := Execute(b, actions).state;
      IsIdle(s) <==>
        && s.channel == [] && s.overflow == [] && AllRaised(s.workers) == 0
        && (s.loop.Ready? || s.loop.Stopped?)
        && s.pending == {} && s.processing == {} && s.saving == 0
  {
    EveryInterleavingKeepsInv(b, actions);
  }

  /** The gap is real: a result that left the fetcher but has not reached the processor pool is
      outstanding work, and isIdle is true. */
  lemma IdleWithResultInTransit(b: Bounds)
    ensures Execute(b, [Pools(Seed), Pools(FetchDone(0))]).Reached?
    ensures IsIdle(Execute(b, [Pools(Seed), Pools(FetchDone(0))]).state)
    ensures Execute(b, [Pools(Seed), Pools(FetchDone(0))]).state.transit == {0}
  {
    var run := [Pools(Seed), Pools(FetchDone(0))];
    assert run[..1] == [Pools(Seed)];
    assert Execute(b, []) == Reached(Initial(b));
    assert Execute(b, [Pools(Seed)]).Reached? && Execute(b, [Pools(Seed)]).state.pending == {0};
    assert Execute(b, run).state.pending == {};
  }
}
