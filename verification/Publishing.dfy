/** The publisher: a bounded queue that drops its oldest request, a router that hands requests to at most
    `concurrency` workers, and the close protocol, as the atomic steps of all goroutines interleaved. */
module Publishing {
  import opened Common

  /** A request, told apart from equal ones by when it was enqueued. */
  datatype Request<T> = Request(id: nat, payload: T)

  /** The queue's list after one more value: the front is dropped when the queue is full. */
  function Enqueued<T>(queue: seq<T>, maxSize: nat, x: T): (r: seq<T>)
    requires 0 < maxSize && |queue| <= maxSize
    ensures |r| <= maxSize
  {
    (if |queue| == maxSize then queue[1..] else queue) + [x]
  }

  class NonBlockingFifoQueue<T> {
    var queue: seq<T>
    const maxSize: nat

    ghost predicate Valid()
      reads this
    {
      0 < maxSize && |queue| <= maxSize
    }

    constructor (size: nat)
      requires size > 0
      ensures Valid() && queue == [] && maxSize == size
    {
      queue, maxSize := [], size;
    }

    method Enqueue(value: T)
      requires Valid()
      modifies this
      ensures Valid() && queue == Enqueued(old(queue), maxSize, value)
    {
      if |queue| == maxSize {
        queue := queue[1..];
      }
      queue := queue + [value];
    }

    method Dequeue() returns (value: Option<T>)
      requires Valid()
      modifies this
      ensures Valid()
      ensures match value
              case Some(x) => [x] + queue == old(queue)
              case None => queue == old(queue) == []
    {
      if |queue| == 0 {
        return None;
      }
      value, queue := Some(queue[0]), queue[1..];
    }
  }

  datatype Params = Params(maxSize: nat, concurrency: nat)

  datatype Router<T> =
    | Polling                     // about to dequeue
    | Holding(req: Request<T>)    // waiting for the semaphore
    | Checking                    // found the queue empty, about to look at the closed flag
    | Exited

  datatype Closer =
    | NotCalled
    | FlagSet                     // waiting for the router
    | Waited(drainTimeout: bool)  // waiting for all permits
    | Closed(drainTimeout: bool, acquireTimeout: bool)

  datatype State<T> = State(
    history: seq<Request<T>>,     // everything ever enqueued
    queue: seq<Request<T>>,
    dropped: set<nat>,
    router: Router<T>,
    dispatched: seq<Request<T>>,  // handed to workers, in order
    running: set<nat>,            // inside the publish function
    releasing: nat,               // workers that have published but still hold their permit
    used: nat,                    // permits taken
    closed: bool,
    closer: Closer,
    emptyAt: nat)                 // length of the history at the router's last empty dequeue

  datatype Step<T> =
    | Publish(payload: T)
    | RouterDequeue
    | RouterAcquire
    | RouterCheck
    | WorkerDone(id: nat)
    | WorkerRelease
    | CloseFlag
    | CloseDrained
    | CloseDrainTimeout
    | CloseAcquire
    | CloseAcquireTimeout

  function Start<T>(): State<T> {
    State([], [], {}, Polling, [], {}, 0, 0, false, NotCalled, 0)
  }

  predicate Enabled<T>(p: Params, s: State<T>, step: Step<T>) {
    match step
    case Publish(_) => |s.queue| <= p.maxSize
    case RouterDequeue => s.router.Polling?
    case RouterAcquire => s.router.Holding? && s.used + 1 <= p.concurrency
    case RouterCheck => s.router.Checking?
    case WorkerDone(id) => id in s.running
    case WorkerRelease => s.releasing > 0 && s.used > 0
    case CloseFlag => s.closer.NotCalled?
    case CloseDrained => s.closer.FlagSet? && s.router.Exited?
    case CloseDrainTimeout => s.closer.FlagSet?
    case CloseAcquire => s.closer.Waited? && s.used + p.concurrency <= p.concurrency
    case CloseAcquireTimeout => s.closer.Waited?
  }

  function Apply<T>(p: Params, s: State<T>, step: Step<T>): State<T>
    requires p.maxSize > 0 && Enabled(p, s, step)
  {
    match step
    case Publish(payload) =>
      var r := Request(|s.history|, payload);
      s.(history := s.history + [r],
         queue := Enqueued(s.queue, p.maxSize, r),
         dropped := if |s.queue| == p.maxSize then s.dropped + {s.queue[0].id} else s.dropped)
    case RouterDequeue =>
      if s.queue == [] then s.(router := Checking, emptyAt := |s.history|)
      else s.(router := Holding(s.queue[0]), queue := s.queue[1..])
    case RouterAcquire =>
      s.(router := Polling, dispatched := s.dispatched + [s.router.req],
         running := s.running + {s.router.req.id}, used := s.used + 1)
    case RouterCheck =>
      s.(router := if s.closed then Exited else Polling)
    case WorkerDone(id) =>
      s.(running := s.running - {id}, releasing := s.releasing + 1)
    case WorkerRelease =>
      s.(releasing := s.releasing - 1, used := s.used - 1)
    case CloseFlag => s.(closed := true, closer := FlagSet)
    case CloseDrained => s.(closer := Waited(false))
    case CloseDrainTimeout => s.(closer := Waited(true))
    case CloseAcquire => s.(closer := Closed(s.closer.drainTimeout, false), used := s.used + p.concurrency)
    case CloseAcquireTimeout => s.(closer := Closed(s.closer.drainTimeout, true))
  }

  /** Some schedule of the goroutines leads from s to t. */
  ghost predicate Reaches<T>(p: Params, s: State<T>, steps: seq<Step<T>>, t: State<T>)
    requires p.maxSize > 0
    decreases |steps|
  {
    if steps == [] then s == t
    else Enabled(p, s, steps[0]) && Reaches(p, Apply(p, s, steps[0]), steps[1..], t)
  }

  ghost function Ids<T>(rs: seq<Request<T>>): set<nat> {
    set r <- rs :: r.id
  }

  /** The id of the oldest queued request; everything older has left the queue. */
  ghost function Lo<T>(s: State<T>): int {
    |s.history| - |s.queue|
  }

  ghost predicate Held<T>(s: State<T>, id: nat) {
    s.router.Holding? && s.router.req.id == id
  }

  ghost predicate QueueInv<T>(p: Params, s: State<T>) {
    && (forall i :: 0 <= i < |s.history| ==> s.history[i].id == i)
    && |s.queue| <= p.maxSize && 0 <= Lo(s)
    && s.queue == s.history[Lo(s)..]
    && s.emptyAt <= Lo(s)
  }

  /** The request that the router holds has left the queue unchanged. */
  ghost predicate HeldOk<T>(s: State<T>) {
    s.router.Holding? ==> s.router.req.id < Lo(s) <= |s.history| && s.router.req == s.history[s.router.req.id]
  }

  /** So have those that were handed out, before the one that is held. */
  ghost predicate HandedOk<T>(s: State<T>) {
    forall i :: 0 <= i < |s.dispatched| ==>
      && s.dispatched[i].id < (if s.router.Holding? then s.router.req.id else Lo(s)) <= |s.history|
      && s.dispatched[i] == s.history[s.dispatched[i].id]
  }

  ghost predicate InOrder<T>(s: State<T>) {
    forall i, j :: 0 <= i < j < |s.dispatched| ==> s.dispatched[i].id < s.dispatched[j].id
  }

  /** Out of the queue, but neither handed out nor held. */
  ghost predicate Lost<T>(s: State<T>, id: nat) {
    id < Lo(s) && id !in Ids(s.dispatched) && !Held(s, id)
  }

  ghost predicate Accounts<T>(s: State<T>) {
    forall id: nat :: id in s.dropped <==> Lost(s, id)
  }

  ghost predicate DispatchInv<T>(s: State<T>) {
    HeldOk(s) && HandedOk(s) && InOrder(s) && Accounts(s)
  }

  /** Every permit that is taken is that of a worker, or they are all taken by Close. */
  ghost predicate Permits<T>(p: Params, s: State<T>) {
    && s.running <= Ids(s.dispatched)
    && s.used == |s.running| + s.releasing + (if s.closer.Closed? && !s.closer.acquireTimeout then p.concurrency else 0)
    && s.used <= p.concurrency
  }

  /** How far Close and the router are. */
  ghost predicate Closing<T>(s: State<T>) {
    && (s.closer != NotCalled ==> s.closed)
    && (s.router.Exited? ==> s.closed)
    && ((s.closer.Waited? || s.closer.Closed?) && !s.closer.drainTimeout ==> s.router.Exited?)
  }

  ghost predicate PermitInv<T>(p: Params, s: State<T>) {
    Permits(p, s) && Closing(s)
  }

  ghost predicate Inv<T>(p: Params, s: State<T>) {
    QueueInv(p, s) && DispatchInv(s) && PermitInv(p, s)
  }

  lemma QueuePublish<T>(p: Params, s: State<T>, x: T)
    requires p.maxSize > 0 && Enabled(p, s, Publish(x)) && QueueInv(p, s)
    ensures QueueInv(p, Apply(p, s, Publish(x)))
  {
    var t := Apply(p, s, Publish(x));
    var r := Request(|s.history|, x);
    assert s.history[Lo(s)..] + [r] == t.history[Lo(s)..];
    assert |s.queue| == p.maxSize ==> t.queue == t.history[Lo(s) + 1..];
  }

  lemma QueueStep<T>(p: Params, s: State<T>, step: Step<T>)
    requires p.maxSize > 0 && Enabled(p, s, step) && QueueInv(p, s)
    ensures QueueInv(p, Apply(p, s, step))
  {
    if step.Publish? {
      QueuePublish(p, s, step.payload);
    } else if step.RouterDequeue? && s.queue != [] {
      assert s.queue[1..] == s.history[Lo(s) + 1..];
    }
  }

  /** Nothing that is queued was handed out or is held. */
  lemma NoneFrom<T>(s: State<T>, id: nat)
    requires HeldOk(s) && HandedOk(s) && id >= Lo(s)
    ensures id !in Ids(s.dispatched) && !Held(s, id)
  {
    forall r <- s.dispatched ensures r.id < Lo(s) {
      var i :| 0 <= i < |s.dispatched| && s.dispatched[i] == r;
    }
  }

  /** Everybody keeps what they had. */
  lemma AccountsKept<T>(s: State<T>, t: State<T>)
    requires Accounts(s) && t.dropped == s.dropped && t.dispatched == s.dispatched && Lo(t) == Lo(s)
    requires forall id: nat :: Held(t, id) <==> Held(s, id)
    ensures Accounts(t)
  {
    hide Ids, Held, Lo;
    forall id: nat ensures id in t.dropped <==> Lost(t, id) {
      assert id in s.dropped <==> Lost(s, id);
    }
  }

  /** The oldest request leaves the queue: it is dropped, or held by a router that held nothing. */
  lemma AccountsMoved<T>(s: State<T>, t: State<T>, n: nat)
    requires Accounts(s) && HeldOk(s) && HandedOk(s) && t.dispatched == s.dispatched && n == Lo(s) && Lo(t) == n + 1
    requires || (t.dropped == s.dropped + {n} && t.router == s.router)
             || (t.dropped == s.dropped && !s.router.Holding? && t.router.Holding? && t.router.req.id == n)
    ensures Accounts(t)
  {
    NoneFrom(s, n);
    hide Ids, HeldOk, HandedOk;
    forall id: nat ensures id in t.dropped <==> Lost(t, id) {
      assert id in s.dropped <==> Lost(s, id);
    }
  }

  lemma DispatchPublish<T>(p: Params, s: State<T>, x: T)
    requires p.maxSize > 0 && Enabled(p, s, Publish(x)) && QueueInv(p, s) && DispatchInv(s)
    ensures DispatchInv(Apply(p, s, Publish(x)))
  {
    var t := Apply(p, s, Publish(x));
    assert t.dispatched == s.dispatched && t.router == s.router;
    assert t.history == s.history + [Request(|s.history|, x)];
    if |s.queue| == p.maxSize {
      assert s.queue[0] == s.history[Lo(s)] && Lo(t) == Lo(s) + 1;
      AccountsMoved(s, t, Lo(s));
    } else {
      assert Lo(t) == Lo(s);
      AccountsKept(s, t);
    }
    hide Accounts;
  }

  lemma DispatchDequeue<T>(p: Params, s: State<T>)
    requires p.maxSize > 0 && Enabled(p, s, RouterDequeue) && QueueInv(p, s) && DispatchInv(s)
    ensures DispatchInv(Apply(p, s, RouterDequeue))
  {
    var t := Apply(p, s, RouterDequeue);
    assert t.dispatched == s.dispatched && t.history == s.history && t.dropped == s.dropped;
    if s.queue != [] {
      assert s.queue[0] == s.history[Lo(s)] && Lo(t) == Lo(s) + 1;
      AccountsMoved(s, t, Lo(s));
    } else {
      AccountsKept(s, t);
    }
    hide Accounts;
  }

  lemma DispatchAcquire<T>(p: Params, s: State<T>)
    requires p.maxSize > 0 && Enabled(p, s, RouterAcquire) && DispatchInv(s)
    ensures DispatchInv(Apply(p, s, RouterAcquire))
  {
    var t := Apply(p, s, RouterAcquire);
    IdsNext(s.dispatched, s.router.req);
    assert Lo(t) == Lo(s) && t.dropped == s.dropped;
    assert Accounts(t) by {
      forall id: nat ensures id in t.dropped <==> Lost(t, id) {
        assert id in s.dropped <==> Lost(s, id);
      }
    }
    hide Accounts;
  }

  lemma DispatchStep<T>(p: Params, s: State<T>, step: Step<T>)
    requires p.maxSize > 0 && Enabled(p, s, step) && QueueInv(p, s) && DispatchInv(s)
    ensures DispatchInv(Apply(p, s, step))
  {
    if step.Publish? {
      DispatchPublish(p, s, step.payload);
    } else if step.RouterDequeue? {
      DispatchDequeue(p, s);
    } else if step.RouterAcquire? {
      DispatchAcquire(p, s);
    } else {
      var t := Apply(p, s, step);
      assert t.dispatched == s.dispatched && t.history == s.history && t.queue == s.queue && t.dropped == s.dropped;
      assert t.router.Holding? <==> s.router.Holding?;
      AccountsKept(s, t);
      hide Accounts;
    }
  }

  lemma PermitStep<T>(p: Params, s: State<T>, step: Step<T>)
    requires p.maxSize > 0 && Enabled(p, s, step) && DispatchInv(s) && PermitInv(p, s)
    ensures PermitInv(p, Apply(p, s, step))
  {
    hide DispatchInv, Permits, Closing, Apply;
    PermitsStep(p, s, step);
    ClosingStep(p, s, step);
  }

  lemma ClosingStep<T>(p: Params, s: State<T>, step: Step<T>)
    requires p.maxSize > 0 && Enabled(p, s, step) && Closing(s)
    ensures Closing(Apply(p, s, step))
  {}

  lemma PermitsStep<T>(p: Params, s: State<T>, step: Step<T>)
    requires p.maxSize > 0 && Enabled(p, s, step) && DispatchInv(s) && Permits(p, s)
    ensures Permits(p, Apply(p, s, step))
  {
    hide DispatchInv;
    if step.RouterAcquire? {
      PermitAcquire(p, s);
    } else {
      hide Ids;
      assert Apply(p, s, step).dispatched == s.dispatched;
    }
  }

  lemma PermitAcquire<T>(p: Params, s: State<T>)
    requires p.maxSize > 0 && Enabled(p, s, RouterAcquire) && DispatchInv(s) && Permits(p, s)
    ensures Permits(p, Apply(p, s, RouterAcquire))
  {
    var t, r := Apply(p, s, RouterAcquire), s.router.req;
    assert t.running == s.running + {r.id} && t.dispatched == s.dispatched + [r];
    assert t.used == s.used + 1 && t.releasing == s.releasing && t.closer == s.closer;
    HeldNotDispatched(s);
    OneMoreRunning(s.dispatched, r, s.running);
    hide Apply, DispatchInv, Ids;
  }

  lemma OneMoreRunning<T>(rs: seq<Request<T>>, r: Request<T>, running: set<nat>)
    requires running <= Ids(rs) && r.id !in Ids(rs)
    ensures running + {r.id} <= Ids(rs + [r]) && |running + {r.id}| == |running| + 1
  {
    IdsNext(rs, r);
  }

  lemma HeldNotDispatched<T>(s: State<T>)
    requires DispatchInv(s) && s.router.Holding?
    ensures s.router.req.id !in Ids(s.dispatched)
  {}

  lemma IdsNext<T>(rs: seq<Request<T>>, r: Request<T>)
    ensures Ids(rs + [r]) == Ids(rs) + {r.id}
  {}

  /** The invariant holds in every state of every run. */
  lemma {:induction false} InvReaches<T>(p: Params, s: State<T>, steps: seq<Step<T>>, t: State<T>)
    requires p.maxSize > 0 && Inv(p, s) && Reaches(p, s, steps, t)
    ensures Inv(p, t)
    decreases |steps|
  {
    if steps != [] {
      QueueStep(p, s, steps[0]);
      DispatchStep(p, s, steps[0]);
      PermitStep(p, s, steps[0]);
      InvReaches(p, Apply(p, s, steps[0]), steps[1..], t);
    }
  }

  // ----- what this means -----

  function One(b: bool): nat {
    if b then 1 else 0
  }

  /** In how many places a request is. */
  ghost function Places<T>(s: State<T>, id: nat): nat {
    One(id in s.dropped) + One(id in Ids(s.queue)) + One(Held(s, id)) + One(id in Ids(s.dispatched))
  }

  /** Every request ever published is in exactly one place: dropped, queued, held by the router or handed to a worker;
      the queue is the tail of what was published; requests are handed out in the order in which they were published,
      each once and unchanged; and no more than `concurrency` workers publish at a time. */
  lemma EveryRun<T>(p: Params, steps: seq<Step<T>>, s: State<T>)
    requires p.maxSize > 0 && Reaches(p, Start(), steps, s)
    ensures forall id: nat :: id < |s.history| ==> Places(s, id) == 1
    ensures |s.queue| <= p.maxSize && |s.queue| <= |s.history| && s.queue == s.history[|s.history| - |s.queue|..]
    ensures forall i, j :: 0 <= i < j < |s.dispatched| ==> s.dispatched[i].id < s.dispatched[j].id
    ensures forall r <- s.dispatched :: r.id < |s.history| && s.history[r.id] == r
    ensures |s.running| <= p.concurrency && s.running <= Ids(s.dispatched)
  {
    hide Reaches;
    InvStart<T>(p);
    InvReaches(p, Start(), steps, s);
    forall id: nat | id < |s.history| ensures Places(s, id) == 1 {
      OnePlace(p, s, id);
    }
    hide Accounts;
  }

  lemma OnePlace<T>(p: Params, s: State<T>, id: nat)
    requires QueueInv(p, s) && DispatchInv(s) && id < |s.history|
    ensures Places(s, id) == 1
  {
    assert id in Ids(s.queue) <==> id >= Lo(s) by {
      if id >= Lo(s) {
        assert s.queue[id - Lo(s)] == s.history[id];
        assert s.queue[id - Lo(s)] in s.queue;
      }
    }
    if id >= Lo(s) { NoneFrom(s, id); }
    assert id in s.dropped <==> Lost(s, id);
    if Held(s, id) { HeldNotDispatched(s); }
  }

  ghost predicate ClosedCleanly<T>(s: State<T>) {
    s.closer == Closed(false, false)
  }

  /** When Close returns without either timeout, no worker is publishing, nothing that was published before the router
      last found the queue empty is still waiting, and what is left was published after that. */
  lemma CleanClose<T>(p: Params, steps: seq<Step<T>>, s: State<T>)
    requires p.maxSize > 0 && Reaches(p, Start(), steps, s) && ClosedCleanly(s)
    ensures s.running == {} && s.router.Exited?
    ensures forall r <- s.queue :: r.id >= s.emptyAt
    ensures forall id: nat :: id < s.emptyAt <= |s.history| ==> id in s.dropped || id in Ids(s.dispatched)
  {
    hide Reaches, Inv;
    InvStart<T>(p);
    InvReaches(p, Start(), steps, s);
    ClosedFacts(p, s);
    LeftAfterEmpty(p, s);
  }

  lemma ClosedFacts<T>(p: Params, s: State<T>)
    requires Inv(p, s) && ClosedCleanly(s)
    ensures s.running == {} && s.router.Exited?
  {
    hide QueueInv, DispatchInv;
  }

  lemma LeftAfterEmpty<T>(p: Params, s: State<T>)
    requires Inv(p, s) && s.router.Exited?
    ensures forall r <- s.queue :: r.id >= s.emptyAt
    ensures forall id: nat :: id < s.emptyAt <= |s.history| ==> id in s.dropped || id in Ids(s.dispatched)
  {
    hide PermitInv, HeldOk, HandedOk, InOrder, Ids;
    forall r <- s.queue ensures r.id >= s.emptyAt {
      var i :| 0 <= i < |s.queue| && s.queue[i] == r;
      assert r == s.history[Lo(s) + i];
    }
    forall id: nat | id < s.emptyAt <= |s.history| ensures id in s.dropped || id in Ids(s.dispatched) {
      assert id in s.dropped <==> Lost(s, id);
    }
  }

  lemma InvStart<T>(p: Params)
    ensures Inv(p, Start<T>())
  {}

  /** After such a Close nothing is ever handed to a worker again, whatever else the goroutines do. */
  lemma {:induction false} NoPublishAfterClose<T>(p: Params, s: State<T>, steps: seq<Step<T>>, t: State<T>)
    requires p.maxSize > 0 && Inv(p, s) && ClosedCleanly(s) && Reaches(p, s, steps, t)
    ensures t.dispatched == s.dispatched && t.running == {} && ClosedCleanly(t)
    decreases |steps|
  {
    if steps != [] {
      var next := Apply(p, s, steps[0]);
      InvReaches(p, s, [steps[0]], next);
      NoPublishAfterClose(p, next, steps[1..], t);
    }
  }

  // ----- Close completes -----

  /** The steps of the router, the workers and Close itself, leaving out timeouts and further calls. */
  predicate Draining<T>(step: Step<T>) {
    match step
    case Publish(_) => false
    case CloseFlag => false
    case CloseDrainTimeout => false
    case CloseAcquireTimeout => false
    case _ => true
  }

  /** Close was called and has not timed out. */
  predicate UnderWay<T>(s: State<T>) {
    s.closer == FlagSet || s.closer == Waited(false) || s.closer == Closed(false, false)
  }

  function RouterWork<T>(r: Router<T>): nat {
    match r
    case Holding(_) => 7
    case Polling => 2
    case Checking => 1
    case Exited => 0
  }

  function CloserWork(c: Closer): nat {
    if c.FlagSet? then 2 else if c.Waited? then 1 else 0
  }

  /** An upper bound on the steps that are left. */
  function Work<T>(s: State<T>): nat {
    8 * |s.queue| + RouterWork(s.router) + 2 * |s.running| + s.releasing + CloserWork(s.closer)
  }

  lemma DrainStep<T>(p: Params, s: State<T>, step: Step<T>)
    requires p.maxSize > 0 && Enabled(p, s, step) && Draining(step) && Inv(p, s) && UnderWay(s)
    ensures var t := Apply(p, s, step); UnderWay(t) && Work(t) < Work(s) && t.history == s.history
  {
    hide QueueInv, DispatchInv, Permits;
    var t := Apply(p, s, step);
    if step.RouterAcquire? {
      assert |t.running| <= |s.running| + 1 by { GrowsByOne(s.running, s.router.req.id); }
    } else if step.WorkerDone? {
      assert |t.running| == |s.running| - 1;
    }
  }

  lemma GrowsByOne(s: set<nat>, x: nat)
    ensures |s + {x}| <= |s| + 1
  {}

  /** Where none of these steps can be taken, Close has returned. */
  lemma StuckIsClosed<T>(p: Params, s: State<T>)
    requires p.concurrency > 0 && Inv(p, s) && UnderWay(s)
    requires forall step: Step<T> :: Draining(step) ==> !Enabled(p, s, step)
    ensures ClosedCleanly(s)
  {
    hide QueueInv, DispatchInv;
    forall id: nat ensures id !in s.running {
      var done: Step<T> := WorkerDone(id);
      assert Enabled(p, s, done) <==> id in s.running;
    }
    assert s.running == {};
    var release, dequeue, acquire, check, drained, close: Step<T> :=
      WorkerRelease, RouterDequeue, RouterAcquire, RouterCheck, CloseDrained, CloseAcquire;
    assert !Enabled(p, s, release) && !Enabled(p, s, dequeue) && !Enabled(p, s, check);
    assert !Enabled(p, s, acquire) && !Enabled(p, s, drained) && !Enabled(p, s, close);
  }

  /** Once Close was called, and unless it times out, every schedule of the goroutines without further calls to Publish
      is finite, and wherever it cannot go on Close has returned cleanly. */
  lemma {:induction false} CloseCompletes<T>(p: Params, s: State<T>, steps: seq<Step<T>>, t: State<T>)
    requires p.maxSize > 0 && p.concurrency > 0 && Inv(p, s) && UnderWay(s)
    requires Reaches(p, s, steps, t) && forall step <- steps :: Draining(step)
    ensures |steps| <= Work(s) && t.history == s.history
    ensures (forall step: Step<T> :: Draining(step) ==> !Enabled(p, t, step)) ==> ClosedCleanly(t)
    decreases |steps|
  {
    hide Inv, Work;
    if steps == [] {
      if forall step: Step<T> :: Draining(step) ==> !Enabled(p, t, step) { StuckIsClosed(p, t); }
    } else {
      assert steps[0] in steps;
      var next := Apply(p, s, steps[0]);
      assert Inv(p, next) by { InvReaches(p, s, [steps[0]], next); }
      DrainStep(p, s, steps[0]);
      CloseCompletes(p, next, steps[1..], t);
    }
  }

  /** So Close can return cleanly from every state that it was called in. */
  lemma {:induction false} CanCloseCleanly<T>(p: Params, s: State<T>) returns (steps: seq<Step<T>>, t: State<T>)
    requires p.maxSize > 0 && p.concurrency > 0 && Inv(p, s) && UnderWay(s)
    ensures Reaches(p, s, steps, t) && ClosedCleanly(t) && forall step <- steps :: Draining(step)
    decreases Work(s)
  {
    hide Inv, Work;
    if step: Step<T> :| Draining(step) && Enabled(p, s, step) {
      var next := Apply(p, s, step);
      assert Inv(p, next) by { InvReaches(p, s, [step], next); }
      DrainStep(p, s, step);
      var rest;
      rest, t := CanCloseCleanly(p, next);
      steps := [step] + rest;
      assert steps[1..] == rest;
    } else {
      StuckIsClosed(p, s);
      steps, t := [], s;
    }
  }
}
