/** The linked queue shared by one producer and one consumer, one atomic access at a time.

    Nodes are numbered in allocation order and never reused, so a dangling pointer is one to a node in
    `freed`. A run is any sequence of the actions below, interleaved in any way. The branch that takes
    the last element is where the two threads can collide: the results say exactly when. */
module Interleaving {
  import opened Sequences

  /** The null pointer. */
  const NONE: int := -1

  datatype Cell<T> = Cell(data: T, next: int)

  /** Where the producer is inside `_enqueue`, with its local pointers. */
  datatype Producer = Idle | Allocated(node: int) | Loaded(node: int, prevTail: int) | Published(node: int)

  /** Where the consumer is inside `_dequeue`. `LastSeen` and `TailCleared` are the last-element branch;
      `MovedHead` has only the deletion left to do. */
  datatype Consumer =
    | Ready
    | GotHead(oldHead: int)
    | GotNext(oldHead: int, newHead: int)
    | LastSeen(oldHead: int)
    | TailCleared(oldHead: int)
    | MovedHead(oldHead: int)

  datatype Sys<T> = Sys(heap: seq<Cell<T>>, freed: set<int>, head: int, tail: int,
                        prod: Producer, cons: Consumer, taken: seq<int>)

  datatype Action<T> =
    | Alloc(value: T) | LoadTail | Publish | StoreTail
    | LoadHead | LoadNext | MoveHead | ClearTail | Swap | Free

  function Start<T>(): Sys<T> {
    Sys([], {}, NONE, NONE, Idle, Ready, [])
  }

  predicate NullOrNode<T>(s: Sys<T>, p: int) {
    NONE <= p < |s.heap|
  }

  predicate Node<T>(s: Sys<T>, p: int) {
    0 <= p < |s.heap|
  }

  predicate WellTyped<T>(s: Sys<T>) {
    && NullOrNode(s, s.head) && NullOrNode(s, s.tail)
    && (forall i :: 0 <= i < |s.heap| ==> NullOrNode(s, s.heap[i].next))
    && (s.prod.Idle? || Node(s, s.prod.node))
    && (s.prod.Loaded? ==> NullOrNode(s, s.prod.prevTail))
    && (s.cons.Ready? || Node(s, s.cons.oldHead))
    && (s.cons.GotNext? ==> Node(s, s.cons.newHead))
  }

  predicate Enabled<T>(s: Sys<T>, a: Action<T>) {
    match a
    case Alloc(_) => s.prod.Idle?
    case LoadTail => s.prod.Allocated?
    case Publish => s.prod.Loaded?
    case StoreTail => s.prod.Published?
    case LoadHead => s.cons.Ready?
    case LoadNext => s.cons.GotHead?
    case MoveHead => s.cons.GotNext?
    case ClearTail => s.cons.LastSeen?
    case Swap => s.cons.TailCleared?
    case Free => s.cons.MovedHead?
  }

  function Do<T>(s: Sys<T>, a: Action<T>): (r: Sys<T>)
    requires WellTyped(s) && Enabled(s, a)
    ensures WellTyped(r)
  {
    match a
    // _enqueue
    case Alloc(v) => s.(heap := s.heap + [Cell(v, NONE)], prod := Allocated(|s.heap|))
    case LoadTail => s.(prod := Loaded(s.prod.node, s.tail))
    case Publish =>
      if s.prod.prevTail == NONE then s.(head := s.prod.node, prod := Published(s.prod.node))
      else s.(heap := s.heap[s.prod.prevTail := s.heap[s.prod.prevTail].(next := s.prod.node)],
              prod := Published(s.prod.node))
    case StoreTail => s.(tail := s.prod.node, prod := Idle)
    // _dequeue; an empty queue returns at once
    case LoadHead => if s.head == NONE then s else s.(cons := GotHead(s.head))
    case LoadNext =>
      var next := s.heap[s.cons.oldHead].next;
      s.(cons := if next == NONE then LastSeen(s.cons.oldHead) else GotNext(s.cons.oldHead, next))
    case MoveHead =>
      s.(head := s.cons.newHead, taken := s.taken + [s.cons.oldHead], cons := MovedHead(s.cons.oldHead))
    case ClearTail => s.(tail := NONE, cons := TailCleared(s.cons.oldHead))
    case Swap =>
      if s.head == s.cons.oldHead then
        s.(head := NONE, taken := s.taken + [s.cons.oldHead], cons := MovedHead(s.cons.oldHead))
      else s.(cons := Ready)
    case Free => s.(freed := s.freed + {s.cons.oldHead}, cons := Ready)
  }

  /** The nodes an action reads, writes or deletes. */
  function Touches<T>(s: Sys<T>, a: Action<T>): set<int>
    requires Enabled(s, a)
  {
    match a
    case Publish => if s.prod.prevTail == NONE then {} else {s.prod.prevTail}
    case LoadNext => {s.cons.oldHead}
    case MoveHead => {s.cons.oldHead}
    case Swap => if s.head == s.cons.oldHead then {s.cons.oldHead} else {}
    case Free => {s.cons.oldHead}
    case _ => {}
  }

  /** `Touches` leaves nothing out: what an action does depends on no other cell, and it changes, takes and
      deletes no other node. */
  lemma TouchesIsAll<T>(s: Sys<T>, a: Action<T>, cells: seq<Cell<T>>)
    requires WellTyped(s) && Enabled(s, a) && |cells| == |s.heap| && WellTyped(s.(heap := cells))
    requires forall i :: 0 <= i < |cells| && i in Touches(s, a) ==> cells[i] == s.heap[i]
    ensures var r, r' := Do(s, a), Do(s.(heap := cells), a);
            && r' == r.(heap := r'.heap)
            && (forall i :: 0 <= i < |s.heap| ==>
                  r.heap[i] == s.heap[i] || (i in Touches(s, a) && r'.heap[i] == r.heap[i]))
            && r.freed - s.freed <= Touches(s, a)
            && (r.taken == s.taken || exists i :: i in Touches(s, a) && r.taken == s.taken + [i])
  {
  }

  /** How many nodes are in the queue or have been: all but one still in the producer's hands. */
  function PublishedCount<T>(s: Sys<T>): int {
    if s.prod.Allocated? || s.prod.Loaded? then |s.heap| - 1 else |s.heap|
  }

  predicate BeforeLoad(p: Producer) {
    p.Idle? || p.Allocated?
  }

  /** The discipline that makes the last-element branch safe: it is entered only while the producer is
      not between loading and storing `tail` and nothing was linked since the null was read, and the
      producer does not load `tail` between the branch's two stores. Runs that never take the branch
      satisfy it. */
  predicate Guarded<T>(s: Sys<T>, a: Action<T>)
    requires WellTyped(s) && Enabled(s, a)
  {
    match a
    case ClearTail => BeforeLoad(s.prod) && s.heap[s.cons.oldHead].next == NONE
    case LoadTail => !s.cons.TailCleared?
    case _ => true
  }

  // ---------- safety ----------

  predicate ConsumerOk<T>(s: Sys<T>) {
    var d, pub := |s.taken|, PublishedCount(s);
    match s.cons
    case Ready => true
    case GotHead(o) => o == d < pub
    case GotNext(o, n) => o == d && n == d + 1 < pub
    case LastSeen(o) => o == d < pub
    case TailCleared(o) => o == d == pub - 1 && BeforeLoad(s.prod) && s.tail == NONE
    case MovedHead(o) => o == d - 1
  }

  predicate ProducerOk<T>(s: Sys<T>) {
    var d, pub := |s.taken|, PublishedCount(s);
    && (s.prod.Idle? || s.prod.node == |s.heap| - 1)
    && (s.prod.Loaded? ==> s.prod.prevTail == s.tail)
    && (if s.prod.Published? then d < pub
        else s.tail == if d < pub && !s.cons.TailCleared? then pub - 1 else NONE)
  }

  /** Nodes are taken in order; the rest form one chain from head to the last published node. */
  ghost predicate Inv<T>(s: Sys<T>) {
    var d, pub := |s.taken|, PublishedCount(s);
    && WellTyped(s)
    && d <= pub
    && (forall i :: 0 <= i < d ==> s.taken[i] == i)
    && (forall i :: i in s.freed <==> 0 <= i < if s.cons.MovedHead? then d - 1 else d)
    && s.head == (if d < pub then d else NONE)
    && (forall i :: d <= i < |s.heap| ==> s.heap[i].next == if i < pub - 1 then i + 1 else NONE)
    && ProducerOk(s)
    && ConsumerOk(s)
  }

  /** What a step must show: no deleted node is touched and the queue stays in order. */
  ghost predicate Safe<T>(s: Sys<T>, a: Action<T>)
    requires WellTyped(s) && Enabled(s, a)
  {
    Touches(s, a) !! s.freed && Inv(Do(s, a))
  }

  lemma AllocIsSafe<T>(s: Sys<T>, v: T)
    requires Inv(s) && Enabled(s, Alloc(v))
    ensures Safe(s, Alloc(v))
  {
  }

  lemma LoadTailIsSafe<T>(s: Sys<T>)
    requires Inv(s) && Enabled(s, LoadTail) && Guarded(s, LoadTail)
    ensures Safe(s, LoadTail)
  {
  }

  lemma PublishIsSafe<T>(s: Sys<T>)
    requires Inv(s) && Enabled(s, Publish)
    ensures Safe(s, Publish)
  {
  }

  lemma StoreTailIsSafe<T>(s: Sys<T>)
    requires Inv(s) && Enabled(s, StoreTail)
    ensures Safe(s, StoreTail)
  {
  }

  lemma LoadHeadIsSafe<T>(s: Sys<T>)
    requires Inv(s) && Enabled(s, LoadHead)
    ensures Safe(s, LoadHead)
  {
  }

  lemma LoadNextIsSafe<T>(s: Sys<T>)
    requires Inv(s) && Enabled(s, LoadNext)
    ensures Safe(s, LoadNext)
  {
  }

  lemma MoveHeadIsSafe<T>(s: Sys<T>)
    requires Inv(s) && Enabled(s, MoveHead)
    ensures Safe(s, MoveHead)
  {
  }

  lemma ClearTailIsSafe<T>(s: Sys<T>)
    requires Inv(s) && Enabled(s, ClearTail) && Guarded(s, ClearTail)
    ensures Safe(s, ClearTail)
  {
  }

  lemma SwapIsSafe<T>(s: Sys<T>)
    requires Inv(s) && Enabled(s, Swap)
    ensures Safe(s, Swap)
  {
  }

  lemma FreeIsSafe<T>(s: Sys<T>)
    requires Inv(s) && Enabled(s, Free)
    ensures Safe(s, Free)
  {
  }

  /** A guarded action touches no deleted node and keeps the queue in order. */
  lemma GuardedIsSafe<T>(s: Sys<T>, a: Action<T>)
    requires Inv(s) && Enabled(s, a) && Guarded(s, a)
    ensures Touches(s, a) !! s.freed
    ensures Inv(Do(s, a))
  {
    match a
    case Alloc(v) => AllocIsSafe(s, v);
    case LoadTail => LoadTailIsSafe(s);
    case Publish => PublishIsSafe(s);
    case StoreTail => StoreTailIsSafe(s);
    case LoadHead => LoadHeadIsSafe(s);
    case LoadNext => LoadNextIsSafe(s);
    case MoveHead => MoveHeadIsSafe(s);
    case ClearTail => ClearTailIsSafe(s);
    case Swap => SwapIsSafe(s);
    case Free => FreeIsSafe(s);
  }

  ghost predicate GuardedRun<T>(s: Sys<T>, run: seq<Action<T>>)
    requires WellTyped(s)
    decreases |run|
  {
    run != [] ==> Enabled(s, run[0]) && Guarded(s, run[0]) && GuardedRun(Do(s, run[0]), run[1..])
  }

  ghost predicate EnabledRun<T>(s: Sys<T>, run: seq<Action<T>>)
    requires WellTyped(s)
    decreases |run|
  {
    run != [] ==> Enabled(s, run[0]) && EnabledRun(Do(s, run[0]), run[1..])
  }

  ghost function DoAll<T>(s: Sys<T>, run: seq<Action<T>>): (r: Sys<T>)
    requires WellTyped(s) && EnabledRun(s, run)
    ensures WellTyped(r)
    decreases |run|
  {
    if run == [] then s else DoAll(Do(s, run[0]), run[1..])
  }

  /** Some action of the run touches a node deleted before it. */
  ghost predicate TouchesFreed<T>(s: Sys<T>, run: seq<Action<T>>)
    requires WellTyped(s) && EnabledRun(s, run)
    decreases |run|
  {
    run != [] && (Touches(s, run[0]) * s.freed != {} || TouchesFreed(Do(s, run[0]), run[1..]))
  }

  function Values<T>(heap: seq<Cell<T>>): seq<T> {
    seq(|heap|, i requires 0 <= i < |heap| => heap[i].data)
  }

  /** The values enqueued during a run, in order. */
  function Enqueued<T>(run: seq<Action<T>>): seq<T> {
    if run == [] then []
    else (if run[0].Alloc? then [run[0].value] else []) + Enqueued(run[1..])
  }

  /** The values handed to the consumer. */
  function Delivered<T>(s: Sys<T>): seq<T>
    requires forall i :: 0 <= i < |s.taken| ==> 0 <= s.taken[i] < |s.heap|
  {
    seq(|s.taken|, i requires 0 <= i < |s.taken| && 0 <= s.taken[i] < |s.heap| => s.heap[s.taken[i]].data)
  }

  lemma ValuesGrow<T>(s: Sys<T>, a: Action<T>)
    requires WellTyped(s) && Enabled(s, a)
    ensures Values(Do(s, a).heap) == Values(s.heap) + if a.Alloc? then [a.value] else []
  {
  }

  /** Whatever the interleaving, the heap's values grow by those enqueued. */
  lemma {:induction false} ValuesOfRun<T>(s: Sys<T>, run: seq<Action<T>>)
    requires WellTyped(s) && EnabledRun(s, run)
    ensures Values(DoAll(s, run).heap) == Values(s.heap) + Enqueued(run)
    decreases |run|
  {
    if run == [] {
    } else {
      ValuesGrow(s, run[0]);
      ValuesOfRun(Do(s, run[0]), run[1..]);
      Regroup(Values(s.heap), if run[0].Alloc? then [run[0].value] else [], Enqueued(run[1..]));
    }
  }

  lemma {:induction false} RunIsSafe<T>(s: Sys<T>, run: seq<Action<T>>)
    requires Inv(s) && GuardedRun(s, run)
    ensures EnabledRun(s, run) && !TouchesFreed(s, run)
    ensures Inv(DoAll(s, run))
    decreases |run|
  {
    if run == [] {
    } else {
      GuardedIsSafe(s, run[0]);
      RunIsSafe(Do(s, run[0]), run[1..]);
    }
  }

  /** A dequeue on its way to an element it has found. */
  function InFlight(c: Consumer): nat {
    if c.Ready? || c.MovedHead? then 0 else 1
  }

  /** The first reads of `head`, during a run, that happen while something is in the queue. */
  ghost function Finds<T>(s: Sys<T>, run: seq<Action<T>>): nat
    requires WellTyped(s) && EnabledRun(s, run)
    decreases |run|
  {
    if run == [] then 0
    else (if run[0].LoadHead? && |s.taken| < PublishedCount(s) then 1 else 0) + Finds(Do(s, run[0]), run[1..])
  }

  /** A dequeue finds something if and only if the queue is not empty; having found something it delivers
      one element before it ends; nothing else delivers. */
  lemma OneEach<T>(s: Sys<T>, a: Action<T>)
    requires Inv(s) && Enabled(s, a) && Guarded(s, a)
    ensures |Do(s, a).taken| + InFlight(Do(s, a).cons)
            == |s.taken| + InFlight(s.cons) + if a.LoadHead? && |s.taken| < PublishedCount(s) then 1 else 0
  {
  }

  lemma {:induction false} EveryFindDelivers<T>(s: Sys<T>, run: seq<Action<T>>)
    requires Inv(s) && GuardedRun(s, run)
    ensures EnabledRun(s, run)
    ensures |DoAll(s, run).taken| + InFlight(DoAll(s, run).cons) == |s.taken| + InFlight(s.cons) + Finds(s, run)
    decreases |run|
  {
    if run == [] {
    } else {
      OneEach(s, run[0]);
      GuardedIsSafe(s, run[0]);
      EveryFindDelivers(Do(s, run[0]), run[1..]);
    }
  }

  lemma ValuesFromStart<T>(run: seq<Action<T>>)
    requires EnabledRun(Start(), run)
    ensures Values(DoAll(Start(), run).heap) == Enqueued(run)
  {
    ValuesOfRun(Start(), run);
    assert [] + Enqueued(run) == Enqueued(run);
  }

  lemma DeliveredInOrder<T>(s: Sys<T>, values: seq<T>)
    requires Inv(s) && Values(s.heap) == values
    ensures |s.taken| <= |values| && Delivered(s) == values[..|s.taken|]
  {
  }

  /** Every guarded interleaving delivers a prefix of the enqueued values, in order, without losing or
      repeating any, and never touches a deleted node; and it delivers as many as there were dequeues that
      began while the queue held something, less the one that may be under way. */
  lemma InterleavingIsFifo<T>(run: seq<Action<T>>)
    requires GuardedRun(Start(), run)
    ensures EnabledRun(Start(), run) && !TouchesFreed(Start(), run)
    ensures var s := DoAll(Start(), run);
            && Inv(s)
            && |s.taken| <= |Enqueued(run)|
            && Delivered(s) == Enqueued(run)[..|s.taken|]
            && |s.taken| + InFlight(s.cons) == Finds(Start(), run)
  {
    RunIsSafe(Start(), run);
    EveryFindDelivers(Start(), run);
    ValuesFromStart(run);
    DeliveredInOrder(DoAll(Start(), run), Enqueued(run));
  }

  ghost predicate AvoidsLast<T>(run: seq<Action<T>>) {
    forall a :: a in run ==> !a.ClearTail?
  }

  /** Runs that never enter the last-element branch are guarded. */
  lemma {:induction false} AvoidingIsGuarded<T>(s: Sys<T>, run: seq<Action<T>>)
    requires WellTyped(s) && EnabledRun(s, run) && AvoidsLast(run) && !s.cons.TailCleared?
    ensures GuardedRun(s, run)
    decreases |run|
  {
    if run == [] {
    } else {
      assert run[0] in run;
      AvoidingIsGuarded(Do(s, run[0]), run[1..]);
    }
  }

  // ---------- progress ----------

  /** A dequeue reports an empty queue exactly when everything linked has been taken; otherwise it goes on. */
  lemma EmptyIsExact<T>(s: Sys<T>)
    requires Inv(s) && s.cons.Ready?
    ensures Do(s, LoadHead).cons.Ready? <==> |s.taken| == PublishedCount(s)
  {
  }

  /** The last-element branch is entered exactly for the last element, and its compare-and-swap succeeds. */
  lemma LastIsExact<T>(s: Sys<T>)
    requires Inv(s)
    ensures s.cons.GotHead? ==> (Do(s, LoadNext).cons.LastSeen? <==> |s.taken| + 1 == PublishedCount(s))
    ensures s.cons.TailCleared? ==> Do(s, Swap).cons.MovedHead? && |Do(s, Swap).taken| == |s.taken| + 1
  {
  }

  predicate Consumes<T>(a: Action<T>) {
    a.LoadHead? || a.LoadNext? || a.MoveHead? || a.ClearTail? || a.Swap? || a.Free?
  }

  ghost predicate ConsumerRun<T>(s: Sys<T>, run: seq<Action<T>>)
    requires WellTyped(s)
  {
    GuardedRun(s, run) && EnabledRun(s, run) && forall a :: a in run ==> Consumes(a)
  }

  /** Two runs one after the other. */
  lemma {:induction false} Append<T>(s: Sys<T>, x: seq<Action<T>>, y: seq<Action<T>>)
    requires WellTyped(s) && EnabledRun(s, x) && EnabledRun(DoAll(s, x), y)
    ensures EnabledRun(s, x + y) && DoAll(s, x + y) == DoAll(DoAll(s, x), y)
    ensures GuardedRun(s, x) && GuardedRun(DoAll(s, x), y) ==> GuardedRun(s, x + y)
    decreases |x|
  {
    if x == [] {
      assert x + y == y;
    } else {
      Append(Do(s, x[0]), x[1..], y);
      assert (x + y)[0] == x[0] && (x + y)[1..] == x[1..] + y;
    }
  }

  lemma Single<T>(s: Sys<T>, a: Action<T>) returns (run: seq<Action<T>>)
    requires Inv(s) && Enabled(s, a) && Guarded(s, a)
    ensures run == [a] && GuardedRun(s, run) && EnabledRun(s, run) && DoAll(s, run) == Do(s, a)
    ensures Inv(Do(s, a))
  {
    run := [a];
    GuardedIsSafe(s, a);
    assert run[1..] == [];
  }

  /** One more action at the end of a run. */
  lemma Then<T>(s: Sys<T>, run: seq<Action<T>>, a: Action<T>) returns (more: seq<Action<T>>)
    requires WellTyped(s) && GuardedRun(s, run) && EnabledRun(s, run) && Inv(DoAll(s, run))
    requires Enabled(DoAll(s, run), a) && Guarded(DoAll(s, run), a)
    ensures more == run + [a] && GuardedRun(s, more) && EnabledRun(s, more)
    ensures DoAll(s, more) == Do(DoAll(s, run), a) && Inv(DoAll(s, more))
  {
    var one := Single(DoAll(s, run), a);
    Append(s, run, one);
    more := run + one;
  }

  lemma DeliveredMore<T>(s: Sys<T>, s': Sys<T>)
    requires Inv(s) && Inv(s') && s'.heap == s.heap && s'.taken == s.taken + [|s.taken|]
    ensures Delivered(s') == Delivered(s) + [s.heap[|s.taken|].data]
  {
  }

  lemma TakeOneOfMany<T>(s: Sys<T>) returns (run: seq<Action<T>>)
    requires Inv(s) && s.cons.Ready? && |s.taken| + 1 < PublishedCount(s)
    ensures ConsumerRun(s, run)
    ensures var s' := DoAll(s, run);
            Inv(s') && s'.cons.Ready? && s'.prod == s.prod && s'.heap == s.heap && s'.taken == s.taken + [|s.taken|]
  {
    run := Single(s, LoadHead);
    run := Then(s, run, LoadNext);
    run := Then(s, run, MoveHead);
    run := Then(s, run, Free);
  }

  lemma TakeLast<T>(s: Sys<T>) returns (run: seq<Action<T>>)
    requires Inv(s) && s.cons.Ready? && BeforeLoad(s.prod) && |s.taken| + 1 == PublishedCount(s)
    ensures ConsumerRun(s, run)
    ensures var s' := DoAll(s, run);
            Inv(s') && s'.cons.Ready? && s'.prod == s.prod && s'.heap == s.heap && s'.taken == s.taken + [|s.taken|]
  {
    run := Single(s, LoadHead);
    run := Then(s, run, LoadNext);
    var rest := TakeSeen(DoAll(s, run));
    Append(s, run, rest);
    run := run + rest;
  }

  lemma TakeSeen<T>(s: Sys<T>) returns (run: seq<Action<T>>)
    requires Inv(s) && s.cons.LastSeen? && BeforeLoad(s.prod) && |s.taken| + 1 == PublishedCount(s)
    ensures ConsumerRun(s, run)
    ensures var s' := DoAll(s, run);
            Inv(s') && s'.cons.Ready? && s'.prod == s.prod && s'.heap == s.heap && s'.taken == s.taken + [|s.taken|]
  {
    run := Single(s, ClearTail);
    run := Then(s, run, Swap);
    run := Then(s, run, Free);
  }

  /** Undisturbed, a dequeue from a queue that is not empty delivers the next value and ends: at any moment
      if something follows that value, and otherwise while no enqueue has loaded `tail`. */
  lemma DequeueDelivers<T>(s: Sys<T>) returns (run: seq<Action<T>>)
    requires Inv(s) && s.cons.Ready? && |s.taken| < PublishedCount(s)
    requires BeforeLoad(s.prod) || |s.taken| + 1 < PublishedCount(s)
    ensures ConsumerRun(s, run)
    ensures var s' := DoAll(s, run);
            && Inv(s') && s'.cons.Ready? && s'.prod == s.prod && s'.heap == s.heap
            && Delivered(s') == Delivered(s) + [s.heap[|s.taken|].data]
  {
    if |s.taken| + 1 < PublishedCount(s) {
      run := TakeOneOfMany(s);
    } else {
      run := TakeLast(s);
    }
    DeliveredMore(s, DoAll(s, run));
  }

  /** Undisturbed, an enqueue links its value at the end, wherever the consumer is but for between the
      two stores of the last-element branch. */
  lemma EnqueueArrives<T>(s: Sys<T>, v: T) returns (run: seq<Action<T>>)
    requires Inv(s) && s.prod.Idle? && !s.cons.TailCleared?
    ensures GuardedRun(s, run) && EnabledRun(s, run) && Enqueued(run) == [v]
    ensures var s' := DoAll(s, run);
            && Inv(s') && s'.prod.Idle? && s'.cons == s.cons && s'.taken == s.taken
            && Values(s'.heap) == Values(s.heap) + [v] && PublishedCount(s') == PublishedCount(s) + 1
  {
    run := Single(s, Alloc(v));
    run := Then(s, run, LoadTail);
    run := Then(s, run, Publish);
    run := Then(s, run, StoreTail);
    ValuesOfRun(s, run);
  }

  /** Undisturbed dequeues empty the queue. */
  lemma {:induction false} Drain<T>(s: Sys<T>) returns (run: seq<Action<T>>)
    requires Inv(s) && s.cons.Ready? && s.prod.Idle?
    ensures ConsumerRun(s, run)
    ensures var s' := DoAll(s, run); Inv(s') && s'.heap == s.heap && Delivered(s') == Values(s.heap)
    decreases |s.heap| - |s.taken|
  {
    if |s.taken| == |s.heap| {
      run := [];
      DeliveredInOrder(s, Values(s.heap));
    } else {
      run := DequeueDelivers(s);
      var rest := Drain(DoAll(s, run));
      Append(s, run, rest);
      run := run + rest;
    }
  }

  /** Nothing gets stuck: whatever the two threads did, once neither is inside a call, dequeues alone hand
      over everything enqueued so far. */
  lemma NothingStuck<T>(run: seq<Action<T>>) returns (more: seq<Action<T>>)
    requires GuardedRun(Start(), run)
    ensures EnabledRun(Start(), run)
    ensures var s := DoAll(Start(), run);
            s.cons.Ready? && s.prod.Idle? ==>
              ConsumerRun(s, more) && Inv(DoAll(s, more)) && Delivered(DoAll(s, more)) == Enqueued(run)
  {
    more := [];
    RunIsSafe(Start(), run);
    ValuesFromStart(run);
    var s := DoAll(Start(), run);
    if s.cons.Ready? && s.prod.Idle? { more := Drain(s); }
  }

  // ---------- without the guard ----------

  /** Node `x` is in the queue but nothing can lead the consumer to it any more. */
  predicate Lost<T>(s: Sys<T>, x: int) {
    && 0 <= x < |s.heap| && x !in s.taken
    && (s.head == NONE || s.head > x)
    && (s.prod.Allocated? || s.prod.Loaded? ==> s.prod.node > x)
    && (s.cons.Ready? || s.cons.MovedHead? || s.cons.oldHead > x)
    && (s.cons.GotNext? ==> s.cons.newHead > x)
    && (forall i :: x < i < |s.heap| ==> s.heap[i].next == NONE || s.heap[i].next > x)
  }

  lemma StaysLost<T>(s: Sys<T>, x: int, a: Action<T>)
    requires WellTyped(s) && Enabled(s, a) && Lost(s, x)
    ensures Lost(Do(s, a), x)
  {
  }

  /** A lost node is never delivered, whatever the threads do from then on. */
  lemma {:induction false} LostForever<T>(s: Sys<T>, x: int, run: seq<Action<T>>)
    requires WellTyped(s) && EnabledRun(s, run) && Lost(s, x)
    ensures x !in DoAll(s, run).taken
    decreases |run|
  {
    if run == [] {
    } else {
      StaysLost(s, x, run[0]);
      LostForever(Do(s, run[0]), x, run[1..]);
    }
  }

  /** A load of `tail` between the branch's two stores reads null: the producer then replaces `head`
      and the element being taken is lost. */
  lemma LateLoadLoses<T>(s: Sys<T>) returns (run: seq<Action<T>>)
    requires Inv(s) && s.prod.Allocated? && s.cons.TailCleared?
    ensures GuardedRun(Do(s, LoadTail), run) && EnabledRun(Do(s, LoadTail), run)
    ensures var s' := DoAll(Do(s, LoadTail), run); |s.taken| < PublishedCount(s') && Lost(s', |s.taken|)
  {
    run := [Publish, Swap];
    var s1 := Do(s, LoadTail);
    var s3 := Do(Do(s1, Publish), Swap);
    assert run[1..] == [Swap];
    assert DoAll(s1, run) == s3;
  }

  /** A node linked after the null was read is cut off when `head` is nulled. */
  lemma LateLinkLoses<T>(s: Sys<T>) returns (run: seq<Action<T>>)
    requires Inv(s) && s.cons.LastSeen? && s.heap[s.cons.oldHead].next != NONE
    ensures GuardedRun(Do(s, ClearTail), run) && EnabledRun(Do(s, ClearTail), run)
    ensures var s' := DoAll(Do(s, ClearTail), run);
            |s.taken| + 1 < PublishedCount(s') && Lost(s', |s.taken| + 1)
  {
    run := [Swap];
    assert DoAll(Do(s, ClearTail), run) == Do(Do(s, ClearTail), Swap);
  }

  /** A producer that has already read `tail` writes into the node the branch deletes. */
  lemma EarlyLoadDangles<T>(s: Sys<T>) returns (run: seq<Action<T>>)
    requires Inv(s) && s.cons.LastSeen? && s.heap[s.cons.oldHead].next == NONE && s.prod.Loaded?
    ensures GuardedRun(Do(s, ClearTail), run) && EnabledRun(Do(s, ClearTail), run)
    ensures TouchesFreed(Do(s, ClearTail), run)
  {
    run := [Swap, Free, Publish];
    var o := s.cons.oldHead;
    var s1 := Do(s, ClearTail);
    var s2 := Do(s1, Swap);
    var s3 := Do(s2, Free);
    assert run[1..] == [Free, Publish] && run[1..][1..] == [Publish];
    assert s3.prod.prevTail == o && o in s3.freed;
    assert o in Touches(s3, Publish) * s3.freed;
    assert TouchesFreed(s3, [Publish]);
    assert TouchesFreed(s2, [Free, Publish]);
  }

  /** A producer that has yet to store `tail` leaves it at the node the branch deletes, and the next
      enqueue writes there. */
  lemma LateStoreDangles<T>(s: Sys<T>, v: T) returns (run: seq<Action<T>>)
    requires Inv(s) && s.cons.LastSeen? && s.heap[s.cons.oldHead].next == NONE && s.prod.Published?
    ensures GuardedRun(Do(s, ClearTail), run) && EnabledRun(Do(s, ClearTail), run)
    ensures TouchesFreed(Do(s, ClearTail), run)
    ensures Enqueued(run) == [v] && DoAll(Do(s, ClearTail), run).taken == s.taken + [s.cons.oldHead]
  {
    var o := s.cons.oldHead;
    var s1 := Do(s, ClearTail);
    var s2 := Do(s1, Swap);
    var s3 := Do(s2, Free);
    assert s3.prod == Published(o) && o in s3.freed && s3.cons == Ready;
    run := NextWriteDangles(s3, o, v);
    run := Before(s2, Free, run);
    run := Before(s1, Swap, run);
  }

  lemma NextWriteDangles<T>(s: Sys<T>, o: int, v: T) returns (run: seq<Action<T>>)
    requires WellTyped(s) && s.prod == Published(o) && s.cons == Ready && o in s.freed
    ensures GuardedRun(s, run) && EnabledRun(s, run) && TouchesFreed(s, run)
    ensures Enqueued(run) == [v] && DoAll(s, run).taken == s.taken
  {
    var s1 := Do(s, StoreTail);
    var s2 := Do(s1, Alloc(v));
    var s3 := Do(s2, LoadTail);
    run := WriteDangles(s3, o);
    run := Before(s2, LoadTail, run);
    run := Before(s1, Alloc(v), run);
    run := Before(s, StoreTail, run);
  }

  lemma WriteDangles<T>(s: Sys<T>, o: int) returns (run: seq<Action<T>>)
    requires WellTyped(s) && s.prod.Loaded? && s.prod.prevTail == o && o in s.freed && o != NONE
    ensures GuardedRun(s, run) && EnabledRun(s, run) && TouchesFreed(s, run)
    ensures Enqueued(run) == [] && DoAll(s, run).taken == s.taken
  {
    run := [Publish];
    assert o in Touches(s, Publish) * s.freed;
    assert run[1..] == [] && DoAll(s, run) == Do(s, Publish);
  }

  /** One more action in front of a run. */
  lemma Before<T>(s: Sys<T>, a: Action<T>, rest: seq<Action<T>>) returns (run: seq<Action<T>>)
    requires WellTyped(s) && Enabled(s, a) && EnabledRun(Do(s, a), rest) && TouchesFreed(Do(s, a), rest)
    ensures EnabledRun(s, run) && TouchesFreed(s, run)
    ensures Guarded(s, a) && GuardedRun(Do(s, a), rest) ==> GuardedRun(s, run)
    ensures Enqueued(run) == (if a.Alloc? then [a.value] else []) + Enqueued(rest)
    ensures DoAll(s, run) == DoAll(Do(s, a), rest)
  {
    run := [a] + rest;
    assert run[0] == a && run[1..] == rest;
  }

  /** What a bad ending is: an action on a deleted node, or an element in the queue lost for good. */
  ghost predicate Harms<T>(s: Sys<T>, run: seq<Action<T>>)
    requires WellTyped(s) && EnabledRun(s, run)
  {
    TouchesFreed(s, run) || exists x :: x < PublishedCount(DoAll(s, run)) && Lost(DoAll(s, run), x)
  }

  lemma UnguardedHarms<T>(s: Sys<T>, a: Action<T>, v: T) returns (run: seq<Action<T>>)
    requires Inv(s) && Enabled(s, a) && !Guarded(s, a)
    ensures GuardedRun(Do(s, a), run) && EnabledRun(Do(s, a), run) && Harms(Do(s, a), run)
  {
    if a.LoadTail? {
      run := LateLoadLoses(s);
    } else if s.heap[s.cons.oldHead].next != NONE {
      run := LateLinkLoses(s);
    } else if s.prod.Loaded? {
      run := EarlyLoadDangles(s);
    } else {
      run := LateStoreDangles(s, v);
    }
  }

  /** If this continuation is guarded, it ends well. */
  ghost predicate Harmless<T>(s: Sys<T>, run: seq<Action<T>>)
    requires WellTyped(s)
  {
    GuardedRun(s, run) ==> EnabledRun(s, run) && !Harms(s, run)
  }

  /** While the queue is in order, nothing in it is lost. */
  lemma NothingLost<T>(s: Sys<T>, x: int)
    requires Inv(s) && x < PublishedCount(s)
    ensures !Lost(s, x)
  {
    if 0 <= x < |s.taken| { assert s.taken[x] == x; }
  }

  lemma GuardedNeverHarms<T>(s: Sys<T>, run: seq<Action<T>>)
    requires Inv(s)
    ensures Harmless(s, run)
  {
    if GuardedRun(s, run) {
      RunIsSafe(s, run);
      var s' := DoAll(s, run);
      forall x | x < PublishedCount(s') ensures !Lost(s', x) { NothingLost(s', x); }
    }
  }

  /** The guard is exact: an action keeps it if and only if no guarded continuation touches a deleted
      node or loses an element for good. `v` is any value there is to enqueue. */
  lemma GuardIsExact<T(!new)>(s: Sys<T>, a: Action<T>, v: T)
    requires Inv(s) && Enabled(s, a)
    ensures Guarded(s, a) <==> forall run :: Harmless(Do(s, a), run)
  {
    if Guarded(s, a) {
      GuardedIsSafe(s, a);
      forall run ensures Harmless(Do(s, a), run) { GuardedNeverHarms(Do(s, a), run); }
    } else {
      var run := UnguardedHarms(s, a, v);
      assert !Harmless(Do(s, a), run);
    }
  }

  /** The race from the moment the first enqueue has linked its node and has yet to store `tail`. */
  lemma RaceAfterPublish<T>(s: Sys<T>, v: T, w: T) returns (run: seq<Action<T>>)
    requires s == Sys([Cell(v, NONE)], {}, 0, NONE, Published(0), Ready, [])
    ensures EnabledRun(s, run) && TouchesFreed(s, run)
    ensures Enqueued(run) == [w] && |DoAll(s, run).taken| == 1
  {
    var s1 := Do(s, LoadHead);
    var s2 := Do(s1, LoadNext);
    assert Inv(s2) && s2.cons == LastSeen(0) && s2.prod == Published(0) && s2.taken == [];
    run := LateStoreDangles(s2, w);
    run := Before(s2, ClearTail, run);
    run := Before(s1, LoadNext, run);
    run := Before(s, LoadHead, run);
  }

  /** The race is reachable from the empty queue: an enqueue interrupted before its last store, one
      dequeue, then a second enqueue. */
  lemma RaceIsReachable<T>(v: T, w: T) returns (run: seq<Action<T>>)
    ensures EnabledRun(Start(), run) && TouchesFreed(Start(), run)
    ensures Enqueued(run) == [v, w] && |DoAll(Start(), run).taken| == 1
  {
    var s1 := Do(Start(), Alloc(v));
    var s2 := Do(s1, LoadTail);
    var s3 := Do(s2, Publish);
    run := RaceAfterPublish(s3, v, w);
    run := Before(s2, Publish, run);
    run := Before(s1, LoadTail, run);
    run := Before(Start(), Alloc(v), run);
  }
}
