/** The queue protocol between dispatch (`enqueue`), `stop`, the volume thread and `Drop`, one shared access
    per step. `enqueue` holds the queue lock from its shutdown check to its push; `stop` sets the flag
    without the lock. */
module IrpQueue {
  import opened Errors
  import opened Requests

  const BURST := 64

  datatype Lock = Free | Unchecked(id: Id) | Checked(id: Id)   // held by the enqueuer of `id`

  /** Where the thread is. `Missing`: thread creation failed. */
  datatype Pc =
    | Missing | Top | Burst(n: nat) | Holding(id: Id, n: nat) | Sweep | Wait | Drain | DrainHolding(id: Id) | Exited

  datatype Outcome = Processed | Cancelled

  /** `presented`, `pushed` and `popped` are histories. */
  datatype State = State(queue: seq<Id>, shutdown: bool, lock: Lock, pc: Pc, rejecting: seq<Id>, cancelFlags: set<Id>,
                         completions: seq<Completion<Outcome>>, presented: seq<Id>, pushed: seq<Id>, popped: seq<Id>,
                         dropped: bool)

  datatype Event =
    | Acquire(id: Id) | Check | Push | CompleteRejected
    | Cancel(id: Id) | Stop
    | Thread
    | DropQueue

  function Init(created: bool): State {
    State([], false, Free, if created then Top else Missing, [], {}, [], [], [], [], false)
  }

  function Complete(s: State, id: Id, o: Outcome): State {
    s.(completions := s.completions + [Completion(id, o)])
  }

  /** One step of `thread_main`; `None` while it waits for the lock or has ended. */
  function ThreadStep(s: State): Option<State> {
    match s.pc
    case Missing => None
    case Exited => None
    case Top => Some(s.(pc := if s.shutdown then Drain else Burst(0)))
    case Burst(n) =>
      if n >= BURST then Some(s.(pc := Sweep))
      else if s.lock != Free then None
      else if s.queue == [] then Some(s.(pc := Sweep))
      else Some(s.(queue := s.queue[1..], popped := s.popped + [s.queue[0]], pc := Holding(s.queue[0], n)))
    case Holding(id, n) =>
      Some(Complete(s, id, if id in s.cancelFlags then Cancelled else Processed).(pc := Burst(n + 1)))
    case Sweep => Some(s.(pc := Wait))
    case Wait => Some(s.(pc := Top))
    case Drain =>
      if s.lock != Free then None
      else if s.queue == [] then Some(s.(pc := Exited))
      else Some(s.(queue := s.queue[1..], popped := s.popped + [s.queue[0]], pc := DrainHolding(s.queue[0])))
    case DrainHolding(id) => Some(Complete(s, id, Cancelled).(pc := Drain))
  }

  function Next(s: State, e: Event): Option<State> {
    match e
    case Acquire(id) =>
      if s.lock != Free || s.dropped || id in s.presented then None
      else Some(s.(lock := Unchecked(id), presented := s.presented + [id]))
    case Check =>
      if !s.lock.Unchecked? then None
      else if s.shutdown then Some(s.(lock := Free, rejecting := s.rejecting + [s.lock.id]))
      else Some(s.(lock := Checked(s.lock.id)))
    case Push =>
      if !s.lock.Checked? then None
      else Some(s.(lock := Free, queue := s.queue + [s.lock.id], pushed := s.pushed + [s.lock.id]))
    case CompleteRejected =>
      if s.rejecting == [] then None else Some(Complete(s, s.rejecting[0], Cancelled).(rejecting := s.rejecting[1..]))
    case Cancel(id) => Some(s.(cancelFlags := s.cancelFlags + {id}))
    case Stop => Some(s.(shutdown := true))
    case Thread => ThreadStep(s)
    case DropQueue =>
      if s.lock != Free || !s.shutdown || !(s.pc == Exited || s.pc == Missing) then None
      else Some(s.(queue := [], popped := s.popped + s.queue,
                   completions := s.completions + AnswerAll(s.queue, Cancelled), dropped := true))
  }

  /** Disabled events do nothing. */
  function After(s: State, es: seq<Event>): State
    decreases |es|
  {
    if es == [] then s
    else After(match Next(s, es[0]) case None => s case Some(t) => t, es[1..])
  }

  // ---- the invariant ----

  function Ids(cs: seq<Completion<Outcome>>): (ids: seq<Id>)
    ensures |ids| == |cs|
  {
    seq(|cs|, i requires 0 <= i < |cs| => cs[i].id)
  }

  function InHand(pc: Pc): seq<Id> {
    match pc
    case Holding(id, _) => [id]
    case DrainHolding(id) => [id]
    case _ => []
  }

  function AtLock(l: Lock): seq<Id> {
    match l case Free => [] case Unchecked(id) => [id] case Checked(id) => [id]
  }

  predicate Conserved(s: State) {
    multiset(s.presented)
    == multiset(Ids(s.completions)) + multiset(s.queue) + multiset(InHand(s.pc)) + multiset(AtLock(s.lock))
       + multiset(s.rejecting)
  }

  predicate Distinct(q: seq<Id>) {
    forall i, j :: 0 <= i < j < |q| ==> q[i] != q[j]
  }

  predicate Leaving(pc: Pc) {
    pc.Drain? || pc.DrainHolding? || pc.Exited?
  }

  predicate Protocol(s: State) {
    && Distinct(s.presented)
    && s.pushed == s.popped + s.queue
    && (Leaving(s.pc) ==> s.shutdown)
    && (s.pc == Exited ==> s.queue == [] && !s.lock.Checked?)
    && (s.rejecting != [] ==> s.shutdown)
  }

  predicate Good(s: State) {
    Conserved(s) && Protocol(s)
  }

  lemma IdsSnoc(cs: seq<Completion<Outcome>>, id: Id, o: Outcome)
    ensures Ids(cs + [Completion(id, o)]) == Ids(cs) + [id]
  {
  }

  lemma HeadTail(q: seq<Id>)
    requires q != []
    ensures multiset(q) == multiset([q[0]]) + multiset(q[1..])
  {
    assert q == [q[0]] + q[1..];
  }

  /** The places a request can be in, as multisets. */
  function Where(s: State): (multiset<Id>, multiset<Id>, multiset<Id>, multiset<Id>, multiset<Id>) {
    (multiset(Ids(s.completions)), multiset(s.queue), multiset(InHand(s.pc)), multiset(AtLock(s.lock)),
        multiset(s.rejecting))
  }

  /** A step that only moves `id` from one place to another conserves requests. */
  lemma Moves(s: State, t: State, id: Id)
    requires Conserved(s) && t.presented == s.presented
    requires var (a, b, c, d, e) := Where(s); var m := multiset{id};
             || Where(t) == (a, b, c, d, e)
             || (c == m && Where(t) == (a + m, b, multiset{}, d, e))
             || (c == multiset{} && m <= b && Where(t) == (a, b - m, m, d, e))
             || (d == m && Where(t) == (a, b + m, c, multiset{}, e))
             || (d == m && Where(t) == (a, b, c, multiset{}, e + m))
             || (m <= e && Where(t) == (a + m, b, c, d, e - m))
    ensures Conserved(t)
  {
    hide Ids, InHand, AtLock;
  }

  lemma Pops(q: seq<Id>)
    requires q != []
    ensures multiset{q[0]} <= multiset(q) && multiset(q[1..]) == multiset(q) - multiset{q[0]}
  {
    HeadTail(q);
  }

  lemma Adds(cs: seq<Completion<Outcome>>, id: Id, o: Outcome)
    ensures multiset(Ids(cs + [Completion(id, o)])) == multiset(Ids(cs)) + multiset{id}
  {
    IdsSnoc(cs, id, o);
  }

  lemma PopConserves(s: State, pc: Pc)
    requires Conserved(s) && s.queue != [] && InHand(s.pc) == [] && InHand(pc) == [s.queue[0]]
    ensures Conserved(s.(queue := s.queue[1..], popped := s.popped + [s.queue[0]], pc := pc))
  {
    hide Ids, Conserved, AtLock, InHand;
    Pops(s.queue);
    Moves(s, s.(queue := s.queue[1..], popped := s.popped + [s.queue[0]], pc := pc), s.queue[0]);
  }

  lemma FinishConserves(s: State, id: Id, o: Outcome, pc: Pc)
    requires Conserved(s) && InHand(s.pc) == [id] && InHand(pc) == []
    ensures Conserved(Complete(s, id, o).(pc := pc))
  {
    hide Ids, Conserved, AtLock, InHand;
    Adds(s.completions, id, o);
    Moves(s, Complete(s, id, o).(pc := pc), id);
  }

  lemma TurnConserves(s: State, pc: Pc)
    requires Conserved(s) && InHand(s.pc) == [] == InHand(pc)
    ensures Conserved(s.(pc := pc))
  {
    hide InHand;
  }

  lemma ThreadConserves(s: State)
    requires Conserved(s) && ThreadStep(s).Some?
    ensures Conserved(ThreadStep(s).value)
  {
    hide Conserved;
    var pc := ThreadStep(s).value.pc;
    match s.pc
    case Holding(id, n) => FinishConserves(s, id, if id in s.cancelFlags then Cancelled else Processed, pc);
    case DrainHolding(id) => FinishConserves(s, id, Cancelled, pc);
    case _ =>
      if InHand(pc) == [] {
        TurnConserves(s, pc);
      } else {
        PopConserves(s, pc);
      }
  }

  lemma CancelledIds(cs: seq<Completion<Outcome>>, q: seq<Id>)
    ensures Ids(cs + AnswerAll(q, Cancelled)) == Ids(cs) + q
  {
  }

  lemma AcquireConserves(s: State, id: Id)
    requires Conserved(s) && Next(s, Acquire(id)).Some?
    ensures Conserved(Next(s, Acquire(id)).value)
  {
    hide Ids, InHand;
  }

  lemma DropConserves(s: State)
    requires Conserved(s) && Next(s, DropQueue).Some?
    ensures Conserved(Next(s, DropQueue).value)
  {
    hide InHand, AnswerAll, Ids;
    CancelledIds(s.completions, s.queue);
  }

  /** The enqueuer inside the lock moves on. */
  lemma LockConserves(s: State, e: Event)
    requires Conserved(s) && (e == Check || e == Push) && Next(s, e).Some?
    ensures Conserved(Next(s, e).value)
  {
    hide Ids, Conserved, InHand;
    Moves(s, Next(s, e).value, s.lock.id);
  }

  lemma RejectConserves(s: State)
    requires Conserved(s) && s.rejecting != []
    ensures Conserved(Next(s, CompleteRejected).value)
  {
    hide Ids, Conserved, InHand, AtLock;
    Adds(s.completions, s.rejecting[0], Cancelled);
    Pops(s.rejecting);
    Moves(s, Next(s, CompleteRejected).value, s.rejecting[0]);
  }

  lemma NextConserves(s: State, e: Event)
    requires Conserved(s) && Next(s, e).Some?
    ensures Conserved(Next(s, e).value)
  {
    hide Ids, ThreadStep, AnswerAll, InHand, AtLock;
    match e
    case Thread => ThreadConserves(s);
    case CompleteRejected => RejectConserves(s);
    case DropQueue => DropConserves(s);
    case Acquire(id) => AcquireConserves(s, id);
    case Check => LockConserves(s, e);
    case Push => LockConserves(s, e);
    case Cancel(_) =>
    case Stop =>
  }

  lemma NextKeepsProtocol(s: State, e: Event)
    requires Protocol(s) && Next(s, e).Some?
    ensures Protocol(Next(s, e).value)
  {
    hide AnswerAll;
    var t := Next(s, e).value;
    if e.DropQueue? {
      assert t.popped + [] == s.popped + s.queue;
    } else if e.Thread? && s.queue != [] {
      assert s.popped + s.queue == s.popped + [s.queue[0]] + s.queue[1..];
    } else if e.Push? {
      assert s.popped + s.queue + [s.lock.id] == s.popped + (s.queue + [s.lock.id]);
    }
  }

  lemma NextKeepsGood(s: State, e: Event)
    requires Good(s) && Next(s, e).Some?
    ensures Good(Next(s, e).value)
  {
    hide Next, Conserved, Protocol;
    NextConserves(s, e);
    NextKeepsProtocol(s, e);
  }

  /** Every interleaving keeps the invariant. */
  lemma {:induction false} AlwaysGood(s: State, es: seq<Event>)
    requires Good(s)
    ensures Good(After(s, es))
    decreases |es|
  {
    hide Good, Next;
    if es != [] {
      if Next(s, es[0]).Some? {
        NextKeepsGood(s, es[0]);
      }
      AlwaysGood(match Next(s, es[0]) case None => s case Some(t) => t, es[1..]);
    }
  }

  // ---- conservation ----

  /** Nothing is in flight any more. */
  predicate Quiet(s: State) {
    s.lock == Free && s.rejecting == [] && InHand(s.pc) == [] && s.queue == []
  }

  function Count(cs: seq<Completion<Outcome>>, id: Id): nat {
    multiset(Ids(cs))[id]
  }

  lemma {:induction false} DistinctCount(q: seq<Id>, id: Id)
    requires Distinct(q)
    ensures multiset(q)[id] == if id in q then 1 else 0
    decreases |q|
  {
    if q != [] {
      HeadTail(q);
      DistinctCount(q[1..], id);
      assert id in q <==> id == q[0] || id in q[1..];
    }
  }

  /** At no point of any run is a request completed twice, or completed without having been presented; once
      nothing is in flight every presented request was completed exactly once. */
  lemma CompletedExactlyOnce(created: bool, es: seq<Event>, id: Id)
    ensures var s := After(Init(created), es);
            && Count(s.completions, id) <= (if id in s.presented then 1 else 0)
            && (Quiet(s) ==> Count(s.completions, id) == if id in s.presented then 1 else 0)
  {
    hide After, Ids, Distinct;
    StartsGood(created);
    AlwaysGood(Init(created), es);
    var s := After(Init(created), es);
    assert Conserved(s);
    DistinctCount(s.presented, id);
  }

  lemma StartsGood(created: bool)
    ensures Good(Init(created))
  {
  }

  /** Once the thread has exited and the enqueuers it raced have left, nothing is in flight. */
  lemma ExitIsQuiet(created: bool, es: seq<Event>)
    ensures var s := After(Init(created), es); s.pc == Exited && s.lock == Free && s.rejecting == [] ==> Quiet(s)
  {
    hide After, Conserved;
    StartsGood(created);
    AlwaysGood(Init(created), es);
  }

  // ---- order ----

  /** Requests leave the queue in the order they entered it. */
  lemma FirstInFirstOut(created: bool, es: seq<Event>)
    ensures var s := After(Init(created), es); s.popped <= s.pushed && s.pushed == s.popped + s.queue
  {
    hide After, Conserved;
    StartsGood(created);
    AlwaysGood(Init(created), es);
  }

  // ---- how each request ends ----

  /** Step `e` from `s` may complete a request so: as processed only in the thread's hand and not cancelled; as
      cancelled in its hand and cancelled, or under shutdown when turned away, drained or dropped. */
  predicate Justified(s: State, e: Event, c: Completion<Outcome>) {
    match c.status
    case Processed => e == Thread && s.pc.Holding? && s.pc.id == c.id && c.id !in s.cancelFlags
    case Cancelled =>
      || (e == Thread && s.pc.Holding? && s.pc.id == c.id && c.id in s.cancelFlags)
      || (s.shutdown && e == CompleteRejected && c.id in s.rejecting)
      || (s.shutdown && e == Thread && s.pc == DrainHolding(c.id))
      || (s.shutdown && e == DropQueue && c.id in s.queue)
  }

  /** Completion `j` of the run `es` was added by event `i`, which justifies it. */
  predicate EarnedAt(s: State, es: seq<Event>, i: nat, j: nat)
    requires i < |es| && j < |After(s, es).completions|
  {
    var u := After(s, es[..i]);
    && Next(u, es[i]).Some? && |u.completions| <= j < |Next(u, es[i]).value.completions|
    && Justified(u, es[i], After(s, es).completions[j])
  }

  lemma NextJustified(s: State, e: Event)
    requires Good(s) && Next(s, e).Some?
    ensures var t := Next(s, e).value;
            && s.completions <= t.completions
            && forall j :: |s.completions| <= j < |t.completions| ==> Justified(s, e, t.completions[j])
  {
    hide Conserved, Distinct;
  }

  function Then(s: State, e: Event): State { match Next(s, e) case None => s case Some(t) => t }

  lemma {:induction false} CompletionsGrow(s: State, es: seq<Event>)
    requires Good(s)
    ensures s.completions <= After(s, es).completions
    decreases |es|
  {
    hide Good, Next;
    if es != [] {
      if Next(s, es[0]).Some? {
        NextKeepsGood(s, es[0]);
        NextJustified(s, es[0]);
      }
      CompletionsGrow(Then(s, es[0]), es[1..]);
    }
  }

  /** In every interleaving each completion was added by one step that justifies it. */
  lemma {:induction false} EveryCompletionEarned(s: State, es: seq<Event>, j: nat)
    requires Good(s) && |s.completions| <= j < |After(s, es).completions|
    ensures exists i :: 0 <= i < |es| && EarnedAt(s, es, i, j)
    decreases |es|
  {
    hide Good, Next, Justified;
    if es != [] {
      var t := Then(s, es[0]);
      if Next(s, es[0]).Some? {
        NextKeepsGood(s, es[0]);
        NextJustified(s, es[0]);
      }
      CompletionsGrow(t, es[1..]);
      if j < |t.completions| {
        assert es[..0] == [];
        assert EarnedAt(s, es, 0, j);
      } else {
        EveryCompletionEarned(t, es[1..], j);
        var i :| 0 <= i < |es[1..]| && EarnedAt(t, es[1..], i, j);
        assert es[..i + 1][1..] == es[1..][..i];
        assert EarnedAt(s, es, i + 1, j);
      }
    }
  }

  /** Only `stop` sets the flag and only a cancel of `id` marks it. */
  lemma {:induction false} FlagsComeFromEvents(s: State, es: seq<Event>, id: Id)
    ensures After(s, es).shutdown ==> s.shutdown || Stop in es
    ensures id in After(s, es).cancelFlags ==> id in s.cancelFlags || Cancel(id) in es
    decreases |es|
  {
    if es != [] {
      FlagsComeFromEvents(Then(s, es[0]), es[1..], id);
    }
  }

  /** A request that nobody cancels, on a queue that nobody stops, never completes as cancelled. */
  lemma ProcessedUnlessCancelled(created: bool, es: seq<Event>, j: nat)
    requires j < |After(Init(created), es).completions| && Stop !in es
    requires Cancel(After(Init(created), es).completions[j].id) !in es
    ensures After(Init(created), es).completions[j].status == Processed
  {
    hide After, Next, Conserved;
    StartsGood(created);
    EveryCompletionEarned(Init(created), es, j);
    var i :| 0 <= i < |es| && EarnedAt(Init(created), es, i, j);
    FlagsComeFromEvents(Init(created), es[..i], After(Init(created), es).completions[j].id);
  }

  /** Marks stay. */
  lemma {:induction false} MarksStay(s: State, es: seq<Event>, id: Id)
    requires id in s.cancelFlags
    ensures id in After(s, es).cancelFlags
    decreases |es|
  {
    if es != [] {
      MarksStay(Then(s, es[0]), es[1..], id);
    }
  }

  /** A cancelled request that is not completed yet completes as cancelled. */
  lemma CancelTakesEffect(s: State, id: Id, es: seq<Event>, j: nat)
    requires Good(s) && |s.completions| <= j < |After(s, [Cancel(id)] + es).completions|
    requires After(s, [Cancel(id)] + es).completions[j].id == id
    ensures After(s, [Cancel(id)] + es).completions[j].status == Cancelled
  {
    hide Next, Conserved, Distinct, After;
    var t := Then(s, Cancel(id));
    CancelMarks(s, id);
    AfterFirst(s, Cancel(id), es);
    EveryCompletionEarned(t, es, j);
    var i :| 0 <= i < |es| && EarnedAt(t, es, i, j);
    MarksStay(t, es[..i], id);
  }

  lemma CancelMarks(s: State, id: Id)
    requires Good(s)
    ensures var t := Then(s, Cancel(id)); Good(t) && id in t.cancelFlags && t.completions == s.completions
  {
    hide Conserved, Distinct;
    NextKeepsGood(s, Cancel(id));
  }

  lemma AfterFirst(s: State, e: Event, es: seq<Event>)
    ensures After(s, [e] + es) == After(Then(s, e), es)
  {
    assert ([e] + es)[1..] == es;
  }

  // ---- progress while nobody stops the thread ----

  function Threads(k: nat): (es: seq<Event>)
    ensures |es| == k
  {
    seq(k, _ => Thread)
  }

  lemma OneThread(s: State, k: nat)
    ensures After(s, Threads(0)) == s
    ensures k > 0 ==> After(s, Threads(k)) == After(Then(s, Thread), Threads(k - 1))
  {
    if k > 0 {
      assert Threads(k)[1..] == Threads(k - 1);
    }
  }

  /** `t` took the oldest request of `s` and no other. */
  predicate Claimed(s: State, t: State)
    requires s.queue != []
  {
    t.popped == s.popped + [s.queue[0]] && t.queue == s.queue[1..] && t.pc.Holding? && t.pc.id == s.queue[0]
  }

  function ToClaim(pc: Pc): nat {
    match pc
    case Top => 2
    case Burst(n) => if n < BURST then 1 else 5
    case Holding(_, n) => if n + 1 < BURST then 2 else 6
    case Sweep => 4
    case _ => 3
  }

  lemma {:induction false} ClaimedThen(s: State)
    requires !s.shutdown && !Leaving(s.pc) && s.lock == Free && s.queue != [] && s.pc != Missing
    ensures Claimed(s, After(s, Threads(ToClaim(s.pc))))
    decreases ToClaim(s.pc)
  {
    hide After;
    OneThread(s, ToClaim(s.pc));
    var t := Then(s, Thread);
    if ToClaim(s.pc) == 1 {
      OneThread(t, 0);
    } else {
      ClaimedThen(t);
    }
  }

  /** While nobody stops the thread and the lock is free, the oldest request is in its hand after at most six of its
      steps, whatever it was doing; */
  lemma HeadIsClaimed(s: State)
    requires Good(s) && !s.shutdown && s.lock == Free && s.queue != [] && s.pc != Missing
    ensures exists k :: 1 <= k <= 6 && Claimed(s, After(s, Threads(k)))
  {
    hide Conserved, Distinct, After;
    ClaimedThen(s);
    assert 1 <= ToClaim(s.pc) <= 6;
  }

  /** and nothing else that happens moves the thread or puts another request before it. */
  lemma OthersDoNotOvertake(s: State, e: Event)
    requires Good(s) && !s.shutdown && s.queue != [] && e != Thread && Next(s, e).Some?
    ensures var t := Next(s, e).value; t.pc == s.pc && s.queue <= t.queue && t.popped == s.popped
  {
    hide Conserved, Distinct;
  }

  /** From the top of the loop, requests taken before the next batch: at most 64. */
  predicate BeforeSweep(s: State, es: seq<Event>)
    decreases |es|
  {
    s.pc != Sweep && (es != [] ==> BeforeSweep(Then(s, es[0]), es[1..]))
  }

  predicate InBurst(pc: Pc, budget: nat) {
    match pc
    case Top => budget == 64
    case Burst(n) => n + budget == 64
    case Holding(_, n) => n + 1 + budget == 64
    case _ => false
  }

  lemma BudgetStep(s: State, e: Event, budget: nat) returns (left: nat)
    requires InBurst(s.pc, budget) && Then(s, e).pc != Sweep && !Then(s, e).shutdown
    ensures InBurst(Then(s, e).pc, left) && left <= budget
    ensures |Then(s, e).popped| + left == |s.popped| + budget
  {
    hide AnswerAll;
    left := if e == Thread && Then(s, e).pc.Holding? && s.pc.Burst? then budget - 1 else budget;
  }

  lemma {:induction false} Budget(s: State, es: seq<Event>, budget: nat)
    requires BeforeSweep(s, es) && !After(s, es).shutdown && InBurst(s.pc, budget)
    ensures |After(s, es).popped| <= |s.popped| + budget
    decreases |es|
  {
    hide InBurst, Next;
    if es != [] {
      var t := Then(s, es[0]);
      StopStays(t, es[1..]);
      var left := BudgetStep(s, es[0], budget);
      Budget(t, es[1..], left);
    }
  }

  lemma {:induction false} StopStays(s: State, es: seq<Event>)
    ensures s.shutdown ==> After(s, es).shutdown
    decreases |es|
  {
    if es != [] {
      StopStays(Then(s, es[0]), es[1..]);
    }
  }

  /** Requests cannot starve the sweep: between two batches the thread takes at most 64 of them. */
  lemma AtMost64(s: State, es: seq<Event>)
    requires Good(s) && s.pc == Top && BeforeSweep(s, es) && !After(s, es).shutdown
    ensures |After(s, es).popped| <= |s.popped| + 64
  {
    hide After, BeforeSweep, Good;
    Budget(s, es, 64);
  }

  lemma {:induction false} BurstFrom(s: State, n: nat)
    requires s.pc == Burst(n) && n <= 64 && s.lock == Free && |s.queue| >= 64 - n
    ensures var t := After(s, Threads(2 * (64 - n) + 1));
            t.pc == Sweep && t.popped == s.popped + s.queue[..64 - n] && t.queue == s.queue[64 - n..]
    decreases 64 - n
  {
    hide After;
    OneThread(s, 2 * (64 - n) + 1);
    var t := Then(s, Thread);
    if n == 64 {
      OneThread(t, 0);
    } else {
      OneThread(t, 2 * (64 - n));
      var u := Then(t, Thread);
      BurstFrom(u, n + 1);
      assert s.queue[..64 - n] == [s.queue[0]] + u.queue[..64 - (n + 1)];
    }
  }

  /** With as many waiting it takes exactly 64, in order. */
  lemma Takes64(s: State)
    requires s.pc == Top && !s.shutdown && s.lock == Free && |s.queue| >= 64
    ensures var t := After(s, Threads(130));
            t.pc == Sweep && t.popped == s.popped + s.queue[..64] && t.queue == s.queue[64..]
  {
    hide After;
    OneThread(s, 130);
    BurstFrom(Then(s, Thread), 0);
  }

  // ---- exit ----

  /** From any reachable state in which the thread has exited, the queue is empty and stays empty whatever
      enqueuers still do; they are all turned away. */
  lemma {:induction false} EmptyAfterExit(s: State, es: seq<Event>)
    requires Good(s) && s.pc == Exited
    ensures var t := After(s, es); t.pc == Exited && t.queue == [] && t.pushed == s.pushed
    decreases |es|
  {
    hide Conserved, Distinct;
    if es != [] {
      if Next(s, es[0]).Some? {
        NextKeepsGood(s, es[0]);
      }
      EmptyAfterExit(match Next(s, es[0]) case None => s case Some(t) => t, es[1..]);
    }
  }

  /** Thread steps left until exit, once shutdown is set: every queued request, the one an enqueuer may still
      push, and the rest of the current turn. */
  function StepsLeft(s: State): nat {
    var left := 2 * (|s.queue| + if s.lock.Checked? then 1 else 0);
    match s.pc
    case Missing => 0
    case Exited => 0
    case Drain => left + 1
    case DrainHolding(_) => left + 2
    case Top => left + 2
    case Wait => left + 3
    case Sweep => left + 4
    case Burst(n) => left + 5 + 2 * BudgetLeft(n)
    case Holding(_, n) => left + 6 + 2 * BudgetLeft(n + 1)
  }

  function BudgetLeft(n: nat): nat {
    if n < BURST then BURST - n else 0
  }

  /** After `stop` sets the flag each thread step brings exit nearer, nothing else puts it off, and the thread
      is only ever held up by an enqueuer inside the lock, who can always go on. So `stop` returns. */
  lemma StopEndsThread(s: State, e: Event)
    requires s.shutdown && Good(s)
    ensures Next(s, e).Some? ==>
              && Next(s, e).value.shutdown
              && if e == Thread then StepsLeft(Next(s, e).value) < StepsLeft(s)
                 else StepsLeft(Next(s, e).value) <= StepsLeft(s)
    ensures StepsLeft(s) == 0 <==> s.pc == Exited || s.pc == Missing
    ensures StepsLeft(s) > 0 ==> Next(s, Thread).Some? || Next(s, Check).Some? || Next(s, Push).Some?
  {
    hide Conserved, Distinct;
  }

  lemma {:induction false} ThreadsExit(s: State) returns (k: nat)
    requires s.shutdown && Good(s) && s.lock == Free && s.pc != Missing
    ensures k <= StepsLeft(s)
    ensures var t := After(s, Threads(k)); t.pc == Exited && t.queue == []
    decreases StepsLeft(s)
  {
    hide After, Next, Conserved, Distinct, StepsLeft;
    StopEndsThread(s, Thread);
    if s.pc == Exited {
      k := 0;
      OneThread(s, 0);
    } else {
      LockStaysFree(s);
      NextKeepsGood(s, Thread);
      var more := ThreadsExit(Then(s, Thread));
      k := more + 1;
      OneThread(s, k);
    }
  }

  lemma LockStaysFree(s: State)
    requires s.lock == Free && s.pc != Missing && s.pc != Exited
    ensures Next(s, Thread).Some? && Then(s, Thread).lock == Free && Then(s, Thread).pc != Missing
  {
  }

  /** `stop` ends the thread within two steps a queued request and the rest of one turn, and leaves the queue empty. */
  lemma StopReturns(s: State)
    requires Good(s) && s.lock == Free && s.pc != Missing
    ensures exists k :: 0 <= k <= 2 * |s.queue| + 134 && Stopped(After(s, [Stop] + Threads(k)))
  {
    hide After, Conserved, Distinct;
    var t := Then(s, Stop);
    NextKeepsGood(s, Stop);
    var k := ThreadsExit(t);
    AfterFirst(s, Stop, Threads(k));
    assert StepsLeft(t) <= 2 * |s.queue| + 134;
  }

  predicate Stopped(t: State) { t.pc == Exited && t.queue == [] }

  // ---- a thread that was never created ----

  predicate NoDrop(es: seq<Event>) {
    forall i :: 0 <= i < |es| ==> es[i] != DropQueue
  }

  /** If thread creation failed, nothing queued is ever completed before the object is dropped: every request
      whose enqueuer got past the shutdown check just waits. */
  lemma {:induction false} WithoutThreadRequestsWait(s: State, es: seq<Event>)
    requires s.pc == Missing && s.queue == s.pushed && NoDrop(es)
    ensures var t := After(s, es);
            t.pc == Missing && t.queue == t.pushed && t.popped == s.popped && s.pushed <= t.pushed
    decreases |es|
  {
    if es != [] {
      WithoutThreadRequestsWait(match Next(s, es[0]) case None => s case Some(t) => t, es[1..]);
    }
  }
}
