/** The queue protocol and the volume together: every interleaving of enqueuers, cancellation, stop, direction
    changes and the thread, with what the requests it processes get back. */
module ThreadSystem {
  import opened Bytes
  import opened Errors
  import opened Layout
  import opened Metadata
  import opened Sectors
  import opened Store
  import opened DataPath
  import opened Sweep
  import opened Volume
  import opened Invariant
  import opened Harm
  import opened Transparency
  import opened Requests
  import opened VolumeThreads
  import Q = IrpQueue

  datatype Answer = Answer(id: Id, output: Output)

  /** `D` is what serves the requests: the encrypted volume, or the plain disk. */
  datatype System<D> = System(q: Q.State, disk: D, answers: seq<Answer>)

  /** A protocol event, with how far a write gets and how a batch ends; or a handler taking the engine lock. */
  datatype Event = Protocol(e: Q.Event, k: nat, o: Outcome) | Control(s: Step)

  function StepOf(irp: Irp, k: nat): Step {
    if irp.write then Write(irp.lba, irp.data, if k <= |irp.data| then k else |irp.data|) else Read(irp.lba, irp.n)
  }

  /** What the thread does to the disk when it moves on from `q`: nothing, a request, or a batch. */
  function Work(req: Id -> Irp, q: Q.State, e: Event): Option<Step> {
    if e.Control? then Some(e.s)
    else if !e.e.Thread? then None
    else
      match q.pc
      case Holding(id, _) =>
        if id in q.cancelFlags || (!req(id).mapped && req(id).Size() > 0) then None else Some(StepOf(req(id), e.k))
      case Sweep => Some(SweepOnce(BATCH_SECTORS, e.o))
      case _ => None
  }

  /** The answer given at that move, `out` being what the disk returned. */
  function Answered(q: Q.State, e: Event, out: Option<Output>): seq<Answer> {
    if e.Control? || !e.e.Thread? || !q.pc.Holding? || q.pc.id in q.cancelFlags then []
    else [Answer(q.pc.id, match out case Some(o) => o case None => IoError)]
  }

  /** The protocol's next state; disabled events and handlers leave it alone. */
  function Protocols(q: Q.State, e: Event): Q.State {
    if e.Control? then q else match Q.Next(q, e.e) case None => q case Some(t) => t
  }

  predicate Enabled(q: Q.State, e: Event) { e.Control? || Q.Next(q, e.e).Some? }

  function Next(cfg: Config, req: Id -> Irp, s: System<Machine>, e: Event): (t: System<Machine>)
    requires s.disk.core.WellFormed()
    ensures t.disk.core.WellFormed() && t.q == Protocols(s.q, e)
  {
    if !Enabled(s.q, e) then s
    else
      match Work(req, s.q, e)
      case None => System(Protocols(s.q, e), s.disk, s.answers + Answered(s.q, e, None))
      case Some(step) =>
        var (m, out) := Exec(cfg, s.disk, step);
        System(Protocols(s.q, e), m, s.answers + Answered(s.q, e, Some(out)))
  }

  function PlainNext(fr: Frame, req: Id -> Irp, s: System<seq<Sector>>, e: Event): (t: System<seq<Sector>>)
    ensures t.q == Protocols(s.q, e)
  {
    if !Enabled(s.q, e) then s
    else
      match Work(req, s.q, e)
      case None => System(Protocols(s.q, e), s.disk, s.answers + Answered(s.q, e, None))
      case Some(step) =>
        var (p, out) := PlainExec(fr, s.disk, step);
        System(Protocols(s.q, e), p, s.answers + Answered(s.q, e, Some(out)))
  }

  function After(cfg: Config, req: Id -> Irp, s: System<Machine>, es: seq<Event>): (t: System<Machine>)
    requires s.disk.core.WellFormed()
    ensures t.disk.core.WellFormed()
    decreases |es|
  {
    if es == [] then s else After(cfg, req, Next(cfg, req, s, es[0]), es[1..])
  }

  function PlainAfter(fr: Frame, req: Id -> Irp, s: System<seq<Sector>>, es: seq<Event>): System<seq<Sector>>
    decreases |es|
  {
    if es == [] then s else PlainAfter(fr, req, PlainNext(fr, req, s, es[0]), es[1..])
  }

  /** Batches complete or write nothing; handlers start or pause the sweep. */
  predicate EventOk(e: Event) {
    match e
    case Protocol(_, _, o) => o.Completes? || o == DataStops(0)
    case Control(s) => s.StartSweep? || s.PauseSweep?
  }

  ghost predicate RequestsOk(l: Layout, req: Id -> Irp)
    requires l.Accepted()
  {
    forall id: Id :: RequestOk(l, req(id))
  }

  // ---- refinement ----

  predicate SameAs(cfg: Config, s: System<Machine>, t: System<seq<Sector>>)
    requires s.disk.core.WellFormed()
  {
    s.q == t.q && s.answers == t.answers && View(cfg, s.disk) == t.disk
  }

  lemma WorkAdmissible(cfg: Config, req: Id -> Irp, q: Q.State, m: Machine, e: Event)
    requires Inv(cfg, m) && RequestsOk(m.core.store.layout, req) && EventOk(e)
    requires Work(req, q, e).Some?
    ensures Admissible(cfg, m, Work(req, q, e).value)
  {
    hide AllHold, StoreState.HeaderMatches, View, InRange, Layout.Off, Layout.Data;
    WellFormedLayout(m.core);
    if e.Protocol? {
      match q.pc
      case Holding(id, _) => assert RequestOk(m.core.store.layout, req(id));
      case Sweep => BatchAdmissible(cfg, m, e.o);
      case _ =>
    }
  }

  lemma NextRefines(cfg: Config, req: Id -> Irp, s: System<Machine>, t: System<seq<Sector>>, e: Event)
    requires Inv(cfg, s.disk) && RequestsOk(s.disk.core.store.layout, req) && EventOk(e) && SameAs(cfg, s, t)
    ensures var s', t' := Next(cfg, req, s, e), PlainNext(FrameOf(s.disk), req, t, e);
            && Inv(cfg, s'.disk) && SameAs(cfg, s', t')
            && FrameOf(s'.disk) == FrameOf(s.disk) && s'.disk.core.store.layout == s.disk.core.store.layout
  {
    hide AllHold, StoreState.HeaderMatches, View, Exec, PlainExec, Admissible, FrameOf, RequestsOk, Work, Answered,
         Protocols, Enabled, EventOk;
    if Enabled(s.q, e) && Work(req, s.q, e).Some? {
      WorkAdmissible(cfg, req, s.q, s.disk, e);
      StepRefines(cfg, s.disk, Work(req, s.q, e).value);
    }
  }

  /** In every interleaving each processed request gets exactly the plain disk's answer, and the volume's view ends
      as the plain disk's contents. */
  lemma {:induction false} InterleavingsRefine(cfg: Config, req: Id -> Irp, s: System<Machine>, t: System<seq<Sector>>,
                                               es: seq<Event>)
    requires Inv(cfg, s.disk) && RequestsOk(s.disk.core.store.layout, req) && SameAs(cfg, s, t)
    requires forall i :: 0 <= i < |es| ==> EventOk(es[i])
    ensures var s', t' := After(cfg, req, s, es), PlainAfter(FrameOf(s.disk), req, t, es);
            Inv(cfg, s'.disk) && SameAs(cfg, s', t')
    decreases |es|
  {
    hide AllHold, StoreState.HeaderMatches, View, Next, PlainNext, FrameOf, RequestsOk, EventOk;
    if es != [] {
      NextRefines(cfg, req, s, t, es[0]);
      InterleavingsRefine(cfg, req, Next(cfg, req, s, es[0]), PlainNext(FrameOf(s.disk), req, t, es[0]), es[1..]);
    }
  }

  // ---- order ----

  /** `a` is `b` with some elements left out. */
  predicate Within(a: seq<Id>, b: seq<Id>)
    decreases |b|
  {
    || a == []
    || (b != [] && Within(a, b[..|b| - 1]))
    || (b != [] && a[|a| - 1] == b[|b| - 1] && Within(a[..|a| - 1], b[..|b| - 1]))
  }

  lemma WithinMore(a: seq<Id>, b: seq<Id>, x: Id)
    requires Within(a, b)
    ensures Within(a, b + [x]) && Within(a + [x], b + [x])
  {
    assert (b + [x])[..|b|] == b && (a + [x])[..|a|] == a;
  }

  function AnswerIds(as_: seq<Answer>): (ids: seq<Id>)
    ensures |ids| == |as_|
  {
    seq(|as_|, i requires 0 <= i < |as_| => as_[i].id)
  }

  lemma {:induction false} WithinAll(a: seq<Id>, b: seq<Id>, c: seq<Id>)
    requires Within(a, b)
    ensures Within(a, b + c)
    decreases |c|
  {
    if c == [] {
      assert b + c == b;
    } else {
      WithinAll(a, b, c[..|c| - 1]);
      assert (b + c)[..|b + c| - 1] == b + c[..|c| - 1];
    }
  }

  /** The answered requests are popped ones other than the one in hand, in the order they were popped. */
  ghost predicate InPopOrder(q: Q.State, answers: seq<Answer>) {
    exists done: seq<Id> :: PoppedBefore(q, done) && Within(AnswerIds(answers), done)
  }

  ghost predicate PoppedBefore(q: Q.State, done: seq<Id>) {
    q.popped == done + Q.InHand(q.pc)
  }

  lemma AnswerIdsSnoc(answers: seq<Answer>, more: seq<Answer>)
    ensures AnswerIds(answers + more) == AnswerIds(answers) + AnswerIds(more)
  {
  }

  /** The request in hand is done with: answered or cancelled. */
  lemma FinishKeepsOrder(q: Q.State, t: Q.State, answers: seq<Answer>, id: Id, more: seq<Answer>)
    requires InPopOrder(q, answers) && Q.InHand(q.pc) == [id] && t.popped == q.popped && Q.InHand(t.pc) == []
    requires more == [] || AnswerIds(more) == [id]
    ensures InPopOrder(t, answers + more)
  {
    hide Within, AnswerIds, Q.InHand;
    var done :| PoppedBefore(q, done) && Within(AnswerIds(answers), done);
    assert done + [id] + [] == done + [id];
    assert PoppedBefore(t, done + [id]);
    WithinMore(AnswerIds(answers), done, id);
    AnswerIdsSnoc(answers, more);
    assert answers + [] == answers;
  }

  /** One more was popped into the hand, or nothing was. */
  lemma PopKeepsOrder(q: Q.State, t: Q.State, answers: seq<Answer>)
    requires InPopOrder(q, answers) && Q.InHand(q.pc) == [] && t.popped == q.popped + Q.InHand(t.pc)
    ensures InPopOrder(t, answers)
  {
    hide Within, AnswerIds, Q.InHand;
    var done :| PoppedBefore(q, done) && Within(AnswerIds(answers), done);
    assert done + [] == done;
    assert PoppedBefore(t, done);
  }

  /** One thread step. */
  lemma ThreadKeepsOrder(q: Q.State, answers: seq<Answer>, e: Event, out: Option<Output>)
    requires InPopOrder(q, answers) && e.Protocol? && e.e.Thread? && Q.Next(q, e.e).Some?
    ensures InPopOrder(Q.Next(q, e.e).value, answers + Answered(q, e, out))
  {
    hide InPopOrder, AnswerIds;
    var t := Q.Next(q, e.e).value;
    assert answers + [] == answers && q.popped + [] == q.popped;
    if q.pc.Holding? {
      OneAnswer(q, e, out);
      FinishKeepsOrder(q, t, answers, q.pc.id, Answered(q, e, out));
    } else if q.pc.DrainHolding? {
      FinishKeepsOrder(q, t, answers, q.pc.id, []);
    } else {
      PopKeepsOrder(q, t, answers);
    }
  }

  lemma OneAnswer(q: Q.State, e: Event, out: Option<Output>)
    requires q.pc.Holding?
    ensures Answered(q, e, out) != [] ==> AnswerIds(Answered(q, e, out)) == [q.pc.id]
  {
  }

  lemma NextKeepsOrder(cfg: Config, req: Id -> Irp, s: System<Machine>, e: Event)
    requires s.disk.core.WellFormed() && InPopOrder(s.q, s.answers)
    ensures InPopOrder(Next(cfg, req, s, e).q, Next(cfg, req, s, e).answers)
  {
    hide Exec, Core.WellFormed, AnswerIds, Within;
    assert s.answers + [] == s.answers;
    if Enabled(s.q, e) && e.Protocol? {
      if e.e.Thread? {
        var out := match Work(req, s.q, e) case None => None case Some(step) => Some(Exec(cfg, s.disk, step).1);
        ThreadKeepsOrder(s.q, s.answers, e, out);
      } else {
        OthersKeepOrder(s.q, s.answers, e.e);
      }
    }
  }

  lemma OthersKeepOrder(q: Q.State, answers: seq<Answer>, e: Q.Event)
    requires InPopOrder(q, answers) && !e.Thread? && Q.Next(q, e).Some?
    ensures InPopOrder(Q.Next(q, e).value, answers)
  {
    var done :| PoppedBefore(q, done) && Within(AnswerIds(answers), done);
    var t := Q.Next(q, e).value;
    if e.DropQueue? {
      WithinAll(AnswerIds(answers), done, q.queue);
      assert PoppedBefore(t, done + q.queue);
    } else {
      assert PoppedBefore(t, done);
    }
  }

  lemma {:induction false} AnswersInPopOrder(cfg: Config, req: Id -> Irp, s: System<Machine>, es: seq<Event>)
    requires s.disk.core.WellFormed() && InPopOrder(s.q, s.answers)
    ensures InPopOrder(After(cfg, req, s, es).q, After(cfg, req, s, es).answers)
    decreases |es|
  {
    hide InPopOrder, Next;
    if es != [] {
      NextKeepsOrder(cfg, req, s, es[0]);
      AnswersInPopOrder(cfg, req, Next(cfg, req, s, es[0]), es[1..]);
    }
  }

  // ---- answers and completions ----

  /** Requests the protocol completed as processed, in order. */
  function ProcessedIds(cs: seq<Completion<Q.Outcome>>): seq<Id> {
    if cs == [] then []
    else
      var last := cs[|cs| - 1];
      ProcessedIds(cs[..|cs| - 1]) + if last.status == Q.Processed then [last.id] else []
  }

  lemma ProcessedSnoc(cs: seq<Completion<Q.Outcome>>, c: Completion<Q.Outcome>)
    ensures ProcessedIds(cs + [c]) == ProcessedIds(cs) + if c.status == Q.Processed then [c.id] else []
  {
    assert (cs + [c])[..|cs|] == cs;
  }

  lemma {:induction false} NoneProcessed(cs: seq<Completion<Q.Outcome>>, ids: seq<Id>)
    ensures ProcessedIds(cs + AnswerAll(ids, Q.Cancelled)) == ProcessedIds(cs)
    decreases |ids|
  {
    var done := cs + AnswerAll(ids, Q.Cancelled);
    if ids == [] {
      assert done == cs;
    } else {
      var n := |ids| - 1;
      NoneProcessed(cs, ids[..n]);
      assert done == (cs + AnswerAll(ids[..n], Q.Cancelled)) + [Completion(ids[n], Q.Cancelled)];
      ProcessedSnoc(cs + AnswerAll(ids[..n], Q.Cancelled), Completion(ids[n], Q.Cancelled));
    }
  }

  /** The protocol's record and the answers given agree on who was served. */
  predicate AnswersProcessed(q: Q.State, answers: seq<Answer>) {
    AnswerIds(answers) == ProcessedIds(q.completions)
  }

  lemma MoveAnswersProcessed(q: Q.State, answers: seq<Answer>, e: Event, out: Option<Output>)
    requires AnswersProcessed(q, answers) && e.Protocol? && Q.Next(q, e.e).Some?
    ensures AnswersProcessed(Q.Next(q, e.e).value, answers + Answered(q, e, out))
  {
    hide ProcessedIds, AnswerIds;
    AnswerIdsSnoc(answers, Answered(q, e, out));
    assert AnswerIds([]) == [] by { NoAnswers(); }
    match e.e
    case Thread =>
      if q.pc.Holding? {
        OneAnswer(q, e, out);
        ProcessedSnoc(q.completions,
            Completion(q.pc.id, if q.pc.id in q.cancelFlags then Q.Cancelled else Q.Processed));
      } else if q.pc.DrainHolding? {
        ProcessedSnoc(q.completions, Completion(q.pc.id, Q.Cancelled));
      }
    case CompleteRejected => ProcessedSnoc(q.completions, Completion(q.rejecting[0], Q.Cancelled));
    case DropQueue => NoneProcessed(q.completions, q.queue);
    case _ =>
  }

  lemma NoAnswers()
    ensures AnswerIds([]) == []
  {
  }

  /** Whoever is completed as processed was answered, and nobody else, in the same order. */
  lemma {:induction false} ProcessedAreAnswered(cfg: Config, req: Id -> Irp, s: System<Machine>, es: seq<Event>)
    requires s.disk.core.WellFormed() && AnswersProcessed(s.q, s.answers)
    ensures AnswersProcessed(After(cfg, req, s, es).q, After(cfg, req, s, es).answers)
    decreases |es|
  {
    hide AnswersProcessed, Exec, Q.Next, Work, Answered, Core.WellFormed;
    if es != [] {
      var e := es[0];
      if Enabled(s.q, e) && e.Protocol? {
        var out := match Work(req, s.q, e) case None => None case Some(step) => Some(Exec(cfg, s.disk, step).1);
        MoveAnswersProcessed(s.q, s.answers, e, out);
      } else {
        ControlAnswersNobody(s.q, e);
        assert s.answers + [] == s.answers;
      }
      ProcessedAreAnswered(cfg, req, Next(cfg, req, s, e), es[1..]);
    }
  }

  lemma ControlAnswersNobody(q: Q.State, e: Event)
    ensures e.Control? ==> forall out :: Answered(q, e, out) == []
  {
  }

  /** What a thread step does to the volume: a claimed request is performed and answered as it was made, with a write
      reaching as far as the device lets it; a cancelled or unmappable one touches nothing; between bursts one batch of
      2048 sectors runs. */
  lemma ThreadWork(cfg: Config, req: Id -> Irp, s: System<Machine>, k: nat, o: Outcome)
    requires s.disk.core.WellFormed() && Q.Next(s.q, Q.Thread).Some?
    ensures var t := Next(cfg, req, s, Protocol(Q.Thread, k, o));
            && (s.q.pc.Holding? ==>
                  var id := s.q.pc.id;
                  var irp := req(id);
                  var size := if irp.write then |irp.data| else irp.n;
                  if id in s.q.cancelFlags then t.disk == s.disk && t.answers == s.answers
                  else if !irp.mapped && size > 0 then
                    t.disk == s.disk && t.answers == s.answers + [Answer(id, IoError)]
                  else
                    var step := if irp.write then Write(irp.lba, irp.data, if k <= size then k else size)
                      else Read(irp.lba, irp.n);
                    var (m, out) := Exec(cfg, s.disk, step);
                    t.disk == m && t.answers == s.answers + [Answer(id, out)])
            && (s.q.pc == Q.Sweep ==>
                  t.disk == Exec(cfg, s.disk, SweepOnce(2048, o)).0 && t.answers == s.answers)
            && (!s.q.pc.Holding? && s.q.pc != Q.Sweep ==> t.disk == s.disk && t.answers == s.answers)
  {
    hide Exec, Core.WellFormed;
    assert s.answers + [] == s.answers;
  }

  /** A handler takes its step on the volume between two of the thread's; the queue's other events leave it alone. */
  lemma OtherWork(cfg: Config, req: Id -> Irp, s: System<Machine>, e: Event)
    requires s.disk.core.WellFormed() && (e.Control? || e.e != Q.Thread)
    ensures var t := Next(cfg, req, s, e);
            && t.disk == (if e.Control? then Exec(cfg, s.disk, e.s).0 else s.disk) && t.answers == s.answers
            && (e.Control? ==> t.q == s.q)
  {
    hide Exec, Core.WellFormed, Q.Next;
    assert s.answers + [] == s.answers;
  }

  // ---- the whole statement ----

  function QueueEvents(es: seq<Event>): seq<Q.Event> {
    if es == [] then [] else (if es[0].Protocol? then [es[0].e] else []) + QueueEvents(es[1..])
  }

  /** The queue runs as it does alone, so all that is proved of it holds here. */
  lemma {:induction false} QueueAlone(cfg: Config, req: Id -> Irp, s: System<Machine>, es: seq<Event>)
    requires s.disk.core.WellFormed()
    ensures After(cfg, req, s, es).q == Q.After(s.q, QueueEvents(es))
    decreases |es|
  {
    hide Exec, Q.Next, Work, Answered;
    if es != [] {
      QueueAlone(cfg, req, Next(cfg, req, s, es[0]), es[1..]);
      if es[0].Protocol? {
        assert QueueEvents(es)[0] == es[0].e && QueueEvents(es)[1..] == QueueEvents(es[1..]);
      } else {
        assert QueueEvents(es) == QueueEvents(es[1..]);
      }
    }
  }

  /** From a fresh thread on a volume in its invariant, in every interleaving: the processed requests get exactly
      the plain disk's answers, in the order they were popped, which is the order they were queued. */
  lemma ServedInEveryInterleaving(cfg: Config, req: Id -> Irp, m: Machine, es: seq<Event>)
    requires Inv(cfg, m) && RequestsOk(m.core.store.layout, req) && forall i :: 0 <= i < |es| ==> EventOk(es[i])
    ensures var s := After(cfg, req, System(Q.Init(true), m, []), es);
            var t := PlainAfter(FrameOf(m), req, System(Q.Init(true), View(cfg, m), []), es);
            && Inv(cfg, s.disk) && View(cfg, s.disk) == t.disk && s.answers == t.answers
            && InPopOrder(s.q, s.answers) && s.q.popped <= s.q.pushed
            && AnswerIds(s.answers) == ProcessedIds(s.q.completions)
            && s.q == Q.After(Q.Init(true), QueueEvents(es))
  {
    hide AllHold, StoreState.HeaderMatches, View, FrameOf, RequestsOk, EventOk, After, PlainAfter, Q.After,
         QueueEvents, Within;
    var s0 := System(Q.Init(true), m, []);
    InterleavingsRefine(cfg, req, s0, System(Q.Init(true), View(cfg, m), []), es);
    StartInOrder();
    AnswersInPopOrder(cfg, req, s0, es);
    QueueAlone(cfg, req, s0, es);
    Q.FirstInFirstOut(true, QueueEvents(es));
    ProcessedAreAnswered(cfg, req, s0, es);
  }

  lemma StartInOrder()
    ensures InPopOrder(Q.Init(true), [])
  {
    assert PoppedBefore(Q.Init(true), []);
    assert AnswerIds([]) == [];
  }
}
