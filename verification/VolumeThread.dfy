/** The per-volume thread: bursts of user requests between sweep batches, and the final drain. */
module VolumeThreads {
  import opened Bytes
  import opened Errors
  import opened Layout
  import opened Metadata
  import opened Sectors
  import opened Store
  import opened DataPath
  import opened Sweep
  import opened Volume
  import opened Invariant
  import opened Transparency
  import opened AttachedVolumes
  import opened Requests

  const BATCH_SECTORS := 2048
  const MAX_IRP_BURST := 64

  /** A queued request in whole sectors; `cancelled` is what the claim finds, `mapped` whether its buffer can be
      mapped and a private one allocated. */
  datatype Irp = Irp(id: Id, write: bool, lba: nat, n: nat, data: seq<Sector>, cancelled: bool, mapped: bool) {
    function Size(): nat { if write then |data| else n }

    /** Nothing reaches the disk for it. */
    predicate Skipped() { cancelled || (!mapped && Size() > 0) }
  }

  datatype Status = Success(data: seq<Sector>) | Unsuccessful | Cancelled

  /** A write that reaches the disk and lies on it. */
  predicate WriteFits(irp: Irp, m: Medium) {
    irp.write && !irp.Skipped() && m.Fits(irp.lba, |irp.data|)
  }

  /** Step `s` performs request `irp`; how far a write gets is the medium's choice. */
  predicate Performs(irp: Irp, s: Step) {
    if irp.write then s.Write? && s == Write(irp.lba, irp.data, s.k) && s.k <= |irp.data| else s == Read(irp.lba, irp.n)
  }

  /** `steps` performs the requests of `q` in order, leaving out those nothing reaches the disk for. */
  predicate Services(q: seq<Irp>, steps: seq<Step>)
    decreases |q|
  {
    if q == [] then steps == []
    else if q[0].Skipped() then Services(q[1..], steps)
    else steps != [] && Performs(q[0], steps[0]) && Services(q[1..], steps[1..])
  }

  predicate Reports(o: Output, s: Status) {
    match o
    case Contents(d) => s == Success(d)
    case Written => s == Success([])
    case _ => s == Unsuccessful
  }

  function Refusal(irp: Irp): Status { if irp.cancelled then Cancelled else Unsuccessful }

  /** `done` completes every request of `q` once and in order, with what its step returned. */
  predicate Answers(q: seq<Irp>, outs: seq<Output>, done: seq<Completion<Status>>)
    decreases |q|
  {
    if q == [] then outs == [] && done == []
    else
      && done != [] && done[0].id == q[0].id
      && if q[0].Skipped() then done[0].status == Refusal(q[0]) && Answers(q[1..], outs, done[1..])
         else outs != [] && Reports(outs[0], done[0].status) && Answers(q[1..], outs[1..], done[1..])
  }

  lemma {:induction false} RunSnoc(cfg: Config, m: Machine, steps: seq<Step>, s: Step)
    requires m.core.WellFormed()
    ensures var (m1, os) := Run(cfg, m, steps);
            var (m2, o) := Exec(cfg, m1, s);
            Run(cfg, m, steps + [s]) == (m2, os + [o])
    decreases |steps|
  {
    hide Exec, StoreState.HeaderMatches;
    if steps == [] {
      RunOne(cfg, m, s);
      assert steps + [s] == [s] && [] + [Exec(cfg, m, s).1] == [Exec(cfg, m, s).1];
    } else {
      var (m1, o1) := Exec(cfg, m, steps[0]);
      var (m2, os) := Run(cfg, m1, steps[1..]);
      RunSnoc(cfg, m1, steps[1..], s);
      assert (steps + [s])[1..] == steps[1..] + [s] && (steps + [s])[0] == steps[0];
      assert [o1] + os + [Exec(cfg, m2, s).1] == [o1] + (os + [Exec(cfg, m2, s).1]);
    }
  }

  lemma RunOne(cfg: Config, m: Machine, s: Step)
    requires m.core.WellFormed()
    ensures Run(cfg, m, []) == (m, [])
    ensures Run(cfg, m, [s]).0 == Exec(cfg, m, s).0
    ensures Run(cfg, m, [s]).1 == [Exec(cfg, m, s).1]
  {
    hide Exec;
    var m2 := Exec(cfg, m, s).0;
    assert [s][1..] == [];
    assert Run(cfg, m2, []) == (m2, []);
  }

  lemma {:induction false} ServicesSnoc(q: seq<Irp>, steps: seq<Step>, irp: Irp, s: Step)
    requires Services(q, steps)
    ensures irp.Skipped() ==> Services(q + [irp], steps)
    ensures !irp.Skipped() && Performs(irp, s) ==> Services(q + [irp], steps + [s])
    decreases |q|
  {
    hide Performs;
    if q == [] {
      assert q + [irp] == [irp] && steps + [s] == [s];
      assert [irp][1..] == [] && [s][1..] == [];
    } else {
      assert (q + [irp])[1..] == q[1..] + [irp];
      if q[0].Skipped() {
        ServicesSnoc(q[1..], steps, irp, s);
      } else {
        ServicesSnoc(q[1..], steps[1..], irp, s);
        assert (steps + [s])[1..] == steps[1..] + [s];
      }
    }
  }

  lemma {:induction false} AnswersSnoc(q: seq<Irp>, outs: seq<Output>, done: seq<Completion<Status>>, irp: Irp,
                                       o: Output, c: Completion<Status>)
    requires Answers(q, outs, done) && c.id == irp.id
    ensures irp.Skipped() && c.status == Refusal(irp) ==> Answers(q + [irp], outs, done + [c])
    ensures !irp.Skipped() && Reports(o, c.status) ==> Answers(q + [irp], outs + [o], done + [c])
    decreases |q|
  {
    hide Reports;
    if q == [] {
      assert q + [irp] == [irp] && outs + [o] == [o] && done + [c] == [c];
      assert [irp][1..] == [] && [o][1..] == [] && [c][1..] == [];
    } else {
      assert (q + [irp])[1..] == q[1..] + [irp] && (done + [c])[1..] == done[1..] + [c];
      if q[0].Skipped() {
        AnswersSnoc(q[1..], outs, done[1..], irp, o, c);
      } else {
        AnswersSnoc(q[1..], outs[1..], done[1..], irp, o, c);
        assert (outs + [o])[1..] == outs[1..] + [o];
      }
    }
  }

  /** Every request completes exactly once, in queue order. */
  lemma {:induction false} CompletedOnce(q: seq<Irp>, outs: seq<Output>, done: seq<Completion<Status>>)
    requires Answers(q, outs, done)
    ensures |done| == |q|
    ensures forall i :: 0 <= i < |q| ==> done[i].id == q[i].id && (q[i].cancelled <==> done[i].status == Cancelled)
    decreases |q|
  {
    if q != [] {
      CompletedOnce(q[1..], if q[0].Skipped() then outs else outs[1..], done[1..]);
      forall i | 0 <= i < |q|
        ensures done[i].id == q[i].id && (q[i].cancelled <==> done[i].status == Cancelled)
      {
        if i > 0 {
          assert done[i] == done[1..][i - 1] && q[i] == q[1..][i - 1];
        }
      }
    }
  }

  function Ids(q: seq<Irp>): (ids: seq<Id>)
    ensures |ids| == |q|
  {
    seq(|q|, i requires 0 <= i < |q| => q[i].id)
  }

  class VolumeThread {
    const volume: AttachedVolume
    var queue: seq<Irp>
    var shutdown: bool
    var completed: seq<Completion<Status>>

    constructor (volume: AttachedVolume)
      ensures this.volume == volume && queue == [] && !shutdown && completed == []
    {
      this.volume, queue, shutdown, completed := volume, [], false, [];
    }

    ghost function Repr(): set<object> { {this} + volume.Repr() }

    ghost predicate Valid()
      reads Repr()
    {
      volume.Valid()
    }

    /** Under the queue lock: refuse once shutting down, otherwise append. */
    method Enqueue(irp: Irp) returns (pending: bool)
      modifies this`queue, this`completed
      ensures pending == !shutdown
      ensures queue == if shutdown then old(queue) else old(queue) + [irp]
      ensures completed == if shutdown then old(completed) + [Completion(irp.id, Cancelled)] else old(completed)
    {
      if shutdown {
        completed := completed + [Completion(irp.id, Cancelled)];
        return false;
      }
      queue := queue + [irp];
      pending := true;
    }

    method Stop()
      modifies this`shutdown
      ensures shutdown
    {
      shutdown := true;
    }

    /** Serve one claimed request on the volume. */
    method ProcessIrp(irp: Irp, cipher: SectorCipher) returns (c: Completion<Status>, ghost s: Step, ghost o: Output)
      requires Valid() && !irp.cancelled && volume.Supplies(Some(cipher))
      modifies volume.store.io
      ensures Valid() && c.id == irp.id
      ensures irp.Skipped() ==> c.status == Refusal(irp) && volume.Snapshot() == old(volume.Snapshot())
      ensures !irp.Skipped() ==> Performs(irp, s) && Reports(o, c.status)
      ensures !irp.Skipped() ==> (volume.Snapshot(), o) == Exec(volume.Cfg(), old(volume.Snapshot()), s)
      ensures WriteFits(irp, old(volume.store.io.medium)) && c.status != Success([]) ==>
                s.k < |irp.data| && volume.store.io.fate(old(volume.store.io.writes)) == FailsAfter(s.k)
      ensures WriteFits(irp, old(volume.store.io.medium)) && old(volume.store.io.NoFaultPending()) ==>
                c.status == Success([])
      ensures |volume.store.io.medium.sectors| == |old(volume.store.io.medium).sectors|
      ensures volume.store.io.writes >= old(volume.store.io.writes)
    {
      hide Exec;
      if irp.write {
        var ok, k := volume.ProcessWrite(irp.lba, irp.data, irp.mapped, Some(cipher));
        s, o := Write(irp.lba, irp.data, k), WriteOutput(irp.data, k);
        c := Completion(irp.id, if ok then Success([]) else Unsuccessful);
      } else {
        var r := volume.ProcessRead(irp.lba, irp.n, irp.mapped, Some(cipher));
        s := Read(irp.lba, irp.n);
        o := match r case None => IoError case Some(d) => Contents(d);
        c := Completion(irp.id, match r case None => Unsuccessful case Some(d) => Success(d));
      }
    }

    /** At most 64 requests, oldest first; the machine takes exactly their steps in that order. */
    method Burst(cipher: SectorCipher)
      returns (n: nat, ghost steps: seq<Step>, ghost outs: seq<Output>, ghost done: seq<Completion<Status>>)
      requires Valid() && volume.Supplies(Some(cipher))
      modifies this`queue, this`completed, volume.store.io
      ensures Valid()
      ensures n == (if |old(queue)| < 64 then |old(queue)| else 64) && queue == old(queue)[n..]
      ensures Services(old(queue)[..n], steps) && Answers(old(queue)[..n], outs, done)
      ensures completed == old(completed) + done
      ensures (volume.Snapshot(), outs) == Run(volume.Cfg(), old(volume.Snapshot()), steps)
      ensures |done| == n && volume.store.io.writes >= old(volume.store.io.writes)
      ensures old(volume.store.io.NoFaultPending()) ==>
                forall j :: 0 <= j < n && WriteFits(old(queue)[j], old(volume.store.io.medium)) ==>
                              done[j].status == Success([])
    {
      hide Exec, Run, Services, Answers, Reports, Performs;
      n, steps, outs, done := 0, [], [], [];
      NothingServed(volume.Cfg(), volume.Snapshot());
      while n < MAX_IRP_BURST
        modifies this`queue, this`completed, volume.store.io
        invariant Valid() && n <= MAX_IRP_BURST && n <= |old(queue)| && queue == old(queue)[n..]
        invariant Services(old(queue)[..n], steps) && Answers(old(queue)[..n], outs, done)
        invariant completed == old(completed) + done
        invariant (volume.Snapshot(), outs) == Run(volume.Cfg(), old(volume.Snapshot()), steps)
        invariant |done| == n && volume.store.io.writes >= old(volume.store.io.writes)
        invariant |volume.store.io.medium.sectors| == |old(volume.store.io.medium).sectors|
        invariant old(volume.store.io.NoFaultPending()) ==>
                    forall j :: 0 <= j < n && WriteFits(old(queue)[j], old(volume.store.io.medium)) ==>
                                  done[j].status == Success([])
      {
        if queue == [] {
          break;
        }
        var irp := queue[0];
        queue := queue[1..];
        assert old(queue)[..n + 1] == old(queue)[..n] + [irp];
        var c: Completion<Status>;
        if irp.cancelled {
          c := Completion(irp.id, Cancelled);
          ServicesSnoc(old(queue)[..n], steps, irp, PauseSweep);
          AnswersSnoc(old(queue)[..n], outs, done, irp, Quiet, c);
        } else {
          ghost var s, o;
          c, s, o := ProcessIrp(irp, cipher);
          if irp.Skipped() {
            ServicesSnoc(old(queue)[..n], steps, irp, PauseSweep);
            AnswersSnoc(old(queue)[..n], outs, done, irp, Quiet, c);
          } else {
            RunSnoc(volume.Cfg(), old(volume.Snapshot()), steps, s);
            ServicesSnoc(old(queue)[..n], steps, irp, s);
            AnswersSnoc(old(queue)[..n], outs, done, irp, o, c);
            steps, outs := steps + [s], outs + [o];
          }
        }
        completed, done := completed + [c], done + [c];
        n := n + 1;
      }
    }

    /** One turn of the loop: a burst, then one sweep batch of 2048 sectors. */
    method Turn(cipher: SectorCipher, salt: Option<Block>)
      returns (did: bool, ghost n: nat, ghost steps: seq<Step>, ghost outs: seq<Output>,
               ghost done: seq<Completion<Status>>, ghost v: Verdict, ghost o: Outcome)
      requires Valid() && volume.Supplies(Some(cipher))
      modifies Repr()
      ensures Valid() && shutdown == old(shutdown)
      ensures n == (if |old(queue)| < 64 then |old(queue)| else 64) && queue == old(queue)[n..]
      ensures Services(old(queue)[..n], steps) && Answers(old(queue)[..n], outs, done)
      ensures completed == old(completed) + done
      ensures (volume.Snapshot(), outs + [Quiet])
              == Run(volume.Cfg(), old(volume.Snapshot()), steps + [SweepOnce(2048, o)])
      ensures did <==> n > 0 || v == More
      ensures var mid := Run(volume.Cfg(), old(volume.Snapshot()), steps).0;
              && (volume.Snapshot(), v) == Volume.SweepStep(volume.Cfg(), mid, 2048, o)
              && (old(volume.store.io.NoFaultPending()) && salt.Some?
                  && (Encrypts(mid.core, 2048) || Decrypts(mid.core, 2048)) ==>
                    o == Completes(salt.value) && v != Failed)
      ensures |done| == n
      ensures old(volume.store.io.NoFaultPending()) ==>
                forall j :: 0 <= j < n && WriteFits(old(queue)[j], old(volume.store.io.medium)) ==>
                              done[j].status == Success([])
    {
      hide Exec, Run, Services, Answers;
      var served;
      served, steps, outs, done := Burst(cipher);
      n := served;
      did := served > 0;
      var verdict;
      verdict, o := volume.SweepStep(Some(cipher), BATCH_SECTORS, salt);
      v := verdict;
      RunSnoc(volume.Cfg(), old(volume.Snapshot()), steps, SweepOnce(BATCH_SECTORS, o));
      if verdict == More {
        did := true;
      }
    }

    /** After the loop, and again on drop: complete what is left as cancelled. */
    method Drain()
      modifies this`queue, this`completed
      ensures queue == []
      ensures completed == old(completed) + AnswerAll(Ids(old(queue)), Cancelled)
    {
      ghost var n := 0;
      while queue != []
        invariant n <= |old(queue)| && queue == old(queue)[n..]
        invariant completed == old(completed) + AnswerAll(Ids(old(queue)[..n]), Cancelled)
        decreases |queue|
      {
        completed := completed + [Completion(queue[0].id, Cancelled)];
        queue := queue[1..];
        n := n + 1;
      }
    }
  }

  lemma NothingServed(cfg: Config, m: Machine)
    requires m.core.WellFormed()
    ensures Services([], []) && Answers([], [], []) && Run(cfg, m, []) == (m, [])
  {
  }

  // ---- transparency of the thread ----

  predicate RequestOk(l: Layout, irp: Irp)
    requires l.Accepted()
  {
    if irp.write then InRange(l, irp.lba, |irp.data|) else irp.n == 0 || InRange(l, irp.lba, irp.n)
  }

  lemma {:induction false} ServedAdmissibly(cfg: Config, m: Machine, q: seq<Irp>, steps: seq<Step>)
    requires Inv(cfg, m) && Services(q, steps)
    requires forall i :: 0 <= i < |q| ==> RequestOk(m.core.store.layout, q[i])
    ensures AdmissibleRun(cfg, m, steps)
    decreases |q|
  {
    hide AllHold, StoreState.HeaderMatches, View, Exec, PlainExec, InRange;
    if q != [] {
      if q[0].Skipped() {
        ServedAdmissibly(cfg, m, q[1..], steps);
      } else {
        assert Admissible(cfg, m, steps[0]);
        StepRefines(cfg, m, steps[0]);
        ServedAdmissibly(cfg, Exec(cfg, m, steps[0]).0, q[1..], steps[1..]);
      }
    }
  }

  lemma {:induction false} AdmissibleThen(cfg: Config, m: Machine, a: seq<Step>, b: seq<Step>)
    requires Inv(cfg, m) && AdmissibleRun(cfg, m, a) && AdmissibleRun(cfg, Run(cfg, m, a).0, b)
    ensures AdmissibleRun(cfg, m, a + b)
    decreases |a|
  {
    hide AllHold, StoreState.HeaderMatches, View, Exec, PlainExec, Admissible;
    if a == [] {
      assert a + b == b;
    } else {
      StepRefines(cfg, m, a[0]);
      AdmissibleThen(cfg, Exec(cfg, m, a[0]).0, a[1..], b);
      assert (a + b)[0] == a[0] && (a + b)[1..] == a[1..] + b;
    }
  }

  /** One turn of the thread: the requests it took, the steps that served them, and how its batch ended. */
  datatype Served = Served(q: seq<Irp>, steps: seq<Step>, o: Outcome)

  function TurnSteps(t: Served): seq<Step> { t.steps + [SweepOnce(BATCH_SECTORS, t.o)] }

  function AllSteps(ts: seq<Served>): seq<Step> {
    if ts == [] then [] else TurnSteps(ts[0]) + AllSteps(ts[1..])
  }

  predicate TurnOk(l: Layout, t: Served)
    requires l.Accepted()
  {
    && Services(t.q, t.steps) && (t.o.Completes? || t.o == DataStops(0))
    && forall i :: 0 <= i < |t.q| ==> RequestOk(l, t.q[i])
  }

  lemma TurnAdmissible(cfg: Config, m: Machine, t: Served)
    requires Inv(cfg, m) && TurnOk(m.core.store.layout, t)
    ensures AdmissibleRun(cfg, m, TurnSteps(t))
  {
    hide AllHold, StoreState.HeaderMatches, View, Exec, PlainExec, PlainRun, Run, Services, RequestOk;
    ServedAdmissibly(cfg, m, t.q, t.steps);
    RunRefines(cfg, m, t.steps);
    var m1 := Run(cfg, m, t.steps).0;
    BatchAdmissible(cfg, m1, t.o);
    AdmissibleThen(cfg, m, t.steps, [SweepOnce(BATCH_SECTORS, t.o)]);
  }

  lemma BatchAdmissible(cfg: Config, m: Machine, o: Outcome)
    requires Inv(cfg, m) && (o.Completes? || o == DataStops(0))
    ensures Admissible(cfg, m, SweepOnce(BATCH_SECTORS, o))
    ensures AdmissibleRun(cfg, m, [SweepOnce(BATCH_SECTORS, o)])
  {
    hide AllHold, StoreState.HeaderMatches, View, Exec, Layout.Off, Layout.Data;
    assert AdmissibleRun(cfg, Exec(cfg, m, SweepOnce(BATCH_SECTORS, o)).0, []);
  }

  /** Any number of turns with their sweep batches: whatever requests inside the reported size they serve, every
      result is the plain disk's. */
  lemma {:induction false} ServedTransparently(cfg: Config, m: Machine, ts: seq<Served>)
    requires Inv(cfg, m) && forall i :: 0 <= i < |ts| ==> TurnOk(m.core.store.layout, ts[i])
    ensures AdmissibleRun(cfg, m, AllSteps(ts))
    ensures var (m', outs) := Run(cfg, m, AllSteps(ts));
            Inv(cfg, m') && (View(cfg, m'), outs) == PlainRun(FrameOf(m), View(cfg, m), AllSteps(ts))
    decreases |ts|
  {
    hide AllHold, StoreState.HeaderMatches, View, Exec, PlainExec, PlainRun, Run, TurnOk, TurnSteps;
    if ts != [] {
      TurnAdmissible(cfg, m, ts[0]);
      RunRefines(cfg, m, TurnSteps(ts[0]));
      ServedTransparently(cfg, Run(cfg, m, TurnSteps(ts[0])).0, ts[1..]);
      AdmissibleThen(cfg, m, TurnSteps(ts[0]), AllSteps(ts[1..]));
    }
    RunRefines(cfg, m, AllSteps(ts));
  }
}
