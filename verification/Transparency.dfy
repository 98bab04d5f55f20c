/** Whole-run transparency: the encrypted volume refines a plain disk over every run. */
module Transparency {
  import opened Bytes
  import opened Errors
  import opened Layout
  import opened Metadata
  import opened Sectors
  import opened Store
  import opened Durability
  import opened DataPath
  import opened Sweep
  import opened Volume
  import opened Invariant
  import opened Crash
  import opened Harm

  /** Requests stay inside the reported size; running batches complete or write nothing; power is lost at
      recoverable points, exactly those at which nothing is harmed. */
  ghost predicate Admissible(cfg: Config, m: Machine, s: Step)
    requires m.core.WellFormed()
  {
    var l := m.core.store.layout;
    match s
    case Read(lba, n) => n == 0 || InRange(l, lba, n)
    case Write(lba, data, k) => InRange(l, lba, |data|) && k <= |data|
    case SweepOnce(batch, o) => o.Completes? || (o.DataStops? && StopHarm(m.core, batch, o).n == 0)
    case StartSweep(_, _, _) => true
    case PauseSweep => true
    case Boot(ops, _) => BootAdmissible(cfg, m, m.core.medium, ops)
    case CrashSweep(batch, o, ops, _) =>
      && BootAdmissible(cfg, m, ProgressStep(cfg, m.core, batch, o).0.medium, ops)
      && Recoverable(cfg, m.core, batch, o)
  }

  ghost predicate AdmissibleRun(cfg: Config, m: Machine, steps: seq<Step>)
    requires m.core.WellFormed()
    decreases |steps|
  {
    steps != [] ==> Admissible(cfg, m, steps[0]) && AdmissibleRun(cfg, Exec(cfg, m, steps[0]).0, steps[1..])
  }

  /** What a step must establish. */
  ghost predicate Refines(cfg: Config, m: Machine, s: Step)
    requires m.core.WellFormed()
  {
    var (m', o) := Exec(cfg, m, s);
    && Inv(cfg, m')
    && FrameOf(m') == FrameOf(m) && m'.core.store.layout == m.core.store.layout
    && (View(cfg, m'), o) == PlainExec(FrameOf(m), View(cfg, m), s)
  }

  // ---- one lemma per step ----

  lemma ReadRefines(cfg: Config, m: Machine, lba: nat, n: nat)
    requires Inv(cfg, m) && Admissible(cfg, m, Read(lba, n))
    ensures Refines(cfg, m, Read(lba, n))
  {
    hide ViewOf, DataImage, DriverDecrypt, Layout.Off, Layout.Data, StoreState.HeaderMatches, AllHold;
    var l := m.core.store.layout;
    assert l.Accepted() && l.volume == |m.core.medium.sectors| by { WellFormedLayout(m.core); }
    if n > 0 {
      DataSlice(m.core.medium, l, lba, n);
      DriverReadsView(Cipher(cfg, m), m.core.medium, l, m.cached, lba, n);
    }
  }

  lemma WriteRefines(cfg: Config, m: Machine, lba: nat, data: seq<Sector>, k: nat)
    requires Inv(cfg, m) && Admissible(cfg, m, Write(lba, data, k))
    ensures Refines(cfg, m, Write(lba, data, k))
  {
    hide ViewOf, DataImage, DriverEncrypt, Layout.Off, Layout.Data, Layout.MetaLba, AllHold, Medium.WriteUpTo;
    var l, c, med := m.core.store.layout, Cipher(cfg, m), m.core.medium;
    DriverWritesView(c, med, l, m.cached, lba, data, k);
    SameReplicasHold(cfg.format, med, med.WriteUpTo(lba, DriverEncrypt(c, GeometryOf(l, m.cached), lba, data), k),
                     m.core.store, m.core.boundary);
  }

  lemma PauseRefines(cfg: Config, m: Machine)
    requires Inv(cfg, m)
    ensures Refines(cfg, m, PauseSweep)
  {
    hide ViewOf, DataImage, AllHold;
  }

  /** Starting in either direction keeps the view however far its replica writes get. */
  lemma StartRefines(cfg: Config, m: Machine, d: VolumeState, salt: Option<Block>, k: nat)
    requires Inv(cfg, m)
    ensures Refines(cfg, m, StartSweep(d, salt, k))
  {
    hide ViewOf, DataImage, WriteReplicas, SealedSector, AllHold, Layout.Off, Layout.Data;
    var l, st := m.core.store.layout, m.core.store.(state := d);
    SameStateHolds(cfg.format, m.core.medium, m.core.store, st, m.core.boundary);
    if salt.Some? {
      var n := if k <= l.Replicas() then k else l.Replicas();
      ReplicasHold(cfg.format, m.core.medium, st, salt.value, n, m.core.boundary);
      ReplicasKeepData(m.core.medium, l, SealedSector(cfg.format, st, salt.value), n);
    }
  }

  /** A completed batch: the data region gets exactly the batch, and every replica the new boundary. */
  lemma BatchStored(cfg: Config, c: Core, at: nat, out: seq<Sector>, next: Word64, salt: Block)
    requires cfg.Lawful() && c.WellFormed() && at + |out| <= c.Total()
    ensures c.medium.Fits(c.Off() + at, |out|)
    ensures var (c', ok) := Persist(cfg.format, c.(medium := c.medium.Write(c.Off() + at, out), boundary := next),
              Completes(salt));
            && ok && c'.store == c.store.(offset := next) && c'.medium.bad == c.medium.bad
            && DataImage(c'.medium, c.store.layout) == Splice(DataImage(c.medium, c.store.layout), at, out)
            && AllHold(cfg.format, c'.medium, c'.store, next)
  {
    hide DataImage, WriteReplicas, SealedSector, AllHold, Layout.MetaLba;
    var l, st := c.store.layout, c.store.(offset := next);
    DataWrite(c.medium, l, c.Off() + at, out);
    var m := c.medium.Write(c.Off() + at, out);
    ReplicasHold(cfg.format, m, st, salt, l.Replicas(), next);
    ReplicasKeepData(m, l, SealedSector(cfg.format, st, salt), l.Replicas());
  }

  /** The machine once the boundary has moved to `next` and the cache followed it. */
  lemma Moved(cfg: Config, m: Machine, c': Core, next: Word64)
    requires Inv(cfg, m) && next <= m.core.Total()
    requires c'.WellFormed() && c'.store == m.core.store.(offset := next) && c'.boundary == next
    requires c'.medium.bad == m.core.medium.bad && AllHold(cfg.format, c'.medium, c'.store, next)
    requires ViewOf(Cipher(cfg, m), DataImage(c'.medium, c'.store.layout), next) == View(cfg, m)
    ensures var m' := Machine(c', next); Inv(cfg, m') && FrameOf(m') == FrameOf(m) && View(cfg, m') == View(cfg, m)
  {
    hide ViewOf, DataImage, AllHold, Layout.Off, Layout.Data, StoreState.HeaderMatches;
  }

  /** A batch that changes anything is a completed one. */
  lemma EncryptCases(cfg: Config, c: Core, batch: nat, o: Outcome)
    requires c.WellFormed() && o.Completes?
    ensures var (c', v) := EncryptBatch(cfg, c, batch, o);
            || c'.(mode := c.mode) == c
            || (&& !v.Failed? && !c.FullyEncrypted()
                && var count := BatchCount(c.Total() - c.boundary, batch);
                && var abs := c.Off() + c.boundary;
                && c.medium.Readable(abs, count)
                && var out := EncArea(cfg.suite(c.store.secrets), c.boundary, c.medium.sectors[abs..abs + count]);
                && var p := Persist(cfg.format, c.(medium := c.medium.Write(abs, out), boundary := c.boundary + count),
                   o);
                && p.1 && c' == p.0.(mode := c'.mode))
  {
    hide WriteReplicas, SealedSector, Layout.Off, Layout.Data, Medium.WriteUpTo, StoreState.HeaderMatches, EncArea;
    WellFormedLayout(c);
    if !c.FullyEncrypted() {
      var count := BatchCount(c.Total() - c.boundary, batch);
      var abs := c.Off() + c.boundary;
      assert c.medium.Read(abs, count).Some? ==> c.medium.Fits(abs, count);
    }
  }

  lemma EncryptRefines(cfg: Config, m: Machine, batch: nat, o: Outcome)
    requires Inv(cfg, m) && o.Completes? && m.core.mode == Encrypting
    ensures Refines(cfg, m, SweepOnce(batch, o))
  {
    hide ViewOf, DataImage, Persist, AllHold, Layout.Off, Layout.Data, Medium.WriteUpTo, StoreState.HeaderMatches,
         EncArea, EncryptBatch;
    var c, l, b := m.core, m.core.store.layout, m.core.boundary;
    var (c', v) := EncryptBatch(cfg, c, batch, o);
    WellFormedLayout(c);
    EncryptCases(cfg, c, batch, o);
    if c'.(mode := c.mode) != c {
      var count := BatchCount(c.Total() - b, batch);
      var abs := c.Off() + b;
      var out := EncArea(Cipher(cfg, m), b, c.medium.sectors[abs..abs + count]);
      DataSlice(c.medium, l, abs, count);
      BatchStored(cfg, c, b, out, b + count, o.salt);
      EncryptKeepsView(Cipher(cfg, m), DataImage(c.medium, l), b, count);
      Moved(cfg, m, c', b + count);
    }
  }
  lemma DecryptCases(cfg: Config, c: Core, batch: nat, o: Outcome)
    requires c.WellFormed() && c.boundary <= c.Total() && o.Completes?
    ensures var (c', v) := DecryptBatch(cfg, c, batch, o);
            || c'.(mode := c.mode) == c
            || (&& !v.Failed? && c.boundary > 0
                && var next := c.boundary - BatchCount(c.boundary, batch);
                && var abs := c.Off() + next;
                && c.medium.Readable(abs, c.boundary - next)
                && var out := DecArea(cfg.suite(c.store.secrets), next,
                   c.medium.sectors[abs..abs + (c.boundary - next)]);
                && var p := Persist(cfg.format, c.(medium := c.medium.Write(abs, out), boundary := next), o);
                && p.1 && c' == p.0.(mode := c'.mode))
  {
    hide WriteReplicas, SealedSector, Layout.Off, Layout.Data, Medium.WriteUpTo, StoreState.HeaderMatches, DecArea;
    WellFormedLayout(c);
    if c.boundary > 0 {
      var next := c.boundary - BatchCount(c.boundary, batch);
      var abs := c.Off() + next;
      assert c.medium.Read(abs, c.boundary - next).Some? ==> c.medium.Fits(abs, c.boundary - next);
    }
  }

  lemma DecryptRefines(cfg: Config, m: Machine, batch: nat, o: Outcome)
    requires Inv(cfg, m) && o.Completes? && m.core.mode == Decrypting
    ensures Refines(cfg, m, SweepOnce(batch, o))
  {
    hide ViewOf, DataImage, Persist, AllHold, Layout.Off, Layout.Data, Medium.WriteUpTo, StoreState.HeaderMatches,
         DecArea, DecryptBatch;
    var c, l, b := m.core, m.core.store.layout, m.core.boundary;
    var (c', v) := DecryptBatch(cfg, c, batch, o);
    WellFormedLayout(c);
    DecryptCases(cfg, c, batch, o);
    if c'.(mode := c.mode) != c {
      var next := b - BatchCount(b, batch);
      var abs := c.Off() + next;
      var out := DecArea(Cipher(cfg, m), next, c.medium.sectors[abs..abs + (b - next)]);
      DataSlice(c.medium, l, abs, b - next);
      BatchStored(cfg, c, next, out, next, o.salt);
      DecryptKeepsView(Cipher(cfg, m), DataImage(c.medium, l), b, b - next);
      Moved(cfg, m, c', next);
    }
  }

  lemma SweepRefines(cfg: Config, m: Machine, batch: nat, o: Outcome)
    requires Inv(cfg, m) && Admissible(cfg, m, SweepOnce(batch, o))
    ensures Refines(cfg, m, SweepOnce(batch, o))
  {
    hide ViewOf, DataImage, Persist, AllHold, EncryptBatch, DecryptBatch, Harmed, StopHarm, Layout.Off, Layout.Data;
    if o.DataStops? {
      StopHarms(cfg, m, batch, o.n);
      Unharmed(Cipher(cfg, m), View(cfg, m), StopHarm(m.core, batch, o));
    } else {
      match m.core.mode
      case Encrypting => EncryptRefines(cfg, m, batch, o);
      case Decrypting => DecryptRefines(cfg, m, batch, o);
      case _ =>
    }
  }

  lemma BootRefines(cfg: Config, m: Machine, ops: seq<LoaderOp>, resume: bool)
    requires Inv(cfg, m) && Admissible(cfg, m, Boot(ops, resume))
    ensures Refines(cfg, m, Boot(ops, resume))
  {
    hide ViewOf, DataImage, AllHold, Layout.Off, Layout.Data, StoreState.HeaderMatches, BootFrom, BootAdmissible,
         PlainBoot;
    BootsTo(cfg, m, m.core.medium, m.cached, ops, resume);
  }

  lemma CrashRefines(cfg: Config, m: Machine, s: Step)
    requires Inv(cfg, m) && s.CrashSweep? && Admissible(cfg, m, s)
    ensures Refines(cfg, m, s)
  {
    hide AllHold, StoreState.HeaderMatches, View, Exec, PlainBoot, ProgressStep, CrashHarm, Harmed, Recoverable,
         FrameOf, LoaderBoot, Readable, Layout.Off, Layout.Data;
    CrashHarms(cfg, m, s.batch, s.o, s.ops, s.resume);
    RecoverableIsNoHarm(cfg, m, s.batch, s.o);
    Unharmed(Cipher(cfg, m), View(cfg, m), CrashHarm(cfg, m.core, s.batch, s.o));
  }

  // ---- failed stores ----

  /** A completed encrypting batch brings engine, cache, store and replicas together again, whatever they were
      before; the view is the one under the engine's boundary. */
  lemma EncryptResyncs(cfg: Config, m: Machine, batch: nat, salt: Block)
    requires cfg.Lawful() && m.core.WellFormed() && m.core.mode == Encrypting && m.core.boundary < m.core.Total()
    requires m.core.medium.Readable(m.core.Off() + m.core.boundary, BatchCount(m.core.Total() - m.core.boundary, batch))
    ensures var m' := Exec(cfg, m, SweepOnce(batch, Completes(salt))).0;
            && Inv(cfg, m') && FrameOf(m') == FrameOf(m) && m'.core.store.layout == m.core.store.layout
            && View(cfg, m') == ViewOf(Cipher(cfg, m), DataImage(m.core.medium, m.core.store.layout), m.core.boundary)
  {
    hide ViewOf, DataImage, Persist, AllHold, Layout.Off, Layout.Data, Medium.WriteUpTo, EncArea, BatchCount;
    var c, l, b := m.core, m.core.store.layout, m.core.boundary;
    var count := BatchCount(c.Total() - b, batch);
    var abs := c.Off() + b;
    DataSlice(c.medium, l, abs, count);
    BatchStored(cfg, c, b, EncArea(Cipher(cfg, m), b, c.medium.sectors[abs..abs + count]), b + count, salt);
    EncryptKeepsView(Cipher(cfg, m), DataImage(c.medium, l), b, count);
  }

  lemma DecryptResyncs(cfg: Config, m: Machine, batch: nat, salt: Block)
    requires cfg.Lawful() && m.core.WellFormed() && m.core.mode == Decrypting && 0 < m.core.boundary <= m.core.Total()
    requires var next := m.core.boundary - BatchCount(m.core.boundary, batch);
             m.core.medium.Readable(m.core.Off() + next, m.core.boundary - next)
    ensures var m' := Exec(cfg, m, SweepOnce(batch, Completes(salt))).0;
            && Inv(cfg, m') && FrameOf(m') == FrameOf(m) && m'.core.store.layout == m.core.store.layout
            && View(cfg, m') == ViewOf(Cipher(cfg, m), DataImage(m.core.medium, m.core.store.layout), m.core.boundary)
  {
    hide ViewOf, DataImage, Persist, AllHold, Layout.Off, Layout.Data, Medium.WriteUpTo, DecArea, BatchCount;
    var c, l, b := m.core, m.core.store.layout, m.core.boundary;
    var next := b - BatchCount(b, batch);
    var abs := c.Off() + next;
    DataSlice(c.medium, l, abs, b - next);
    BatchStored(cfg, c, next, DecArea(Cipher(cfg, m), next, c.medium.sectors[abs..abs + (b - next)]), next, salt);
    DecryptKeepsView(Cipher(cfg, m), DataImage(c.medium, l), b, b - next);
  }

  predicate OnlySweeps(steps: seq<Step>) {
    forall i :: 0 <= i < |steps| ==> steps[i].SweepOnce?
  }

  /** Once the engine's boundary is at its end the sweep goes Idle without storing again, whether or not the
      last store got through. */
  lemma {:induction false} FinalStoreNotRetried(cfg: Config, m: Machine, steps: seq<Step>)
    requires m.core.WellFormed() && OnlySweeps(steps)
    requires || (m.core.mode == Encrypting && m.core.FullyEncrypted())
             || (m.core.mode == Decrypting && m.core.boundary == 0) || m.core.mode == Idle
    ensures var m' := Run(cfg, m, steps).0;
            && m'.core.(mode := m.core.mode) == m.core
            && (steps != [] ==> m'.core.mode == Idle && m'.cached == m.core.boundary)
    decreases |steps|
  {
    if steps != [] {
      FinalStoreNotRetried(cfg, Exec(cfg, m, steps[0]).0, steps[1..]);
    }
  }

  /** So when no replica of the last encrypting batch was written, sweeping on repairs nothing: the next boot
      recovers the old boundary and that batch reads back as ciphertext. */
  lemma FinalStoreLost(cfg: Config, m: Machine, batch: nat, o: Outcome, steps: seq<Step>, resume: bool)
    requires Inv(cfg, m) && m.core.mode == Encrypting && m.core.boundary < m.core.Total() && OnlySweeps(steps)
    requires BatchCount(m.core.Total() - m.core.boundary, batch) == m.core.Total() - m.core.boundary
    requires m.core.medium.Readable(m.core.Off() + m.core.boundary, m.core.Total() - m.core.boundary)
    requires o == SaltFails || (o.StoreStops? && ReplicasReached(o, m.core.store.layout.Replicas()) == 0)
    requires var disk := EncryptBatch(cfg, m.core, batch, o).0.medium;
             Readable(disk, m.core.store.layout) && LastSectorHonest(cfg.format, disk, m.core.store.layout)
    ensures var b := m.core.boundary;
            var r := Attach(cfg, Run(cfg, SweepStep(cfg, m, batch, o).0, steps).0.core.medium, m.core.store.size,
                resume);
            && r.Some? && r.value.cached == b
            && View(cfg, r.value) == View(cfg, m)[..b] + EncArea(Cipher(cfg, m), b, View(cfg, m)[b..])
  {
    hide ViewOf, DataImage, AllHold, Layout.Off, Layout.Data, EncryptBatch, Readable, LastSectorHonest, BatchCount,
         Attach, EncArea, Run;
    var b := m.core.boundary;
    EncryptFails(cfg, m.core, batch, o);
    EncryptCrash(cfg, m, batch, o, resume);
    FinalStoreNotRetried(cfg, SweepStep(cfg, m, batch, o).0, steps);
    assert |View(cfg, m)| == m.core.Total();
    assert View(cfg, m)[b..m.core.Total()] == View(cfg, m)[b..];
  }

  /** The same for the last decrypting batch: the next boot recovers the old boundary, at which that batch is
      decrypted a second time. */
  lemma FinalDecryptStoreLost(cfg: Config, m: Machine, batch: nat, o: Outcome, steps: seq<Step>, resume: bool)
    requires Inv(cfg, m) && m.core.mode == Decrypting && 0 < m.core.boundary <= AtLeastOne(batch) && OnlySweeps(steps)
    requires m.core.medium.Readable(m.core.Off(), m.core.boundary)
    requires o.SaltFails? || o.StoreStops?
    requires || ReplicasReached(o, m.core.store.layout.Replicas()) == 0
             || AllCarry(cfg.format, m.core.medium, m.core.store.layout, m.core.boundary)
    requires var disk := DecryptBatch(cfg, m.core, batch, o).0.medium;
             Readable(disk, m.core.store.layout) && LastSectorHonest(cfg.format, disk, m.core.store.layout)
    ensures var b := m.core.boundary;
            var r := Attach(cfg, Run(cfg, SweepStep(cfg, m, batch, o).0, steps).0.core.medium, m.core.store.size,
                resume);
            && r.Some? && r.value.cached == b
            && View(cfg, r.value) == DecArea(Cipher(cfg, m), 0, View(cfg, m)[..b]) + View(cfg, m)[b..]
  {
    hide ViewOf, DataImage, AllHold, AllCarry, LaterAtMost, Layout.Off, Layout.Data, DecryptBatch, Readable,
         LastSectorHonest, Attach, DecArea, Run;
    var b := m.core.boundary;
    assert BatchCount(b, batch) == b;
    DecryptFails(cfg, m.core, batch, o);
    DecryptCrash(cfg, m, batch, o, resume);
    FinalStoreNotRetried(cfg, SweepStep(cfg, m, batch, o).0, steps);
    assert |View(cfg, m)| == m.core.Total();
    assert View(cfg, m)[0..b] == View(cfg, m)[..b];
  }

  // ---- every run ----

  lemma StepRefines(cfg: Config, m: Machine, s: Step)
    requires Inv(cfg, m) && Admissible(cfg, m, s)
    ensures Refines(cfg, m, s)
  {
    hide Inv, Admissible, Refines;
    match s
    case Read(lba, n) => ReadRefines(cfg, m, lba, n);
    case Write(lba, data, k) => WriteRefines(cfg, m, lba, data, k);
    case SweepOnce(batch, o) => SweepRefines(cfg, m, batch, o);
    case StartSweep(d, salt, k) => StartRefines(cfg, m, d, salt, k);
    case PauseSweep => PauseRefines(cfg, m);
    case Boot(ops, resume) => BootRefines(cfg, m, ops, resume);
    case CrashSweep(_, _, _, _) => CrashRefines(cfg, m, s);
  }

  /** Whatever the interleaving of reads, writes, sweep batches, direction changes, pauses, boots and power
      losses at recoverable points, every output is that of a plain disk that saw the same writes, and the
      final contents are the plain disk's. */
  lemma {:induction false} RunRefines(cfg: Config, m: Machine, steps: seq<Step>)
    requires Inv(cfg, m) && AdmissibleRun(cfg, m, steps)
    ensures var (m', os) := Run(cfg, m, steps);
            && Inv(cfg, m') && FrameOf(m') == FrameOf(m) && m'.core.store.layout == m.core.store.layout
            && (View(cfg, m'), os) == PlainRun(FrameOf(m), View(cfg, m), steps)
    decreases |steps|
  {
    hide AllHold, StoreState.HeaderMatches, Admissible, View, Exec, PlainExec, FrameOf;
    if steps != [] {
      StepRefines(cfg, m, steps[0]);
      RunRefines(cfg, Exec(cfg, m, steps[0]).0, steps[1..]);
    }
  }

  // ---- every run, harmed ones included ----

  /** Batches may also stop anywhere in their data write, and power may be lost anywhere. Left out are only
      batches whose store fails while the driver runs on. */
  ghost predicate AdmissibleHarmed(cfg: Config, m: Machine, s: Step)
    requires m.core.WellFormed()
  {
    match s
    case SweepOnce(_, o) => o.Completes? || o.DataStops?
    case CrashSweep(batch, o, ops, _) => BootAdmissible(cfg, m, ProgressStep(cfg, m.core, batch, o).0.medium, ops)
    case _ => Admissible(cfg, m, s)
  }

  ghost predicate AdmissibleHarmedRun(cfg: Config, m: Machine, steps: seq<Step>)
    requires m.core.WellFormed()
    decreases |steps|
  {
    steps != [] ==>
      AdmissibleHarmed(cfg, m, steps[0]) && AdmissibleHarmedRun(cfg, Exec(cfg, m, steps[0]).0, steps[1..])
  }

  function StepHarm(cfg: Config, m: Machine, s: Step): Harm
    requires m.core.WellFormed()
  {
    match s
    case SweepOnce(batch, o) => if o.DataStops? then StopHarm(m.core, batch, o) else NO_HARM
    case CrashSweep(batch, o, _, _) => CrashHarm(cfg, m.core, batch, o)
    case _ => NO_HARM
  }

  /** The plain disk, suffering each step's harm before it performs the step. */
  function HarmedRun(cfg: Config, m: Machine, p: seq<Sector>, steps: seq<Step>): (seq<Sector>, seq<Output>)
    requires m.core.WellFormed()
    decreases |steps|
  {
    if steps == [] then (p, [])
    else
      var s := steps[0];
      var (p1, o) := PlainExec(FrameOf(m), Harmed(Cipher(cfg, m), p, StepHarm(cfg, m, s)), s);
      var (p2, os) := HarmedRun(cfg, Exec(cfg, m, s).0, p1, steps[1..]);
      (p2, [o] + os)
  }

  ghost predicate RefinesHarmed(cfg: Config, m: Machine, s: Step)
    requires m.core.WellFormed()
  {
    var (m', o) := Exec(cfg, m, s);
    && Inv(cfg, m')
    && FrameOf(m') == FrameOf(m) && m'.core.store.layout == m.core.store.layout
    && (View(cfg, m'), o) == PlainExec(FrameOf(m), Harmed(Cipher(cfg, m), View(cfg, m), StepHarm(cfg, m, s)), s)
  }

  lemma StepRefinesHarmed(cfg: Config, m: Machine, s: Step)
    requires Inv(cfg, m) && AdmissibleHarmed(cfg, m, s)
    ensures RefinesHarmed(cfg, m, s)
  {
    hide AllHold, StoreState.HeaderMatches, View, PlainBoot, ProgressStep, CrashHarm, StopHarm, Harmed, FrameOf,
         BootAdmissible, BootFrom, Layout.Off, Layout.Data;
    var c, v := Cipher(cfg, m), View(cfg, m);
    if s.SweepOnce? && s.o.DataStops? {
      StopHarms(cfg, m, s.batch, s.o.n);
    } else if s.CrashSweep? {
      CrashHarms(cfg, m, s.batch, s.o, s.ops, s.resume);
    } else {
      StepRefines(cfg, m, s);
      Unharmed(c, v, NO_HARM);
    }
  }

  /** Every run, with power lost at any point of any batch and data writes stopping anywhere: each output is that
      of a plain disk that saw the same writes and suffered, at each such step, exactly the stated harm. */
  lemma {:induction false} RunRefinesHarmed(cfg: Config, m: Machine, steps: seq<Step>)
    requires Inv(cfg, m) && AdmissibleHarmedRun(cfg, m, steps)
    ensures var (m', os) := Run(cfg, m, steps);
            && Inv(cfg, m') && FrameOf(m') == FrameOf(m) && m'.core.store.layout == m.core.store.layout
            && (View(cfg, m'), os) == HarmedRun(cfg, m, View(cfg, m), steps)
    decreases |steps|
  {
    hide AllHold, StoreState.HeaderMatches, AdmissibleHarmed, View, Exec, PlainExec, FrameOf, Harmed, StepHarm;
    if steps != [] {
      StepRefinesHarmed(cfg, m, steps[0]);
      RunRefinesHarmed(cfg, Exec(cfg, m, steps[0]).0, steps[1..]);
    }
  }

  /** The form on disk after any run: below the boundary each data sector is its plaintext enciphered exactly
      once under its own number, from the boundary on it is the plaintext itself. */
  lemma RunOnDisk(cfg: Config, m: Machine, steps: seq<Step>, rel: nat)
    requires Inv(cfg, m) && AdmissibleRun(cfg, m, steps) && rel < m.core.Total()
    ensures var m' := Run(cfg, m, steps).0;
            var plain := PlainRun(FrameOf(m), View(cfg, m), steps).0;
            && |plain| == m'.core.Total() == m.core.Total()
            && DataImage(m'.core.medium, m'.core.store.layout)[rel]
               == if rel < m'.core.boundary then Cipher(cfg, m').enc(rel, plain[rel]) else plain[rel]
  {
    hide Run, PlainRun, AdmissibleRun, AllHold, StoreState.HeaderMatches, DataImage;
    WellFormedLayout(m.core);
    RunRefines(cfg, m, steps);
    var m' := Run(cfg, m, steps).0;
    WellFormedLayout(m'.core);
    assert Cipher(cfg, m').Valid();
  }

  lemma PersistFootprint(f: Format, c: Core, o: Outcome, lba: nat)
    requires c.WellFormed() && lba < |c.medium.sectors|
    ensures Persist(f, c, o).0.medium.sectors[lba] != c.medium.sectors[lba] ==>
              exists i :: 0 <= i < c.store.layout.Replicas() && c.store.layout.MetaLba(i) == lba
  {
    hide Layout.MetaLba, WriteReplicas, SealedSector;
    var l, st := c.store.layout, c.store.(offset := c.boundary);
    match o
    case DataStops(_) =>
    case SaltFails =>
    case StoreStops(k, salt) =>
      ReplicasWritten(c.medium, l, SealedSector(f, st, salt), if k < l.Replicas() then k else l.Replicas() - 1, lba);
    case Completes(salt) => ReplicasWritten(c.medium, l, SealedSector(f, st, salt), l.Replicas(), lba);
  }

  lemma EncryptFootprint(cfg: Config, c: Core, batch: nat, o: Outcome, lba: nat)
    requires c.WellFormed() && !c.FullyEncrypted() && lba < |c.medium.sectors|
    ensures EncryptBatch(cfg, c, batch, o).0.medium.sectors[lba] != c.medium.sectors[lba] ==>
              || (exists i :: 0 <= i < c.store.layout.Replicas() && c.store.layout.MetaLba(i) == lba)
              || c.Off() + c.boundary <= lba < c.Off() + c.boundary + BatchCount(c.Total() - c.boundary, batch)
  {
    hide Layout.MetaLba, Persist, Layout.Off, Layout.Data, EncArea, BatchCount;
    var count := BatchCount(c.Total() - c.boundary, batch);
    var abs := c.Off() + c.boundary;
    var buf := c.medium.Read(abs, count);
    if buf.Some? {
      var out := EncArea(cfg.suite(c.store.secrets), c.boundary, buf.value);
      PersistFootprint(cfg.format, c.(medium := c.medium.Write(abs, out), boundary := c.boundary + count), o, lba);
    }
  }

  lemma DecryptFootprint(cfg: Config, c: Core, batch: nat, o: Outcome, lba: nat)
    requires c.WellFormed() && 0 < c.boundary <= c.Total() && lba < |c.medium.sectors|
    ensures DecryptBatch(cfg, c, batch, o).0.medium.sectors[lba] != c.medium.sectors[lba] ==>
              || (exists i :: 0 <= i < c.store.layout.Replicas() && c.store.layout.MetaLba(i) == lba)
              || c.Off() + c.boundary - BatchCount(c.boundary, batch) <= lba < c.Off() + c.boundary
  {
    hide Layout.MetaLba, Persist, Layout.Off, Layout.Data, DecArea, BatchCount;
    var next := c.boundary - BatchCount(c.boundary, batch);
    var abs := c.Off() + next;
    var buf := c.medium.Read(abs, c.boundary - next);
    if buf.Some? {
      var out := DecArea(cfg.suite(c.store.secrets), next, buf.value);
      PersistFootprint(cfg.format, c.(medium := c.medium.Write(abs, out), boundary := next), o, lba);
    }
  }

  /** A batch, however it ends, changes only its own data sectors and the replicas' Metadata sectors. */
  lemma SweepFootprint(cfg: Config, c: Core, batch: nat, o: Outcome, lba: nat)
    requires c.WellFormed() && c.boundary <= c.Total() && lba < |c.medium.sectors|
    ensures var c' := ProgressStep(cfg, c, batch, o).0;
            c'.medium.sectors[lba] != c.medium.sectors[lba] ==>
              || (exists i :: 0 <= i < c.store.layout.Replicas() && c.store.layout.MetaLba(i) == lba)
              || (c.mode == Encrypting
                  && c.Off() + c.boundary <= lba < c.Off() + c.boundary + BatchCount(c.Total() - c.boundary, batch))
              || (c.mode == Decrypting
                  && c.Off() + c.boundary - BatchCount(c.boundary, batch) <= lba < c.Off() + c.boundary)
  {
    hide Layout.MetaLba, Layout.Off, Layout.Data, Persist;
    if c.mode == Encrypting && !c.FullyEncrypted() {
      EncryptFootprint(cfg, c, batch, o, lba);
    }
    if c.mode == Decrypting && c.boundary > 0 {
      DecryptFootprint(cfg, c, batch, o, lba);
    }
  }
}
