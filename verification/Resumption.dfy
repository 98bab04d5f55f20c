/** A sweep that is interrupted: by requests, by pauses, and by any number of boots that resume it. */
module Resumption {
  import opened Bytes
  import opened Errors
  import opened Layout
  import opened Metadata
  import opened Sectors
  import opened Store
  import opened Durability
  import opened DataPath
  import opened Sweep
  import opened Volume
  import opened Invariant
  import opened Transparency
  import opened Progress

  /** Sectors still to go in direction `d`. */
  function Left(m: Machine, d: VolumeState): nat
    requires m.core.WellFormed() && m.core.boundary <= m.core.Total()
  {
    if d == Encrypt then m.core.Total() - m.core.boundary else m.core.boundary
  }

  /** A sweep in direction `d` runs or has reached its end, and a boot would find that direction. */
  ghost predicate Underway(cfg: Config, m: Machine, d: VolumeState) {
    && Inv(cfg, m) && DataReadable(m)
    && m.core.store.state == d && FirstSays(cfg.format, m.core.medium, m.core.store.layout, d)
    && (m.core.mode == Encrypting <==> d == Encrypt && m.core.boundary < m.core.Total())
    && (m.core.mode == Decrypting <==> d == Decrypt && 0 < m.core.boundary)
    && m.core.mode != Paused
  }

  /** What may happen while the sweep goes on in batches of `batch` sectors. */
  predicate Part(s: Step, batch: nat) {
    match s
    case Read(_, _) => true
    case Write(_, _, _) => true
    case SweepOnce(b, o) => b == batch && o.Completes?
    case Boot(_, resume) => resume
    case _ => false
  }

  predicate Parts(steps: seq<Step>, batch: nat) {
    forall i :: 0 <= i < |steps| ==> Part(steps[i], batch)
  }

  function Batches(steps: seq<Step>): nat {
    if steps == [] then 0 else (if steps[0].SweepOnce? then 1 else 0) + Batches(steps[1..])
  }

  // ---- the direction on disk ----

  lemma WrittenReplicasSay(f: Format, m: Medium, st: StoreState, salt: Block, k: nat)
    requires f.Lawful() && st.HeaderMatches() && st.layout.volume == |m.sectors| && 0 < k <= st.layout.Replicas()
    ensures FirstSays(f, WriteReplicas(m, st.layout, SealedSector(f, st, salt), k), st.layout, st.state)
  {
    hide Layout.MetaLba, WriteReplicas, SealedSector;
    SealedReplicas(f, m, st, salt, k, 0);
  }

  lemma SameFirst(f: Format, m: Medium, m': Medium, l: Layout, d: VolumeState)
    requires l.Accepted() && |m.sectors| == |m'.sectors| && FirstSays(f, m, l, d)
    requires forall i :: 0 <= i < l.Replicas() ==>
                           l.MetaLba(i) < |m.sectors| && m'.sectors[l.MetaLba(i)] == m.sectors[l.MetaLba(i)]
    ensures FirstSays(f, m', l, d)
  {
    hide Layout.MetaLba;
  }

  /** A batch that stores its boundary writes its direction with it. */
  lemma EncryptStores(cfg: Config, c: Core, batch: nat, salt: Block)
    requires cfg.Lawful() && c.WellFormed() && c.boundary < c.Total()
    requires c.medium.Readable(c.Off() + c.boundary, BatchCount(c.Total() - c.boundary, batch))
    ensures var c' := EncryptBatch(cfg, c, batch, Completes(salt)).0;
            c'.store.state == c.store.state && FirstSays(cfg.format, c'.medium, c.store.layout, c.store.state)
  {
    hide WriteReplicas, SealedSector, EncArea, Layout.Off, Layout.Data, BatchCount, FirstSays, Medium.Write;
    var count := BatchCount(c.Total() - c.boundary, batch);
    var abs := c.Off() + c.boundary;
    DataRegionInside(c.store.layout);
    var out := EncArea(cfg.suite(c.store.secrets), c.boundary, c.medium.sectors[abs..abs + count]);
    WrittenReplicasSay(cfg.format, c.medium.Write(abs, out), c.store.(offset := c.boundary + count), salt,
                       c.store.layout.Replicas());
  }

  lemma DecryptStores(cfg: Config, c: Core, batch: nat, salt: Block)
    requires cfg.Lawful() && c.WellFormed() && 0 < c.boundary <= c.Total()
    requires var next := c.boundary - BatchCount(c.boundary, batch);
             c.medium.Readable(c.Off() + next, c.boundary - next)
    ensures var c' := DecryptBatch(cfg, c, batch, Completes(salt)).0;
            c'.store.state == c.store.state && FirstSays(cfg.format, c'.medium, c.store.layout, c.store.state)
  {
    hide WriteReplicas, SealedSector, DecArea, Layout.Off, Layout.Data, BatchCount, FirstSays, Medium.Write;
    var next := c.boundary - BatchCount(c.boundary, batch);
    var abs := c.Off() + next;
    DataRegionInside(c.store.layout);
    var out := DecArea(cfg.suite(c.store.secrets), next, c.medium.sectors[abs..abs + (c.boundary - next)]);
    WrittenReplicasSay(cfg.format, c.medium.Write(abs, out), c.store.(offset := next), salt,
                       c.store.layout.Replicas());
  }

  // ---- one part ----

  lemma SweepOn(cfg: Config, m: Machine, d: VolumeState, batch: nat, salt: Block)
    requires Underway(cfg, m, d)
    ensures var m' := Exec(cfg, m, SweepOnce(batch, Completes(salt))).0;
            && Underway(cfg, m', d) && m'.core.Total() == m.core.Total()
            && Left(m', d) == Left(m, d) - BatchCount(Left(m, d), batch)
  {
    hide AllHold, Layout.Off, Layout.Data, FirstSays, EncryptBatch, DecryptBatch, StoreState.HeaderMatches;
    SweepRefines(cfg, m, batch, Completes(salt));
    if Left(m, d) > 0 {
      if d == Encrypt {
        EncryptsOne(cfg, m, batch, salt);
        EncryptStores(cfg, m.core, batch, salt);
      } else {
        DecryptsOne(cfg, m, batch, salt);
        DecryptStores(cfg, m.core, batch, salt);
      }
    }
  }

  lemma WriteOn(cfg: Config, m: Machine, d: VolumeState, lba: nat, data: seq<Sector>, k: nat)
    requires Underway(cfg, m, d) && Admissible(cfg, m, Write(lba, data, k))
    ensures var m' := Exec(cfg, m, Write(lba, data, k)).0;
            Underway(cfg, m', d) && m'.core.Total() == m.core.Total() && m'.core.boundary == m.core.boundary
  {
    hide AllHold, Layout.Off, Layout.Data, Layout.MetaLba, FirstSays, DriverEncrypt, ViewOf, DataImage,
         Medium.WriteUpTo;
    var l, c, med := m.core.store.layout, Cipher(cfg, m), m.core.medium;
    WriteRefines(cfg, m, lba, data, k);
    DriverWritesView(c, med, l, m.cached, lba, data, k);
    SameFirst(cfg.format, med, med.WriteUpTo(lba, DriverEncrypt(c, GeometryOf(l, m.cached), lba, data), k), l, d);
  }

  lemma BootOn(cfg: Config, m: Machine, d: VolumeState, ops: seq<LoaderOp>)
    requires Underway(cfg, m, d) && Admissible(cfg, m, Boot(ops, true))
    ensures var m' := Exec(cfg, m, Boot(ops, true)).0;
            Underway(cfg, m', d) && m'.core.Total() == m.core.Total() && m'.core.boundary == m.core.boundary
  {
    hide AllHold, Layout.Off, Layout.Data, Layout.MetaLba, BootFrom, BootAdmissible, ViewOf, DataImage, PlainBoot;
    BootsTo(cfg, m, m.core.medium, m.cached, ops, true);
  }

  lemma PartOn(cfg: Config, m: Machine, d: VolumeState, batch: nat, s: Step)
    requires Underway(cfg, m, d) && Part(s, batch) && Admissible(cfg, m, s)
    ensures var m' := Exec(cfg, m, s).0;
            && Underway(cfg, m', d) && m'.core.Total() == m.core.Total()
            && Left(m', d) == Left(m, d) - if s.SweepOnce? then BatchCount(Left(m, d), batch) else 0
  {
    hide Underway, Exec, Admissible;
    match s
    case Read(lba, n) => ReadOn(cfg, m, d, lba, n);
    case Write(lba, data, k) => WriteOn(cfg, m, d, lba, data, k);
    case SweepOnce(_, o) => SweepOn(cfg, m, d, batch, o.salt);
    case Boot(ops, _) => BootOn(cfg, m, d, ops);
  }

  lemma ReadOn(cfg: Config, m: Machine, d: VolumeState, lba: nat, n: nat)
    requires Underway(cfg, m, d)
    ensures Exec(cfg, m, Read(lba, n)).0 == m
  {
  }

  // ---- whole runs ----

  lemma {:induction false} PartsOn(cfg: Config, m: Machine, d: VolumeState, batch: nat, steps: seq<Step>)
    requires Underway(cfg, m, d) && Parts(steps, batch) && AdmissibleRun(cfg, m, steps)
    ensures var m', due := Run(cfg, m, steps).0, BatchesFor(Left(m, d), batch);
            && Underway(cfg, m', d) && m'.core.Total() == m.core.Total()
            && BatchesFor(Left(m', d), batch) == if Batches(steps) < due then due - Batches(steps) else 0
    decreases |steps|
  {
    hide Underway, Exec, Admissible, Left, BatchesFor, Part;
    Within(cfg, m, d);
    if steps != [] {
      PartOn(cfg, m, d, batch, steps[0]);
      PartsOn(cfg, Exec(cfg, m, steps[0]).0, d, batch, steps[1..]);
      if Left(m, d) > 0 {
        BatchesStep(Left(m, d), batch);
      } else {
        NoneDue(batch);
      }
    }
  }

  lemma NoneDue(batch: nat)
    ensures BatchesFor(0, batch) == 0
  {
    BatchesStep(1, batch);
  }

  lemma SomeDue(left: nat, batch: nat)
    ensures BatchesFor(left, batch) == 0 <==> left == 0
  {
    hide BatchesFor;
    NoneDue(batch);
    if left > 0 {
      BatchesStep(left, batch);
    }
  }

  lemma StartsUnderway(cfg: Config, m: Machine, d: VolumeState, salt: Block, k: nat)
    requires Inv(cfg, m) && DataReadable(m) && k > 0
    ensures var m' := Exec(cfg, m, StartSweep(d, Some(salt), k)).0;
            Underway(cfg, m', d) && m'.core.Total() == m.core.Total() && m'.core.boundary == m.core.boundary
  {
    hide AllHold, Layout.Off, Layout.Data, FirstSays, WriteReplicas, SealedSector;
    var l := m.core.store.layout;
    StartRefines(cfg, m, d, Some(salt), k);
    WrittenReplicasSay(cfg.format, m.core.medium, m.core.store.(state := d), salt,
                       if k <= l.Replicas() then k else l.Replicas());
  }

  /** A start takes effect in memory whatever becomes of its replica writes. */
  lemma StartsInAnyCase(cfg: Config, m: Machine, d: VolumeState, salt: Option<Block>, k: nat)
    requires m.core.WellFormed()
    ensures var m' := Exec(cfg, m, StartSweep(d, salt, k)).0;
            && m'.core.store == m.core.store.(state := d) && m'.core.boundary == m.core.boundary
            && m'.cached == m.cached && (salt == None ==> m'.core.medium == m.core.medium)
            && (m'.core.mode == Encrypting <==> d == Encrypt && m.core.boundary < m.core.Total())
            && (m'.core.mode == Decrypting <==> d == Decrypt && 0 < m.core.boundary)
            && m'.core.mode != Paused
  {
    hide WriteReplicas, SealedSector, Layout.Off, Layout.Data;
  }

  /** A sweep started in direction `d`, whose first replica took the new direction, survives any number of boots
      between its batches and any requests: it is at its own end after exactly as many batches as the distance calls
      for without them, and short of it before. */
  lemma InterruptedSweepEnds(cfg: Config, m: Machine, d: VolumeState, salt: Block, k: nat, batch: nat,
                             steps: seq<Step>)
    requires Inv(cfg, m) && DataReadable(m) && k > 0 && batch > 0 && Parts(steps, batch)
    requires AdmissibleRun(cfg, Exec(cfg, m, StartSweep(d, Some(salt), k)).0, steps)
    ensures var m' := Run(cfg, Exec(cfg, m, StartSweep(d, Some(salt), k)).0, steps).0;
            var distance := if d == Encrypt then m.core.Total() - m.core.boundary else m.core.boundary;
            && m'.core.Total() == m.core.Total()
            && (Batches(steps) >= (distance + batch - 1) / batch ==>
                  m'.core.mode == Idle && m'.core.boundary == if d == Encrypt then m.core.Total() else 0)
            && (Batches(steps) < (distance + batch - 1) / batch ==>
                  if d == Encrypt then m'.core.mode == Encrypting && m'.core.boundary < m.core.Total()
                  else m'.core.mode == Decrypting && m'.core.boundary > 0)
  {
    hide Exec, AdmissibleRun, Run, Underway;
    StartsUnderway(cfg, m, d, salt, k);
    var m1 := Exec(cfg, m, StartSweep(d, Some(salt), k)).0;
    Within(cfg, m1, d);
    PartsOn(cfg, m1, d, batch, steps);
    var m' := Run(cfg, m1, steps).0;
    Within(cfg, m', d);
    SomeDue(Left(m', d), batch);
  }

  lemma Within(cfg: Config, m: Machine, d: VolumeState)
    requires Underway(cfg, m, d)
    ensures m.core.WellFormed() && m.core.boundary <= m.core.Total()
    ensures Left(m, d) == 0 ==> m.core.mode == Idle
    ensures Left(m, d) > 0 ==> m.core.mode == if d == Encrypt then Encrypting else Decrypting
  {
  }

  // ---- pausing ----

  /** After a pause the sweep stands still however often the thread comes round: boundary, store, cache and disk
      are those of the running sweep. */
  lemma {:induction false} PausedStandsStill(cfg: Config, m: Machine, steps: seq<Step>)
    requires m.core.WellFormed() && (m.core.mode == Encrypting || m.core.mode == Decrypting)
    requires m.cached == m.core.boundary && OnlySweeps(steps)
    ensures Run(cfg, Exec(cfg, m, PauseSweep).0, steps).0 == m.(core := m.core.(mode := Paused))
  {
    PausedSweeps(cfg, Exec(cfg, m, PauseSweep).0, steps);
  }

  lemma {:induction false} PausedSweeps(cfg: Config, m: Machine, steps: seq<Step>)
    requires m.core.WellFormed() && m.core.mode == Paused && m.cached == m.core.boundary && OnlySweeps(steps)
    ensures Run(cfg, m, steps).0 == m
    decreases |steps|
  {
    if steps != [] {
      PausedSweeps(cfg, m, steps[1..]);
    }
  }
}
