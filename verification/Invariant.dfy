/** The invariant of a running volume, its plain view, and what every boot makes of the disk. */
module Invariant {
  import opened Bytes
  import opened Errors
  import opened Layout
  import opened Metadata
  import opened Sectors
  import opened Store
  import opened Durability
  import opened DataPath
  import opened Sweep
  import opened Volume

  /** Replica `i` validates with header `h`, these keys and a boundary up to `b`; its direction is free. */
  predicate Holds(f: Format, m: Medium, l: Layout, i: nat, h: Header, b: Word64, secrets: Secrets)
    requires l.Accepted() && i < l.Replicas()
  {
    && l.MetaLba(i) < |m.sectors|
    && var blk := BlockOf(m.sectors[l.MetaLba(i)]);
       && f.verify(blk) && f.parse(blk) == Ok(h)
       && f.unseal(blk).Ok? && f.unseal(blk).value.offset <= b && f.unseal(blk).value.secrets == secrets
  }

  /** Replica `i` carries exactly the boundary `b`. */
  predicate Carried(f: Format, m: Medium, l: Layout, i: nat, b: Word64)
    requires l.Accepted() && i < l.Replicas() && l.MetaLba(i) < |m.sectors|
  {
    var blk := BlockOf(m.sectors[l.MetaLba(i)]);
    f.unseal(blk).Ok? && f.unseal(blk).value.offset == b
  }

  /** All replicas validate, and `b` is the largest boundary they carry. */
  ghost predicate AllHold(f: Format, m: Medium, st: StoreState, b: Word64)
    requires st.layout.Accepted()
  {
    && (forall i :: 0 <= i < st.layout.Replicas() ==> Holds(f, m, st.layout, i, st.header, b, st.secrets))
    && exists i :: 0 <= i < st.layout.Replicas() && st.layout.MetaLba(i) < |m.sectors| && Carried(f, m, st.layout, i, b)
  }

  /** The first replica unseals and carries direction `d`. */
  predicate FirstSays(f: Format, m: Medium, l: Layout, d: VolumeState) {
    && l.Accepted() && 0 < l.Replicas() && l.MetaLba(0) < |m.sectors|
    && f.unseal(BlockOf(m.sectors[l.MetaLba(0)])).Ok?
    && f.unseal(BlockOf(m.sectors[l.MetaLba(0)])).value.state == d
  }

  /** The boundary lies in the region; the cache and the store agree on it and recovery would find it. */
  ghost predicate Inv(cfg: Config, m: Machine) {
    && cfg.Lawful() && m.core.WellFormed()
    && m.core.boundary <= m.core.Total()
    && m.cached == m.core.boundary == m.core.store.offset
    && AllHold(cfg.format, m.core.medium, m.core.store, m.core.boundary)
  }

  function View(cfg: Config, m: Machine): seq<Sector>
    requires m.core.WellFormed()
  {
    ViewOf(Cipher(cfg, m), DataImage(m.core.medium, m.core.store.layout), m.cached)
  }

  function FrameOf(m: Machine): Frame {
    Frame(m.core.Off(), m.core.medium.bad)
  }

  predicate LoaderOpOk(l: Layout, op: LoaderOp)
    requires l.Accepted()
  {
    match op
    case LoaderRead(lba, n) => InRange(l, lba, n)
    case LoaderWrite(lba, data, k) => InRange(l, lba, |data|) && k <= |data|
  }

  predicate LoaderOpsOk(l: Layout, ops: seq<LoaderOp>)
    requires l.Accepted()
  {
    forall i :: 0 <= i < |ops| ==> LoaderOpOk(l, ops[i])
  }

  /** The replicas can be read, and a last data sector that looks like metadata misleads neither opening. */
  ghost predicate BootAdmissible(cfg: Config, m: Machine, disk: Medium, ops: seq<LoaderOp>)
    requires m.core.WellFormed()
  {
    var l, boot := m.core.store.layout, LoaderBoot(cfg, disk, m.core.store.size, ops);
    && LoaderOpsOk(l, ops) && Readable(disk, l) && LastSectorHonest(cfg.format, disk, l)
    && (boot.Some? ==> LastSectorHonest(cfg.format, boot.value.0, l))
  }

  lemma WellFormedLayout(c: Core)
    requires c.WellFormed()
    ensures c.store.layout.Accepted() && c.store.layout.volume == |c.medium.sectors| && c.store.layout.Replicas() > 0
  {
  }

  lemma SameReplicasHold(f: Format, m: Medium, m': Medium, st: StoreState, b: Word64)
    requires st.layout.Accepted() && |m'.sectors| == |m.sectors| && AllHold(f, m, st, b)
    requires forall i :: 0 <= i < st.layout.Replicas() ==>
                           st.layout.MetaLba(i) < |m.sectors|
                               && m'.sectors[st.layout.MetaLba(i)] == m.sectors[st.layout.MetaLba(i)]
    ensures AllHold(f, m', st, b)
  {
    hide Layout.MetaLba;
    forall i | 0 <= i < st.layout.Replicas()
      ensures Holds(f, m', st.layout, i, st.header, b, st.secrets)
    {
      assert Holds(f, m, st.layout, i, st.header, b, st.secrets);
    }
  }

  /** Writing all replicas, or the first few with a boundary not below the old one, leaves the store's
      boundary the recoverable one. */
  lemma ReplicasHold(f: Format, m: Medium, st: StoreState, salt: Block, k: nat, b: Word64)
    requires f.Lawful() && st.HeaderMatches() && st.layout.volume == |m.sectors| && k <= st.layout.Replicas()
    requires k == st.layout.Replicas() || (AllHold(f, m, st, b) && b <= st.offset && (k == 0 ==> b == st.offset))
    ensures AllHold(f, WriteReplicas(m, st.layout, SealedSector(f, st, salt), k), st, st.offset)
  {
    hide Layout.MetaLba, WriteReplicas, SealedSector;
    var l, r := st.layout, WriteReplicas(m, st.layout, SealedSector(f, st, salt), k);
    forall i | 0 <= i < l.Replicas()
      ensures Holds(f, r, l, i, st.header, st.offset, st.secrets)
      ensures i < k ==> l.MetaLba(i) < |r.sectors| && Carried(f, r, l, i, st.offset)
    {
      SealedReplicas(f, m, st, salt, k, i);
      if i >= k {
        assert Holds(f, m, l, i, st.header, b, st.secrets);
      } else {
        assert Carries(f, r, l, i, st.header, st.Sealable());
      }
    }
    if k > 0 {
      assert Carried(f, r, l, 0, st.offset);
    } else {
      NoneWritten(m, l, SealedSector(f, st, salt));
    }
  }

  lemma NoneWritten(m: Medium, l: Layout, s: Sector)
    requires l.Accepted() && l.volume == |m.sectors|
    ensures WriteReplicas(m, l, s, 0) == m
  {
  }

  lemma SameStateHolds(f: Format, m: Medium, st: StoreState, st': StoreState, b: Word64)
    requires st.layout.Accepted() && st'.layout == st.layout && st'.header == st.header && st'.secrets == st.secrets
    ensures AllHold(f, m, st, b) == AllHold(f, m, st', b)
  {
  }

  // ---- between boots ----

  lemma LoaderStepRefines(c: SectorCipher, m: Medium, l: Layout, b: nat, op: LoaderOp)
    requires c.Valid() && l.Accepted() && l.volume == |m.sectors| && b <= l.Data() && LoaderOpOk(l, op)
    ensures var (m', o) := LoaderStep(c, m, GeometryOf(l, b), op);
            && (ViewOf(c, DataImage(m', l), b), o)
               == PlainLoaderStep(Frame(l.Off(), m.bad), ViewOf(c, DataImage(m, l), b), op)
            && forall i :: 0 <= i < l.Replicas() ==>
                             l.MetaLba(i) < l.volume && m'.sectors[l.MetaLba(i)] == m.sectors[l.MetaLba(i)]
  {
    hide ViewOf, DataImage, Layout.Off, Layout.Data, Layout.MetaLba, LoaderDecrypt, LoaderEncrypt, DriverDecrypt,
         DriverEncrypt, Medium.WriteUpTo;
    match op
    case LoaderRead(lba, n) =>
      DataSlice(m, l, lba, n);
      DriverReadsView(c, m, l, b, lba, n);
      LoaderMatchesView(c, m, l, b, lba, n, m.sectors[lba..lba + n]);
      MetaSectorsInside(l);
    case LoaderWrite(lba, data, k) =>
      LoaderMatchesView(c, m, l, b, lba, |data|, data);
      DriverWritesView(c, m, l, b, lba, data, k);
  }

  lemma MetaSectorsInside(l: Layout)
    requires l.Accepted()
    ensures forall i :: 0 <= i < l.Replicas() ==> l.MetaLba(i) < l.volume
  {
    hide Layout.MetaLba;
    forall i | 0 <= i < l.Replicas()
      ensures l.MetaLba(i) < l.volume
    {
      MetaLbas(l, i);
    }
  }

  /** The loader's accesses return and update the view of the same half-encrypted disk. */
  lemma {:induction false} LoaderRunRefines(c: SectorCipher, m: Medium, l: Layout, b: nat, ops: seq<LoaderOp>)
    requires c.Valid() && l.Accepted() && l.volume == |m.sectors| && b <= l.Data() && LoaderOpsOk(l, ops)
    ensures var (m', os) := LoaderRun(c, m, GeometryOf(l, b), ops);
            && (ViewOf(c, DataImage(m', l), b), os)
               == PlainLoaderRun(Frame(l.Off(), m.bad), ViewOf(c, DataImage(m, l), b), ops)
            && forall i :: 0 <= i < l.Replicas() ==>
                             l.MetaLba(i) < l.volume && m'.sectors[l.MetaLba(i)] == m.sectors[l.MetaLba(i)]
    decreases |ops|
  {
    hide ViewOf, DataImage, Layout.Off, Layout.Data, Layout.MetaLba, LoaderStep, PlainLoaderStep, LoaderOpOk;
    if ops == [] {
      MetaSectorsInside(l);
    } else {
      LoaderStepRefines(c, m, l, b, ops[0]);
      LoaderRunRefines(c, LoaderStep(c, m, GeometryOf(l, b), ops[0]).0, l, b, ops[1..]);
    }
  }

  /** Opening a disk whose replicas all hold recovers the boundary; the direction is the first replica's. */
  lemma ReopenHeld(f: Format, m: Medium, st: StoreState, b: Word64)
    requires f.Lawful() && st.HeaderMatches() && |m.sectors| == st.layout.volume && AllHold(f, m, st, b)
    requires Readable(m, st.layout) && LastSectorHonest(f, m, st.layout)
    ensures Replica(f, m, st.layout, 0).Some?
    ensures Reopen(f, m, st.size) == Ok(st.(offset := b, state := Replica(f, m, st.layout, 0).value.state))
  {
    hide Layout.MetaLba;
    var l := st.layout;
    forall i | 0 <= i < l.Replicas()
      ensures Replica(f, m, l, i).Some? && Replica(f, m, l, i).value.offset <= b
              && Replica(f, m, l, i).value.secrets == st.secrets
      ensures l.MetaLba(i) < |m.sectors|
      ensures Replica(f, m, l, i).value.offset == b <==> Carried(f, m, l, i, b)
      ensures var blk := BlockOf(m.sectors[l.MetaLba(i)]); f.verify(blk) && f.parse(blk) == Ok(st.header)
    {
      assert Holds(f, m, l, i, st.header, b, st.secrets);
      assert m.Readable(l.MetaLba(i), 1);
    }
    OpenFinds(f, m, st);
    FirstIsFirst(f, m, l, 0);
    BestIsMaximum(f, m, l, l.Replicas());
    assert Replica(f, m, l, 0).Some?;
    var i :| 0 <= i < l.Replicas() && l.MetaLba(i) < |m.sectors| && Carried(f, m, l, i, b);
    assert Replica(f, m, l, i).value.offset == b;
  }

  /** Attaching to such a disk rebuilds a machine whose view is the disk's under the recovered boundary. */
  lemma AttachHeld(cfg: Config, m: Machine, disk: Medium, b: Word64, resume: bool, d: VolumeState)
    requires Inv(cfg, m) && |disk.sectors| == |m.core.medium.sectors| && disk.bad == m.core.medium.bad
    requires b <= m.core.Total() && AllHold(cfg.format, disk, m.core.store, b)
    requires Reopen(cfg.format, disk, m.core.store.size) == Ok(m.core.store.(offset := b, state := d))
    ensures var r := Attach(cfg, disk, m.core.store.size, resume);
            && r.Some? && Inv(cfg, r.value) && FrameOf(r.value) == FrameOf(m)
            && r.value.core.store.layout == m.core.store.layout && r.value.cached == b
            && View(cfg, r.value) == ViewOf(Cipher(cfg, m), DataImage(disk, m.core.store.layout), b)
            && r.value.core.medium == disk && r.value.core.store.state == d
            && (r.value.core.mode == Decrypting <==> resume && d == Decrypt && 0 < b)
            && (r.value.core.mode == Encrypting <==> resume && d == Encrypt && b < m.core.Total())
            && r.value.core.mode != Paused
  {
    hide ViewOf, DataImage, AllHold, Layout.Off, Reopen;
    SameStateHolds(cfg.format, disk, m.core.store, m.core.store.(offset := b, state := d), b);
  }

  /** Booting a disk on which `b` is recoverable serves and updates the view under `b`. With resume the sweep goes on
      in the direction of the first replica if that end is not reached yet; otherwise it is Idle. */
  lemma BootsTo(cfg: Config, m: Machine, disk: Medium, b: Word64, ops: seq<LoaderOp>, resume: bool)
    requires Inv(cfg, m) && |disk.sectors| == |m.core.medium.sectors| && disk.bad == m.core.medium.bad
    requires b <= m.core.Total() && AllHold(cfg.format, disk, m.core.store, b) && BootAdmissible(cfg, m, disk, ops)
    ensures var (m', o) := BootFrom(cfg, m, disk, ops, resume);
            && Inv(cfg, m') && FrameOf(m') == FrameOf(m) && m'.core.store.layout == m.core.store.layout
               && m'.cached == b
            && (View(cfg, m'), o)
               == PlainBoot(FrameOf(m), ViewOf(Cipher(cfg, m), DataImage(disk, m.core.store.layout), b), ops)
            && var l, d := m.core.store.layout, m'.core.store.state;
               && FirstSays(cfg.format, disk, l, d) && FirstSays(cfg.format, m'.core.medium, l, d)
               && (m'.core.mode == Decrypting <==> resume && d == Decrypt && 0 < b)
               && (m'.core.mode == Encrypting <==> resume && d == Encrypt && b < l.Data())
               && m'.core.mode != Paused
  {
    hide ViewOf, DataImage, AllHold, Layout.Off, Layout.Data, Layout.MetaLba, LoaderRun, Reopen, Replica, LoaderOpsOk,
         Readable, LastSectorHonest, StoreState.HeaderMatches;
    var f, l, c := cfg.format, m.core.store.layout, Cipher(cfg, m);
    WellFormedLayout(m.core);
    ReopenHeld(f, disk, m.core.store, b);
    var after := LoaderRun(c, disk, GeometryOf(l, b), ops).0;
    LoaderRunRefines(c, disk, l, b, ops);
    SameReplicasHold(f, disk, after, m.core.store, b);
    SameBad(disk, after, l);
    ReopenHeld(f, after, m.core.store, b);
    AttachHeld(cfg, m, after, b, resume, Replica(f, after, l, 0).value.state);
    FirstReplica(f, after, l);
  }

  lemma FirstReplica(f: Format, m: Medium, l: Layout)
    requires l.Accepted() && 0 < l.Replicas() && Replica(f, m, l, 0).Some?
    ensures FirstSays(f, m, l, Replica(f, m, l, 0).value.state)
  {
    hide Layout.MetaLba;
  }

  lemma SameBad(m: Medium, m': Medium, l: Layout)
    requires l.Accepted() && |m.sectors| == |m'.sectors| && m.bad == m'.bad
    ensures Readable(m, l) == Readable(m', l)
  {
    hide Layout.MetaLba;
  }

  lemma AgreeingReplicasHold(f: Format, m: Medium, st: StoreState)
    requires Agrees(f, Concrete(st, m))
    ensures AllHold(f, m, st, st.offset)
  {
    hide Layout.MetaLba;
    var l := st.layout;
    forall i | 0 <= i < l.Replicas()
      ensures Holds(f, m, l, i, st.header, st.offset, st.secrets)
      ensures l.MetaLba(i) < |m.sectors| && Carried(f, m, l, i, st.offset)
    {
      assert Carries(f, m, l, i, st.header, st.Sealable());
    }
    assert Carried(f, m, l, 0, st.offset);
  }

  /** A volume just created starts in the invariant, and its view is what the disk held before. */
  lemma FreshVolume(cfg: Config, m: Medium, size: nat, o: Options, secrets: Secrets, volumeId: Block, salt: Block)
    requires cfg.Lawful() && o.metadataSize < 0x1_0000_0000 && size < 0x1_0000_0000 && |m.sectors| < U64
    requires o.useHeader < 256 && o.useFooter < 256 && Create(cfg.format, m, size, o, secrets, volumeId, salt).Ok?
    ensures var c := Create(cfg.format, m, size, o, secrets, volumeId, salt).value;
            var v := Machine(Core(c.m, c.st, 0, Idle), 0);
            Inv(cfg, v) && View(cfg, v) == DataImage(m, c.st.layout)
  {
    hide DataImage, WriteReplicas, SealedSector, AllHold, Agrees;
    CreateAgrees(cfg.format, m, size, o, secrets, volumeId, salt);
    var c := Create(cfg.format, m, size, o, secrets, volumeId, salt).value;
    AgreeingReplicasHold(cfg.format, c.m, c.st);
    assert ViewOf(cfg.suite(secrets), DataImage(m, c.st.layout), 0) == DataImage(m, c.st.layout);
  }
}
