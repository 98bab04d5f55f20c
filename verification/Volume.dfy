/** The whole volume as a state machine, and its refinement of a plain, unencrypted disk. */
module Volume {
  import opened Bytes
  import opened Errors
  import opened Layout
  import opened Metadata
  import opened Sectors
  import opened Store
  import opened Durability
  import opened DataPath
  import opened Sweep
  import Arith

  // ---- the abstraction function ----

  /** The plain contents of a data region whose first `b` sectors are ciphertext. */
  function ViewOf(c: SectorCipher, data: seq<Sector>, b: nat): (p: seq<Sector>)
    ensures |p| == |data|
  {
    seq(|data|, rel requires 0 <= rel < |data| => if rel < b then c.dec(rel, data[rel]) else data[rel])
  }

  function GeometryOf(l: Layout, b: nat): Geometry
    requires l.Accepted()
  {
    Geometry(l.Off(), l.Data(), b)
  }

  predicate InRange(l: Layout, lba: nat, n: nat)
    requires l.Accepted()
  {
    l.Off() <= lba && lba + n <= l.Off() + l.Data()
  }

  // ---- data accesses against the view ----

  lemma DataSlice(m: Medium, l: Layout, lba: nat, n: nat)
    requires l.Accepted() && l.volume == |m.sectors| && InRange(l, lba, n)
    ensures m.Fits(lba, n)
    ensures m.sectors[lba..lba + n] == DataImage(m, l)[lba - l.Off()..lba - l.Off() + n]
  {
    DataRegionInside(l);
    Slice(m.sectors, l.Off(), l.Data(), lba - l.Off(), n);
  }

  lemma DataWrite(m: Medium, l: Layout, lba: nat, buf: seq<Sector>)
    requires l.Accepted() && l.volume == |m.sectors| && InRange(l, lba, |buf|)
    ensures m.Fits(lba, |buf|)
    ensures DataImage(m.Write(lba, buf), l) == Splice(DataImage(m, l), lba - l.Off(), buf)
    ensures forall i :: 0 <= i < l.Replicas() ==>
                          && l.MetaLba(i) < l.volume
                          && m.Write(lba, buf).sectors[l.MetaLba(i)] == m.sectors[l.MetaLba(i)]
  {
    hide Layout.MetaLba;
    DataRegionInside(l);
    forall i | 0 <= i < l.Replicas()
      ensures l.MetaLba(i) < l.volume && m.Write(lba, buf).sectors[l.MetaLba(i)] == m.sectors[l.MetaLba(i)]
    {
      MetaLbas(l, i);
    }
  }

  /** A driver read returns the view, also when it straddles the boundary. */
  lemma DriverReadsView(c: SectorCipher, m: Medium, l: Layout, b: nat, lba: nat, n: nat)
    requires l.Accepted() && l.volume == |m.sectors| && InRange(l, lba, n) && b <= l.Data()
    ensures DriverDecrypt(c, GeometryOf(l, b), lba, m.sectors[lba..lba + n])
            == ViewOf(c, DataImage(m, l), b)[lba - l.Off()..lba - l.Off() + n]
  {
    hide DriverDecrypt, DataImage, ViewOf, Layout.Off, Layout.Data;
    DataSlice(m, l, lba, n);
    DriverReadsSlice(c, GeometryOf(l, b), DataImage(m, l), lba, m.sectors[lba..lba + n]);
  }

  lemma DriverReadsSlice(c: SectorCipher, g: Geometry, d: seq<Sector>, lba: nat, buf: seq<Sector>)
    requires |d| == g.total && g.boundary <= g.total && g.off <= lba && lba + |buf| <= g.off + g.total
    requires buf == d[lba - g.off..lba - g.off + |buf|]
    ensures DriverDecrypt(c, g, lba, buf) == ViewOf(c, d, g.boundary)[lba - g.off..lba - g.off + |buf|]
  {
    hide DriverDecrypt;
    DriverPointwise(c, g, lba, buf);
    var x, y := DriverDecrypt(c, g, lba, buf), ViewOf(c, d, g.boundary)[lba - g.off..lba - g.off + |buf|];
    forall i | 0 <= i < |buf|
      ensures x[i] == y[i]
    {
      assert buf[i] == d[lba - g.off + i];
    }
  }

  /** A driver write that got `k` sectors far splices exactly those sectors into the view. */
  lemma DriverWritesView(c: SectorCipher, m: Medium, l: Layout, b: nat, lba: nat, data: seq<Sector>, k: nat)
    requires c.Valid()
    requires l.Accepted() && l.volume == |m.sectors| && InRange(l, lba, |data|) && b <= l.Data() && k <= |data|
    ensures var m' := m.WriteUpTo(lba, DriverEncrypt(c, GeometryOf(l, b), lba, data), k);
            && ViewOf(c, DataImage(m', l), b) == Splice(ViewOf(c, DataImage(m, l), b), lba - l.Off(), data[..k])
            && forall i :: 0 <= i < l.Replicas() ==>
                             l.MetaLba(i) < l.volume && m'.sectors[l.MetaLba(i)] == m.sectors[l.MetaLba(i)]
  {
    hide DriverEncrypt, DataImage, Layout.MetaLba;
    var g := GeometryOf(l, b);
    var out := DriverEncrypt(c, g, lba, data);
    DriverPointwise(c, g, lba, data);
    DataRegionInside(l);
    DataWrite(m, l, lba, out[..k]);
    SplicedView(c, DataImage(m, l), b, lba - l.Off(), out[..k], data[..k]);
  }

  /** Splicing per-sector ciphertext below `b` and plaintext above splices the plaintext into the view. */
  lemma SplicedView(c: SectorCipher, d: seq<Sector>, b: nat, at: nat, out: seq<Sector>, data: seq<Sector>)
    requires c.Valid() && |out| == |data| && at + |out| <= |d|
    requires forall i :: 0 <= i < |out| ==> out[i] == if at + i < b then c.enc(at + i, data[i]) else data[i]
    ensures ViewOf(c, Splice(d, at, out), b) == Splice(ViewOf(c, d, b), at, data)
  {
    var v, w := ViewOf(c, Splice(d, at, out), b), Splice(ViewOf(c, d, b), at, data);
    forall k | 0 <= k < |d|
      ensures v[k] == w[k]
    {
      if at <= k < at + |out| {
        assert out[k - at] == if k < b then c.enc(k, data[k - at]) else data[k - at];
      }
    }
  }

  /** The loader, deciding per sector, sees and updates the same view. */
  lemma LoaderMatchesView(c: SectorCipher, m: Medium, l: Layout, b: nat, lba: nat, n: nat, data: seq<Sector>)
    requires l.Accepted() && l.volume == |m.sectors| && InRange(l, lba, n) && |data| == n && b <= l.Data()
    ensures LoaderDecrypt(c, GeometryOf(l, b), lba, m.sectors[lba..lba + n])
            == DriverDecrypt(c, GeometryOf(l, b), lba, m.sectors[lba..lba + n])
    ensures LoaderEncrypt(c, GeometryOf(l, b), lba, data) == DriverEncrypt(c, GeometryOf(l, b), lba, data)
  {
    DataRegionInside(l);
    AgreeFromDataRegionOn(GeometryOf(l, b), lba, n);
    PathsAgree(c, GeometryOf(l, b), lba, m.sectors[lba..lba + n]);
    PathsAgree(c, GeometryOf(l, b), lba, data);
  }

  // ---- the sweep against the view ----

  /** Encrypting the next `count` sectors and moving the boundary past them keeps the view. */
  lemma EncryptKeepsView(c: SectorCipher, d: seq<Sector>, b: nat, count: nat)
    requires c.Valid() && b + count <= |d|
    ensures ViewOf(c, Splice(d, b, EncArea(c, b, d[b..b + count])), b + count) == ViewOf(c, d, b)
  {
    var was, now := ViewOf(c, d, b), ViewOf(c, Splice(d, b, EncArea(c, b, d[b..b + count])), b + count);
    forall k | 0 <= k < |d|
      ensures now[k] == was[k]
    {
      if b <= k < b + count {
        assert d[b..b + count][k - b] == d[k];
      }
    }
  }

  /** Decrypting the last `count` sectors below the boundary and moving it before them keeps the view. */
  lemma DecryptKeepsView(c: SectorCipher, d: seq<Sector>, b: nat, count: nat)
    requires count <= b <= |d|
    ensures ViewOf(c, Splice(d, b - count, DecArea(c, b - count, d[b - count..b])), b - count) == ViewOf(c, d, b)
  {
    var next := b - count;
    var was, now := ViewOf(c, d, b), ViewOf(c, Splice(d, next, DecArea(c, next, d[next..b])), next);
    forall k | 0 <= k < |d|
      ensures now[k] == was[k]
    {
      if next <= k < b {
        assert d[next..b][k - next] == d[k];
      }
    }
  }

  // ---- the machine ----

  /** The sweep core and the boundary cached for the data path. */
  datatype Machine = Machine(core: Core, cached: Word64)

  datatype LoaderOp = LoaderRead(lba: nat, n: nat) | LoaderWrite(lba: nat, data: seq<Sector>, k: nat)

  /** `k` is how many sectors (or replicas) a write reached before an error, if any. */
  datatype Step =
    | Read(lba: nat, n: nat)
    | Write(lba: nat, data: seq<Sector>, k: nat)
    | SweepOnce(batch: nat, o: Outcome)
    | StartSweep(d: VolumeState, salt: Option<Block>, k: nat)
    | PauseSweep
    | Boot(ops: seq<LoaderOp>, resume: bool)
    | CrashSweep(batch: nat, o: Outcome, ops: seq<LoaderOp>, resume: bool)   // power lost during a batch

  datatype Output = Contents(data: seq<Sector>) | IoError | Written | Quiet | Booted(loader: seq<Output>) | BootError

  function Cipher(cfg: Config, m: Machine): SectorCipher {
    cfg.suite(m.core.store.secrets)
  }

  function DriverRead(c: SectorCipher, m: Medium, g: Geometry, lba: nat, n: nat): Output {
    if n == 0 then Contents([])
    else
      match m.Read(lba, n) case None => IoError case Some(buf) => Contents(DriverDecrypt(c, g, lba, buf))
  }

  function WriteOutput(data: seq<Sector>, k: nat): Output {
    if k == |data| then Written else IoError
  }

  function SweepStep(cfg: Config, m: Machine, batch: nat, o: Outcome): (r: (Machine, Verdict))
    requires m.core.WellFormed()
    ensures r.0.core.WellFormed() && r.0.core.store.layout == m.core.store.layout
  {
    var (core, v) := ProgressStep(cfg, m.core, batch, o);
    (Machine(core, if v.Failed? then m.cached else core.boundary), v)
  }

  // ---- between boots ----

  function LoaderStep(c: SectorCipher, m: Medium, g: Geometry, op: LoaderOp): (r: (Medium, Output))
    ensures |r.0.sectors| == |m.sectors| && r.0.bad == m.bad
  {
    match op
    case LoaderRead(lba, n) =>
      (m, match m.Read(lba, n) case None => IoError case Some(buf) => Contents(LoaderDecrypt(c, g, lba, buf)))
    case LoaderWrite(lba, data, k) => (m.WriteUpTo(lba, LoaderEncrypt(c, g, lba, data), k), WriteOutput(data, k))
  }

  function LoaderRun(c: SectorCipher, m: Medium, g: Geometry, ops: seq<LoaderOp>): (r: (Medium, seq<Output>))
    ensures |r.0.sectors| == |m.sectors| && r.0.bad == m.bad
    decreases |ops|
  {
    if ops == [] then (m, [])
    else
      var (m1, o) := LoaderStep(c, m, g, ops[0]);
      var (m2, os) := LoaderRun(c, m1, g, ops[1..]);
      (m2, [o] + os)
  }

  /** The loader opens the store from the disk, serves `ops`, and leaves; `None` if it cannot open. */
  function LoaderBoot(cfg: Config, m: Medium, size: nat, ops: seq<LoaderOp>): Option<(Medium, seq<Output>)> {
    match Reopen(cfg.format, m, size)
    case Err(_) => None
    case Ok(st) =>
      if !st.layout.Accepted() then None
      else Some(LoaderRun(cfg.suite(st.secrets), m, GeometryOf(st.layout, st.offset), ops))
  }

  /** The driver attaches from the disk alone; the sweep resumes in the stored direction or stays idle. */
  function Attach(cfg: Config, m: Medium, size: nat, resume: bool): Option<Machine> {
    match Reopen(cfg.format, m, size)
    case Err(_) => None
    case Ok(st) =>
      var core := Core(m, st, st.offset, Idle);
      if !core.WellFormed() then None
      else Some(Machine(if resume then Resume(core) else core, st.offset))
  }

  /** Everything but the disk is lost: the loader serves `ops` from it, then the driver attaches. */
  function BootFrom(cfg: Config, m: Machine, disk: Medium, ops: seq<LoaderOp>, resume: bool): (r: (Machine, Output))
    requires m.core.WellFormed()
    ensures r.0.core.WellFormed()
  {
    match LoaderBoot(cfg, disk, m.core.store.size, ops)
    case None => (m, BootError)
    case Some((medium, outs)) =>
      match Attach(cfg, medium, m.core.store.size, resume)
      case None => (m, BootError)
      case Some(m') => (m', Booted(outs))
  }

  function Exec(cfg: Config, m: Machine, s: Step): (r: (Machine, Output))
    requires m.core.WellFormed()
    ensures r.0.core.WellFormed()
  {
    var l := m.core.store.layout;
    var g := GeometryOf(l, m.cached);
    match s
    case Read(lba, n) => (m, DriverRead(Cipher(cfg, m), m.core.medium, g, lba, n))
    case Write(lba, data, k) =>
      var medium := m.core.medium.WriteUpTo(lba, DriverEncrypt(Cipher(cfg, m), g, lba, data), k);
      (m.(core := m.core.(medium := medium)), WriteOutput(data, k))
    case SweepOnce(batch, o) => (SweepStep(cfg, m, batch, o).0, Quiet)
    case StartSweep(d, salt, k) => (m.(core := Start(cfg.format, m.core, d, salt, k)), Quiet)
    case PauseSweep => (m.(core := Pause(m.core)), Quiet)
    case Boot(ops, resume) => BootFrom(cfg, m, m.core.medium, ops, resume)
    case CrashSweep(batch, o, ops, resume) =>
      BootFrom(cfg, m, ProgressStep(cfg, m.core, batch, o).0.medium, ops, resume)
  }

  function Run(cfg: Config, m: Machine, steps: seq<Step>): (r: (Machine, seq<Output>))
    requires m.core.WellFormed()
    ensures r.0.core.WellFormed()
    decreases |steps|
  {
    if steps == [] then (m, [])
    else
      var (m1, o) := Exec(cfg, m, steps[0]);
      var (m2, os) := Run(cfg, m1, steps[1..]);
      (m2, [o] + os)
  }

  // ---- the plain disk ----

  /** Geometry the plain disk shares with the encrypted one. */
  datatype Frame = Frame(off: nat, bad: set<nat>)

  predicate FrameReadable(fr: Frame, lba: nat, n: nat) {
    forall k :: lba <= k < lba + n ==> k !in fr.bad
  }

  function PlainRead(fr: Frame, p: seq<Sector>, lba: nat, n: nat): Output {
    if !(fr.off <= lba && lba + n <= fr.off + |p|) || !FrameReadable(fr, lba, n) then IoError
    else Contents(p[lba - fr.off..lba - fr.off + n])
  }

  function PlainWrite(fr: Frame, p: seq<Sector>, lba: nat, data: seq<Sector>, k: nat): (r: seq<Sector>)
    ensures |r| == |p|
  {
    if fr.off <= lba && lba + |data| <= fr.off + |p| && k <= |data| then Splice(p, lba - fr.off, data[..k]) else p
  }

  function PlainLoaderStep(fr: Frame, p: seq<Sector>, op: LoaderOp): (r: (seq<Sector>, Output))
    ensures |r.0| == |p|
  {
    match op
    case LoaderRead(lba, n) => (p, PlainRead(fr, p, lba, n))
    case LoaderWrite(lba, data, k) => (PlainWrite(fr, p, lba, data, k), WriteOutput(data, k))
  }

  function PlainLoaderRun(fr: Frame, p: seq<Sector>, ops: seq<LoaderOp>): (r: (seq<Sector>, seq<Output>))
    ensures |r.0| == |p|
    decreases |ops|
  {
    if ops == [] then (p, [])
    else
      var (p1, o) := PlainLoaderStep(fr, p, ops[0]);
      var (p2, os) := PlainLoaderRun(fr, p1, ops[1..]);
      (p2, [o] + os)
  }

  function PlainBoot(fr: Frame, p: seq<Sector>, ops: seq<LoaderOp>): (r: (seq<Sector>, Output))
    ensures |r.0| == |p|
  {
    var (p', outs) := PlainLoaderRun(fr, p, ops);
    (p', Booted(outs))
  }

  /** Only reads, writes and the loader's accesses mean anything to a plain disk. */
  function PlainExec(fr: Frame, p: seq<Sector>, s: Step): (r: (seq<Sector>, Output))
    ensures |r.0| == |p|
  {
    match s
    case Read(lba, n) => (p, if n == 0 then Contents([]) else PlainRead(fr, p, lba, n))
    case Write(lba, data, k) => (PlainWrite(fr, p, lba, data, k), WriteOutput(data, k))
    case Boot(ops, _) => PlainBoot(fr, p, ops)
    case CrashSweep(_, _, ops, _) => PlainBoot(fr, p, ops)
    case _ => (p, Quiet)
  }

  function PlainRun(fr: Frame, p: seq<Sector>, steps: seq<Step>): (seq<Sector>, seq<Output>)
    decreases |steps|
  {
    if steps == [] then (p, [])
    else
      var (p1, o) := PlainExec(fr, p, steps[0]);
      var (p2, os) := PlainRun(fr, p1, steps[1..]);
      (p2, [o] + os)
  }
}
