/** What an interrupted batch does to the plain contents, for every stopping point; and exactly when it does
    nothing. */
module Harm {
  import opened Bytes
  import opened Errors
  import opened Layout
  import opened Metadata
  import opened Sectors
  import opened Store
  import opened Durability
  import opened DataPath
  import opened Sweep
  import opened Volume
  import opened Invariant
  import opened Crash

  /** A stretch of plain sectors enciphered, or deciphered, once too often. */
  datatype Harm = Harm(at: nat, n: nat, enciphered: bool)

  const NO_HARM := Harm(0, 0, true)

  function Harmed(c: SectorCipher, p: seq<Sector>, h: Harm): (r: seq<Sector>)
    ensures |r| == |p|
  {
    if h.at + h.n > |p| then p
    else Splice(p, h.at, if h.enciphered then EncArea(c, h.at, p[h.at..h.at + h.n])
        else DecArea(c, h.at, p[h.at..h.at + h.n]))
  }

  lemma Unharmed(c: SectorCipher, p: seq<Sector>, h: Harm)
    requires h.n == 0
    ensures Harmed(c, p, h) == p
  {
  }

  /** The boundary a boot would find after the batch stopped at `o`. */
  function Recovered(cfg: Config, c: Core, batch: nat, o: Outcome): Word64
    requires c.WellFormed()
  {
    match LoadOffset(cfg.format, ProgressStep(cfg, c, batch, o).0.medium, c.store.layout)
    case Ok(x) => x
    case Err(_) => c.boundary
  }

  function HitBelow(next: nat, t: nat, x: nat): nat {
    if next + t < x then t else if next < x then x - next else 0
  }

  /** Harm of a batch whose data write stopped, the driver running on. */
  function StopHarm(c: Core, batch: nat, o: Outcome): Harm
    requires c.WellFormed()
  {
    if Encrypts(c, batch) then
      Harm(c.boundary, SectorsReached(o, BatchCount(c.Total() - c.boundary, batch)), true)
    else if Decrypts(c, batch) then
      Harm(Next(c, batch), SectorsReached(o, BatchCount(c.boundary, batch)), false)
    else NO_HARM
  }

  /** Harm of a batch at which power was lost. */
  function CrashHarm(cfg: Config, c: Core, batch: nat, o: Outcome): Harm
    requires c.WellFormed()
  {
    var h := StopHarm(c, batch, o);
    if Encrypts(c, batch) then if ReplicasReached(o, c.store.layout.Replicas()) > 0 then h.(n := 0) else h
    else h.(n := HitBelow(h.at, h.n, Recovered(cfg, c, batch, o)))
  }

  /** Power loss harms nothing: the batch does no work or wrote no data, one replica of an encrypting batch was
      written, or one of a decrypting batch was and no later replica carries more than the new boundary. */
  ghost predicate Recoverable(cfg: Config, c: Core, batch: nat, o: Outcome)
    requires c.WellFormed()
  {
    var l := c.store.layout;
    var p := ReplicasReached(o, l.Replicas());
    if Encrypts(c, batch) then p > 0 || SectorsReached(o, BatchCount(c.Total() - c.boundary, batch)) == 0
    else if Decrypts(c, batch) then
      || SectorsReached(o, BatchCount(c.boundary, batch)) == 0
      || (p > 0 && LaterAtMost(cfg.format, c.medium, l, p, Next(c, batch)))
    else true
  }

  // ---- batches that do no work ----

  lemma NoWork(cfg: Config, c: Core, batch: nat, o: Outcome)
    requires c.WellFormed() && c.boundary <= c.Total() && !Encrypts(c, batch) && !Decrypts(c, batch)
    ensures var (c', v) := ProgressStep(cfg, c, batch, o); c'.(mode := c.mode) == c
  {
    hide Persist, Layout.Off, Layout.Data, EncArea, DecArea, Medium.WriteUpTo, Medium.Write;
  }

  /** `ProgressStep` in a working batch. */
  lemma Work(cfg: Config, c: Core, batch: nat, o: Outcome)
    requires c.WellFormed()
    ensures c.mode == Encrypting ==> ProgressStep(cfg, c, batch, o) == EncryptBatch(cfg, c, batch, o)
    ensures c.mode == Decrypting ==> ProgressStep(cfg, c, batch, o) == DecryptBatch(cfg, c, batch, o)
  {
    hide EncryptBatch, DecryptBatch;
  }

  lemma RecoveredIs(f: Format, m: Medium, st: StoreState, x: Word64)
    requires st.HeaderMatches() && |m.sectors| == st.layout.volume && Readable(m, st.layout) && AllHold(f, m, st, x)
    ensures LoadOffset(f, m, st.layout) == Ok(x)
  {
    SomeRecoverable(f, m, st, x);
    BoundaryUnique(f, m, st, x, LoadOffset(f, m, st.layout).value);
  }

  // ---- a data write that stopped, the driver running on ----

  /** The volume stays in its invariant and its view is the old one with exactly that harm. */
  lemma StopHarms(cfg: Config, m: Machine, batch: nat, n: nat)
    requires Inv(cfg, m)
    ensures var m' := SweepStep(cfg, m, batch, DataStops(n)).0;
            && Inv(cfg, m') && FrameOf(m') == FrameOf(m) && m'.core.store.layout == m.core.store.layout
            && View(cfg, m') == Harmed(Cipher(cfg, m), View(cfg, m), StopHarm(m.core, batch, DataStops(n)))
  {
    hide ViewOf, DataImage, AllHold, Layout.Off, Layout.Data, EncArea, DecArea, ProgressStep, BatchCount;
    var c := m.core;
    Work(cfg, c, batch, DataStops(n));
    assert |View(cfg, m)| == c.Total();
    if Encrypts(c, batch) {
      EncryptPartialWrite(cfg, m, batch, n);
    } else if Decrypts(c, batch) {
      DecryptPartialWrite(cfg, m, batch, n);
    } else {
      NoWork(cfg, c, batch, DataStops(n));
      Unharmed(Cipher(cfg, m), View(cfg, m), NO_HARM);
    }
  }

  // ---- power loss at any point ----

  /** The disk after power loss: what is recoverable on it, and its view under that boundary. */
  ghost predicate Leaves(cfg: Config, m: Machine, batch: nat, o: Outcome)
    requires Inv(cfg, m)
  {
    var l, disk := m.core.store.layout, ProgressStep(cfg, m.core, batch, o).0.medium;
    var x := Recovered(cfg, m.core, batch, o);
    && |disk.sectors| == |m.core.medium.sectors| && disk.bad == m.core.medium.bad
    && x <= m.core.Total() && AllHold(cfg.format, disk, m.core.store, x)
    && ViewOf(Cipher(cfg, m), DataImage(disk, l), x)
       == Harmed(Cipher(cfg, m), View(cfg, m), CrashHarm(cfg, m.core, batch, o))
  }

  lemma EncryptLeaves(cfg: Config, m: Machine, batch: nat, o: Outcome)
    requires Inv(cfg, m) && Encrypts(m.core, batch)
    requires Readable(ProgressStep(cfg, m.core, batch, o).0.medium, m.core.store.layout)
    ensures Leaves(cfg, m, batch, o)
  {
    hide ViewOf, DataImage, AllHold, Holds, Carried, Layout.Off, Layout.Data, Layout.MetaLba, EncArea, EncryptBatch,
         ProgressStep, BatchCount, LoadOffset, Readable, Splice;
    var l, b := m.core.store.layout, m.core.boundary;
    var count := BatchCount(m.core.Total() - b, batch);
    var disk := EncryptBatch(cfg, m.core, batch, o).0.medium;
    var x := if ReplicasReached(o, l.Replicas()) > 0 then b + count else b;
    Work(cfg, m.core, batch, o);
    EncryptCrashDisk(cfg, m, batch, o);
    RecoveredIs(cfg.format, disk, m.core.store, x);
    EncryptCrashView(Cipher(cfg, m), DataImage(m.core.medium, l), b, count, SectorsReached(o, count));
    Unharmed(Cipher(cfg, m), View(cfg, m), CrashHarm(cfg, m.core, batch, o).(n := 0));
  }

  lemma DecryptLeaves(cfg: Config, m: Machine, batch: nat, o: Outcome)
    requires Inv(cfg, m) && Decrypts(m.core, batch)
    requires Readable(ProgressStep(cfg, m.core, batch, o).0.medium, m.core.store.layout)
    ensures Leaves(cfg, m, batch, o)
  {
    hide ViewOf, DataImage, AllHold, Holds, Carried, LaterAtMost, AllCarry, Layout.Off, Layout.Data, Layout.MetaLba,
         DecArea, DecryptBatch, ProgressStep, BatchCount, LoadOffset, Readable;
    var l, b, next := m.core.store.layout, m.core.boundary, Next(m.core, batch);
    Work(cfg, m.core, batch, o);
    DecryptCrashDisk(cfg, m, batch, o);
    DecryptCrashBoundary(cfg, m, batch, o);
    var x := Recovered(cfg, m.core, batch, o);
    DecryptCrashView(Cipher(cfg, m), DataImage(m.core.medium, l), b, next, SectorsReached(o, b - next), x);
    assert |View(cfg, m)| == m.core.Total();
  }

  lemma CrashLeaves(cfg: Config, m: Machine, batch: nat, o: Outcome)
    requires Inv(cfg, m)
    requires Readable(ProgressStep(cfg, m.core, batch, o).0.medium, m.core.store.layout)
    ensures Leaves(cfg, m, batch, o)
  {
    hide ViewOf, DataImage, AllHold, Layout.Off, Layout.Data, EncArea, DecArea, ProgressStep, BatchCount, LoadOffset,
         Readable;
    if Encrypts(m.core, batch) {
      EncryptLeaves(cfg, m, batch, o);
    } else if Decrypts(m.core, batch) {
      DecryptLeaves(cfg, m, batch, o);
    } else {
      NoWork(cfg, m.core, batch, o);
      RecoveredIs(cfg.format, m.core.medium, m.core.store, m.core.boundary);
      Unharmed(Cipher(cfg, m), View(cfg, m), CrashHarm(cfg, m.core, batch, o));
    }
  }

  /** Power loss at any point of a batch, whatever had been written: the loader and the driver come up on the
      old plain contents with exactly that harm, and the volume is in its invariant. */
  lemma CrashHarms(cfg: Config, m: Machine, batch: nat, o: Outcome, ops: seq<LoaderOp>, resume: bool)
    requires Inv(cfg, m) && BootAdmissible(cfg, m, ProgressStep(cfg, m.core, batch, o).0.medium, ops)
    ensures var (m', out) := Exec(cfg, m, CrashSweep(batch, o, ops, resume));
            && Inv(cfg, m') && FrameOf(m') == FrameOf(m) && m'.core.store.layout == m.core.store.layout
            && (View(cfg, m'), out)
               == PlainBoot(FrameOf(m), Harmed(Cipher(cfg, m), View(cfg, m), CrashHarm(cfg, m.core, batch, o)), ops)
  {
    hide ViewOf, DataImage, AllHold, Layout.Off, Layout.Data, ProgressStep, BootFrom, PlainBoot, CrashHarm, Harmed,
         Recovered, StoreState.HeaderMatches, LoaderBoot, Readable;
    CrashLeaves(cfg, m, batch, o);
    BootsTo(cfg, m, ProgressStep(cfg, m.core, batch, o).0.medium, Recovered(cfg, m.core, batch, o), ops, resume);
  }

  // ---- exactly when nothing is harmed ----

  lemma RecoverableIsNoHarm(cfg: Config, m: Machine, batch: nat, o: Outcome)
    requires Inv(cfg, m)
    requires Readable(ProgressStep(cfg, m.core, batch, o).0.medium, m.core.store.layout)
    ensures Recoverable(cfg, m.core, batch, o) <==> CrashHarm(cfg, m.core, batch, o).n == 0
  {
    hide ViewOf, DataImage, AllHold, LaterAtMost, AllCarry, Layout.Off, Layout.Data, EncArea, DecArea, ProgressStep,
         EncryptBatch, DecryptBatch, LoadOffset, Readable;
    Work(cfg, m.core, batch, o);
    if Decrypts(m.core, batch) {
      DecryptCrashBoundary(cfg, m, batch, o);
    }
  }

  /** The cipher changes the first sector the batch works on. */
  predicate FirstSectorMoves(cfg: Config, m: Machine, batch: nat)
    requires m.core.WellFormed()
  {
    var c, v := Cipher(cfg, m), View(cfg, m);
    && (Encrypts(m.core, batch) && m.core.boundary < |v| ==>
       c.enc(m.core.boundary, v[m.core.boundary]) != v[m.core.boundary])
    && (Decrypts(m.core, batch) && Next(m.core, batch) < |v| ==>
          c.dec(Next(m.core, batch), v[Next(m.core, batch)]) != v[Next(m.core, batch)])
  }

  lemma HarmShows(c: SectorCipher, p: seq<Sector>, h: Harm)
    requires h.n > 0 && h.at + h.n <= |p|
    requires if h.enciphered then c.enc(h.at, p[h.at]) != p[h.at] else c.dec(h.at, p[h.at]) != p[h.at]
    ensures Harmed(c, p, h) != p
  {
    assert Harmed(c, p, h)[h.at] != p[h.at];
  }

  /** The condition is exact: power loss leaves the plain contents as they were if and only if it strikes at a
      recoverable point, for every cipher that changes the batch's first sector. */
  lemma CrashTransparentExactly(cfg: Config, m: Machine, batch: nat, o: Outcome, resume: bool)
    requires Inv(cfg, m) && FirstSectorMoves(cfg, m, batch)
    requires BootAdmissible(cfg, m, ProgressStep(cfg, m.core, batch, o).0.medium, [])
    ensures View(cfg, Exec(cfg, m, CrashSweep(batch, o, [], resume)).0) == View(cfg, m)
            <==> Recoverable(cfg, m.core, batch, o)
  {
    hide ViewOf, DataImage, AllHold, View, Layout.Off, Layout.Data, ProgressStep, Recoverable, Exec, Harmed, Recovered,
         LoaderBoot, Readable;
    CrashHarms(cfg, m, batch, o, [], resume);
    RecoverableIsNoHarm(cfg, m, batch, o);
    var h, v := CrashHarm(cfg, m.core, batch, o), View(cfg, m);
    assert |v| == m.core.Total() by { ViewSize(cfg, m); }
    if h.n == 0 {
      Unharmed(Cipher(cfg, m), v, h);
    } else {
      HarmShows(Cipher(cfg, m), v, h);
    }
  }

  lemma ViewSize(cfg: Config, m: Machine)
    requires m.core.WellFormed()
    ensures |View(cfg, m)| == m.core.Total()
  {
  }

  // ---- a damaged volume ----

  /** Primitives simple enough to follow by hand; every result holds for them. */
  function ToyPrimitives(): Primitives {
    Primitives((k: Key, b: Block) => b, (k: Key, b: Block) => b, (k: Bytes, m: Bytes) => Zeros(32), (b: Bytes) => 0)
  }

  function ToyConfig(): Config {
    Config(JvckCbcFormat(ToyPrimitives(), []), s => Complement())
  }

  /** 257 zero sectors of 512 bytes: one data sector and one footer replica of 128 KiB. */
  function ToyDisk(): Medium {
    Medium(seq(257, _ => Zeros(512)), {})
  }

  function ToyCreated(): Result<Concrete> {
    Create(ToyConfig().format, ToyDisk(), 512, Options(0, 1, 131072), Secrets(Zeros(32), Zeros(32)), Zeros(16),
        Zeros(16))
  }

  lemma ToyConfigLawful()
    ensures ToyConfig().Lawful()
  {
    hide JvckCbcFormat, Complement;
    JvckCbcFormatLawful(ToyPrimitives(), []);
    ComplementValid();
  }

  lemma ToyCreates()
    ensures ToyCreated().Ok?
    ensures ToyCreated().value.st.layout == Layout(257, 256, 0, 1) && ToyCreated().value.st.size == 512
    ensures ToyCreated().value.m.bad == {} && |ToyCreated().value.m.sectors| == 257
  {
    hide WriteReplicas, SealedSector, ToyConfig;
    var o := Options(0, 1, 131072);
    assert o.metadataSize / 512 == 256;
    assert ComputeGeometry(512, 257, o) == Ok(Layout(257, 256, 0, 1));
  }

  function ToyMachine(): Machine
    requires ToyCreated().Ok?
  {
    Machine(Core(ToyCreated().value.m, ToyCreated().value.st, 0, Encrypting), 0)
  }

  /** The invariant and the view do not depend on the sweep's mode. */
  lemma AnyMode(cfg: Config, m: Machine, mode: Mode)
    requires Inv(cfg, m)
    ensures var m' := m.(core := m.core.(mode := mode)); Inv(cfg, m') && View(cfg, m') == View(cfg, m)
  {
    hide ViewOf, DataImage, AllHold;
  }

  lemma ToyContents()
    ensures |ToyDisk().sectors| == 257 && DataImage(ToyDisk(), Layout(257, 256, 0, 1)) == [Zeros(512)]
  {
  }

  lemma ToyStart()
    ensures ToyCreated().Ok? && Inv(ToyConfig(), ToyMachine()) && View(ToyConfig(), ToyMachine()) == [Zeros(512)]
    ensures Cipher(ToyConfig(), ToyMachine()) == Complement()
  {
    hide View, Inv, DataImage, Create, ToyDisk, Complement, JvckCbcFormat;
    ToyCreates();
    ToyConfigLawful();
    ToyContents();
    FreshVolume(ToyConfig(), ToyDisk(), 512, Options(0, 1, 131072), Secrets(Zeros(32), Zeros(32)), Zeros(16),
        Zeros(16));
    AnyMode(ToyConfig(), Machine(Core(ToyCreated().value.m, ToyCreated().value.st, 0, Idle), 0), Encrypting);
  }

  lemma ToyCrash()
    ensures ToyCreated().Ok? && ToyMachine().core.WellFormed()
    ensures CrashHarm(ToyConfig(), ToyMachine().core, 1, SaltFails) == Harm(0, 1, true)
    ensures BootAdmissible(ToyConfig(), ToyMachine(),
              ProgressStep(ToyConfig(), ToyMachine().core, 1, SaltFails).0.medium, [])
  {
    hide View, ViewOf, DataImage, AllHold, ToyConfig, ToyCreated, Recovered, EncryptBatch, LoaderBoot;
    ToyCreates();
    ToyStart();
    var cfg, m := ToyConfig(), ToyMachine();
    assert m.core.Total() == 1;
    assert Encrypts(m.core, 1);
    Work(cfg, m.core, 1, SaltFails);
    EncryptCrashDisk(cfg, m, 1, SaltFails);
  }

  /** The damage is real: on this volume, power loss between the data write of the first batch and the first
      replica turns the one data sector from zeros to ones. */
  lemma DamagedVolume()
    ensures ToyCreated().Ok? && Inv(ToyConfig(), ToyMachine()) && View(ToyConfig(), ToyMachine()) == [Zeros(512)]
    ensures View(ToyConfig(), Exec(ToyConfig(), ToyMachine(), CrashSweep(1, SaltFails, [], true)).0)
              == [Flip(Zeros(512))]
    ensures Flip(Zeros(512)) != Zeros(512)
  {
    hide ViewOf, DataImage, AllHold, View, ToyConfig, ToyMachine, ToyCreated, Flip, ProgressStep, Exec, CrashHarm,
         BootAdmissible;
    ToyStart();
    ToyCrash();
    ComplementChanges(Zeros(512));
    CrashHarms(ToyConfig(), ToyMachine(), 1, SaltFails, [], true);
    assert Harmed(Complement(), [Zeros(512)], Harm(0, 1, true)) == [Flip(Zeros(512))];
  }
}
