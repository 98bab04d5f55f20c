/** The encrypt/decrypt sweep as a function of the volume, with every I/O outcome explicit. */
module Sweep {
  import opened Errors
  import opened Bytes
  import opened Layout
  import opened Metadata
  import opened Sectors
  import opened Store
  import opened Durability
  import Arith
  import Xts

  datatype Mode = Idle | Encrypting | Decrypting | Paused

  /** What the engine works on: the raw medium, the store object, and its own boundary and mode. */
  datatype Core = Core(medium: Medium, store: StoreState, boundary: Word64, mode: Mode) {
    predicate WellFormed() {
      store.HeaderMatches() && |medium.sectors| == store.layout.volume
    }

    function Off(): nat { store.layout.Off() }

    function Total(): Word64
      requires store.HeaderMatches()
    {
      store.layout.Data()
    }

    predicate FullyEncrypted()
      requires store.HeaderMatches()
    {
      boundary >= Total()
    }
  }

  /** The format under the volume's VMK and the cipher suite that turns recovered keys into a cipher. */
  datatype Config = Config(format: Format, suite: Secrets -> SectorCipher) {
    ghost predicate Lawful() {
      format.Lawful() && forall s :: suite(s).Valid()
    }
  }

  /** How far one batch's writes get. Reads fail exactly on unreadable sectors. */
  datatype Outcome =
    | DataStops(n: nat)                    // `n` data sectors written, then an error
    | SaltFails                            // all data written, no random salt
    | StoreStops(k: nat, salt: Block)      // all data and `k` replicas written, then an error
    | Completes(salt: Block)

  /** Ok(true), Ok(false) and Err of `progress_step`. */
  datatype Verdict = More | Finished | Failed

  function AtLeastOne(batch: nat): (b: nat)
    ensures b > 0
  {
    if batch == 0 then 1 else batch
  }

  function BatchCount(remaining: nat, batch: nat): (n: nat)
    ensures n <= remaining && (remaining > 0 ==> n > 0)
  {
    var b := AtLeastOne(batch);
    if remaining < b then remaining else b
  }

  /** There is a batch to run in this direction, and its sectors can be read. */
  predicate Encrypts(c: Core, batch: nat)
    requires c.WellFormed()
  {
    c.mode == Encrypting && !c.FullyEncrypted()
    && c.medium.Readable(c.Off() + c.boundary, BatchCount(c.Total() - c.boundary, batch))
  }

  predicate Decrypts(c: Core, batch: nat)
    requires c.WellFormed()
  {
    c.mode == Decrypting && 0 < c.boundary <= c.Total()
    && c.medium.Readable(c.Off() + Next(c, batch), c.boundary - Next(c, batch))
  }

  function Next(c: Core, batch: nat): (n: nat)
    ensures n <= c.boundary && (c.boundary > 0 ==> n < c.boundary)
  {
    c.boundary - BatchCount(c.boundary, batch)
  }

  /** How many replicas a batch with this outcome rewrote. */
  function ReplicasReached(o: Outcome, replicas: nat): (n: nat)
    ensures n <= replicas
  {
    match o
    case DataStops(_) => 0
    case SaltFails => 0
    case StoreStops(k, _) => if k < replicas then k else if replicas > 0 then replicas - 1 else 0
    case Completes(_) => replicas
  }

  /** Persist the moved boundary: the store's own offset moves first, then the replicas are written. */
  function Persist(f: Format, c: Core, o: Outcome): (r: (Core, bool))
    requires c.WellFormed()
    ensures r.0.WellFormed() && r.0.boundary == c.boundary && r.0.mode == c.mode && r.0.store.layout == c.store.layout
  {
    var l, st := c.store.layout, c.store.(offset := c.boundary);
    match o
    case DataStops(_) => (c, false)
    case SaltFails => (c.(store := st), false)
    case StoreStops(k, salt) =>
      var n := ReplicasReached(o, l.Replicas());
      (c.(store := st, medium := WriteReplicas(c.medium, l, SealedSector(f, st, salt), n)), false)
    case Completes(salt) =>
      (c.(store := st, medium := WriteReplicas(c.medium, l, SealedSector(f, st, salt), l.Replicas())), true)
  }

  function EncryptBatch(cfg: Config, c: Core, batch: nat, o: Outcome): (r: (Core, Verdict))
    requires c.WellFormed()
    ensures r.0.WellFormed() && r.0.store.layout == c.store.layout
  {
    if c.FullyEncrypted() then (c.(mode := Idle), Finished)
    else
      var count := BatchCount(c.Total() - c.boundary, batch);
      var abs := c.Off() + c.boundary;
      match c.medium.Read(abs, count)
      case None => (c, Failed)
      case Some(buf) =>
        DataRegionInside(c.store.layout);
        var out := EncArea(cfg.suite(c.store.secrets), c.boundary, buf);
        if o.DataStops? then (c.(medium := c.medium.WriteUpTo(abs, out, o.n)), Failed)
        else
          var (c', stored) := Persist(cfg.format,
              c.(medium := c.medium.Write(abs, out), boundary := c.boundary + count), o);
          if !stored then (c', Failed)
          else if c'.FullyEncrypted() then (c'.(mode := Idle), Finished)
          else (c', More)
  }

  function DecryptBatch(cfg: Config, c: Core, batch: nat, o: Outcome): (r: (Core, Verdict))
    requires c.WellFormed()
    ensures r.0.WellFormed() && r.0.store.layout == c.store.layout
  {
    if c.boundary == 0 then (c.(mode := Idle), Finished)
    else
      var count := BatchCount(c.boundary, batch);
      var next := c.boundary - count;
      var abs := c.Off() + next;
      match c.medium.Read(abs, count)
      case None => (c, Failed)
      case Some(buf) =>
        var out := DecArea(cfg.suite(c.store.secrets), next, buf);
        if o.DataStops? then (c.(medium := c.medium.WriteUpTo(abs, out, o.n)), Failed)
        else
          var (c', stored) := Persist(cfg.format, c.(medium := c.medium.Write(abs, out), boundary := next), o);
          if !stored then (c', Failed)
          else if next == 0 then (c'.(mode := Idle), Finished)
          else (c', More)
  }

  function ProgressStep(cfg: Config, c: Core, batch: nat, o: Outcome): (r: (Core, Verdict))
    requires c.WellFormed()
    ensures r.0.WellFormed() && r.0.store.layout == c.store.layout
  {
    match c.mode
    case Encrypting => EncryptBatch(cfg, c, batch, o)
    case Decrypting => DecryptBatch(cfg, c, batch, o)
    case _ => (c, Finished)
  }

  /** Where the sweep goes in direction `d` from the current boundary. */
  function ModeFor(c: Core, d: VolumeState): Mode
    requires c.store.HeaderMatches()
  {
    match d
    case Encrypt => if c.FullyEncrypted() then Idle else Encrypting
    case Decrypt => if c.boundary > 0 then Decrypting else Idle
  }

  /** `start_encrypt` / `start_decrypt`: persist the direction (errors ignored), then set the mode.
      `k` replicas are written before an error; none without a salt. */
  function Start(f: Format, c: Core, d: VolumeState, salt: Option<Block>, k: nat): (r: Core)
    requires c.WellFormed()
    ensures r.WellFormed() && r.store.layout == c.store.layout
  {
    var l, st := c.store.layout, c.store.(state := d);
    var n := if k <= l.Replicas() then k else l.Replicas();
    var m := match salt case None => c.medium case Some(s) => WriteReplicas(c.medium, l, SealedSector(f, st, s), n);
    Core(m, st, c.boundary, ModeFor(c, d))
  }

  function Resume(c: Core): (r: Core)
    requires c.WellFormed()
    ensures r.WellFormed()
  {
    c.(mode := ModeFor(c, c.store.state))
  }

  function Pause(c: Core): Core {
    if c.mode == Encrypting || c.mode == Decrypting then c.(mode := Paused) else c
  }

  lemma DataRegionInside(l: Layout)
    requires l.Accepted()
    ensures l.Off() + l.Data() <= l.volume
  {
    Arith.Distribute(l.headers, l.footers, l.rs);
  }

  // ---- the default suite ----

  /** AES-256-XTS under the two recovered keys. */
  function AesXts(p: Primitives, s: Secrets): Xts.Cipher {
    Xts.Cipher((b: Block) => p.aesEncrypt(s.fvekKey1, b), (b: Block) => p.aesDecrypt(s.fvekKey1, b),
               (b: Block) => p.aesEncrypt(s.fvekKey2, b))
  }

  /** The JVCK metadata format under `vmk` with AES-XTS for the data. */
  function StandardConfig(p: Primitives, vmk: Bytes): Config {
    Config(JvckCbcFormat(p, vmk), s => XtsVolumeCipher(AesXts(p, s)))
  }

  /** It is lawful whenever AES is a permutation under every key, so every result below applies to it. */
  lemma StandardConfigLawful(p: Primitives, vmk: Bytes)
    requires p.Valid() && forall k: Key, b: Block :: p.aesEncrypt(k, p.aesDecrypt(k, b)) == b
    ensures StandardConfig(p, vmk).Lawful()
  {
    hide JvckCbcFormat, XtsVolumeCipher;
    JvckCbcFormatLawful(p, vmk);
    forall s
      ensures XtsVolumeCipher(AesXts(p, s)).Valid()
    {
      AesXtsValid(p, s);
      XtsVolumeCipherValid(AesXts(p, s));
    }
  }

  lemma AesXtsValid(p: Primitives, s: Secrets)
    requires p.Valid() && forall k: Key, b: Block :: p.aesEncrypt(k, p.aesDecrypt(k, b)) == b
    ensures AesXts(p, s).Valid()
  {
    var c, k := AesXts(p, s), s.fvekKey1;
    forall b: Block
      ensures c.decrypt1(c.encrypt1(b)) == b
    {
      var e: Block := p.aesEncrypt(k, b);
      assert c.encrypt1(b) == e && p.aesDecrypt(k, e) == b;
    }
    forall b: Block
      ensures c.encrypt1(c.decrypt1(b)) == b
    {
      var e: Block := p.aesDecrypt(k, b);
      assert c.decrypt1(b) == e && p.aesEncrypt(k, e) == b;
    }
  }
}
