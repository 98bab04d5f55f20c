/** `EncryptionEngine`: the in-place sweep over a shared disk and metadata store. */
module Engine {
  import opened Bytes
  import opened Errors
  import opened Metadata
  import opened Sectors
  import opened Store
  import opened Sweep
  import opened MetadataStoreClass

  datatype RangeResult = Unread | Stopped(n: nat) | Written

  /** Read a run of sectors, encrypt the buffer in place, write it back. */
  method EncryptRange(io: Disk, cipher: SectorCipher, abs: nat, count: nat, first: nat) returns (w: RangeResult)
    modifies io
    ensures w.Unread? <==> old(io.medium).Read(abs, count).None?
    ensures w.Unread? ==> io.medium == old(io.medium)
    ensures !w.Unread? ==>
              && old(io.medium).Fits(abs, count)
              && var out := EncArea(cipher, first, old(io.medium).Read(abs, count).value);
                 io.medium == if w.Stopped? then old(io.medium).WriteUpTo(abs, out, w.n)
                     else old(io.medium).Write(abs, out)
    ensures w.Unread? ==> io.writes == old(io.writes)
    ensures !w.Unread? ==> io.writes == old(io.writes) + 1
    ensures w.Stopped? ==> w.n < count && io.fate(old(io.writes)) == FailsAfter(w.n)
    ensures w.Written? ==> Lets(io.fate(old(io.writes)), count)
  {
    var data := io.ReadSectors(abs, count);
    if data.None? {
      return Unread;
    }
    var buf := new Sector[count](i requires 0 <= i < count => data.value[i]);
    assert buf[..count] == data.value;
    EncryptArea(cipher, buf, count, first);
    var out := buf[..];
    assert out == EncArea(cipher, first, data.value);
    WriteAll(io.medium, abs, out);
    var done, n := io.WriteSectors(abs, out);
    w := if done then Written else Stopped(n);
  }

  /** Read a run of sectors, decrypt the buffer in place, write it back. */
  method DecryptRange(io: Disk, cipher: SectorCipher, abs: nat, count: nat, first: nat) returns (w: RangeResult)
    modifies io
    ensures w.Unread? <==> old(io.medium).Read(abs, count).None?
    ensures w.Unread? ==> io.medium == old(io.medium)
    ensures !w.Unread? ==>
              && old(io.medium).Fits(abs, count)
              && var out := DecArea(cipher, first, old(io.medium).Read(abs, count).value);
                 io.medium == if w.Stopped? then old(io.medium).WriteUpTo(abs, out, w.n)
                     else old(io.medium).Write(abs, out)
    ensures w.Unread? ==> io.writes == old(io.writes)
    ensures !w.Unread? ==> io.writes == old(io.writes) + 1
    ensures w.Stopped? ==> w.n < count && io.fate(old(io.writes)) == FailsAfter(w.n)
    ensures w.Written? ==> Lets(io.fate(old(io.writes)), count)
  {
    var data := io.ReadSectors(abs, count);
    if data.None? {
      return Unread;
    }
    var buf := new Sector[count](i requires 0 <= i < count => data.value[i]);
    assert buf[..count] == data.value;
    DecryptArea(cipher, buf, count, first);
    var out := buf[..];
    assert out == DecArea(cipher, first, data.value);
    WriteAll(io.medium, abs, out);
    var done, n := io.WriteSectors(abs, out);
    w := if done then Written else Stopped(n);
  }

  /** A batch of `count` sectors ends as the device, asked from request `at` on, and the random source decide:
      one data write, one salt, and one write for each replica. */
  predicate Decides(fate: nat -> Fate, at: nat, count: nat, replicas: nat, salt: Option<Block>, o: Outcome) {
    match o
    case DataStops(n) => n < count && fate(at) == FailsAfter(n)
    case SaltFails => Lets(fate(at), count) && salt == None
    case StoreStops(k, s) =>
      && Lets(fate(at), count) && salt == Some(s) && k < replicas
      && fate(at + 1 + k) == FailsAfter(0) && AllPass(fate, at + 1, k)
    case Completes(s) =>
      Lets(fate(at), count) && salt == Some(s) && AllPass(fate, at + 1, replicas)
  }

  /** The device lets all of a request of `count` sectors through. */
  predicate Lets(d: Fate, count: nat) {
    d == Goes || d.n >= count
  }

  /** None of the `k` single-sector requests from `at` on fails. */
  predicate AllPass(fate: nat -> Fate, at: nat, k: nat) {
    forall n: nat :: at <= n < at + k ==> fate(n) != FailsAfter(0)
  }

  class EncryptionEngine {
    const offsetSector: nat
    const total: Word64
    var sector: Word64
    var state: Mode

    constructor (offsetSector: nat, sector: Word64, total: Word64)
      ensures this.offsetSector == offsetSector && this.total == total && this.sector == sector && state == Idle
    {
      this.offsetSector, this.total, this.sector, state := offsetSector, total, sector, Idle;
    }

    ghost predicate Valid(store: MetadataStore)
      reads this, store, store.io
    {
      store.Valid() && offsetSector == store.layout.Off() && total == store.layout.Data()
    }

    /** The volume as the sweep model sees it. */
    ghost function Snapshot(store: MetadataStore): (c: Core)
      requires Valid(store)
      reads this, store, store.io
      ensures c.WellFormed()
    {
      Core(store.io.medium, store.State(), sector, state)
    }

    function IsFullyEncrypted(): bool
      reads this
    {
      sector >= total
    }

    method StartEncrypt(store: MetadataStore, salt: Option<Block>) returns (k: nat)
      requires Valid(store)
      modifies this`state, store`state, store.io
      ensures Valid(store)
      ensures Snapshot(store) == Start(store.format, old(Snapshot(store)), Encrypt, salt, k)
      ensures salt.Some? ==>
                if k == store.layout.Replicas() then store.io.writes == old(store.io.writes) + k
                else store.io.fate(old(store.io.writes) + k) == FailsAfter(0)
      ensures salt.Some? && old(store.io.NoFaultPending()) ==> k == store.layout.Replicas()
      ensures store.io.writes >= old(store.io.writes)
    {
      hide WriteReplicas, SealedSector;
      var ok;
      ok, k := store.PutState(Encrypt, salt);
      state := if IsFullyEncrypted() then Idle else Encrypting;
    }

    method StartDecrypt(store: MetadataStore, salt: Option<Block>) returns (k: nat)
      requires Valid(store)
      modifies this`state, store`state, store.io
      ensures Valid(store)
      ensures Snapshot(store) == Start(store.format, old(Snapshot(store)), Decrypt, salt, k)
      ensures salt.Some? ==>
                if k == store.layout.Replicas() then store.io.writes == old(store.io.writes) + k
                else store.io.fate(old(store.io.writes) + k) == FailsAfter(0)
      ensures salt.Some? && old(store.io.NoFaultPending()) ==> k == store.layout.Replicas()
      ensures store.io.writes >= old(store.io.writes)
    {
      hide WriteReplicas, SealedSector;
      var ok;
      ok, k := store.PutState(Decrypt, salt);
      state := if sector > 0 then Decrypting else Idle;
    }

    method Resume(store: MetadataStore)
      requires Valid(store)
      modifies this`state
      ensures Valid(store) && Snapshot(store) == Sweep.Resume(old(Snapshot(store)))
    {
      match store.state
      case Encrypt => state := if IsFullyEncrypted() then Idle else Encrypting;
      case Decrypt => state := if sector > 0 then Decrypting else Idle;
    }

    method Pause(ghost store: MetadataStore)
      requires Valid(store)
      modifies this`state
      ensures Valid(store) && Snapshot(store) == Sweep.Pause(old(Snapshot(store)))
    {
      if state == Encrypting || state == Decrypting {
        state := Paused;
      }
    }

    /** Persist the moved boundary through the store. */
    method PersistBoundary(store: MetadataStore, salt: Option<Block>) returns (ok: bool, ghost o: Outcome)
      requires Valid(store)
      modifies store`offset, store.io
      ensures Valid(store) && !o.DataStops?
      ensures (Snapshot(store), ok) == Persist(store.format, old(Snapshot(store)), o)
      ensures ok <==> o.Completes?
      ensures o.SaltFails? ==> salt == None
      ensures o.StoreStops? ==>
                && salt == Some(o.salt) && o.k < store.layout.Replicas()
                && store.io.fate(old(store.io.writes) + o.k) == FailsAfter(0)
                && AllPass(store.io.fate, old(store.io.writes), o.k)
      ensures o.Completes? ==>
                salt == Some(o.salt) && AllPass(store.io.fate, old(store.io.writes), store.layout.Replicas())
      ensures store.io.writes >= old(store.io.writes)
    {
      hide WriteReplicas, SealedSector;
      var k;
      ok, k := store.Put(sector, salt);
      o := if salt.None? then SaltFails else if ok then Completes(salt.value) else StoreStops(k, salt.value);
    }

    method EncryptStep(ghost cfg: Config, cipher: SectorCipher, store: MetadataStore, batch: nat, salt: Option<Block>)
      returns (v: Verdict, ghost o: Outcome)
      requires Valid(store) && cfg.format == store.format && cipher == cfg.suite(store.secrets)
      modifies this, store`offset, store.io
      ensures Valid(store)
      ensures (Snapshot(store), v) == EncryptBatch(cfg, old(Snapshot(store)), batch, o)
      ensures old(Encrypts(Snapshot(store).(mode := Encrypting), batch)) ==>
                Decides(store.io.fate, old(store.io.writes), BatchCount(total - old(sector), batch),
                    store.layout.Replicas(), salt, o)
      ensures old(Encrypts(Snapshot(store).(mode := Encrypting), batch)) && salt.Some?
              && old(store.io.NoFaultPending()) ==>
                o == Completes(salt.value) && v != Failed
      ensures store.io.writes >= old(store.io.writes)
    {
      hide Persist, EncArea, Medium.WriteUpTo, Medium.Write, BatchCount;
      o := SaltFails;
      if IsFullyEncrypted() {
        state := Idle;
        return Finished, o;
      }
      var startRel := sector;
      var remaining := total - startRel;
      var count := BatchCount(remaining, batch);
      var abs := offsetSector + startRel;
      DataRegionInside(store.layout);
      var w := EncryptRange(store.io, cipher, abs, count, startRel);
      if w != Written {
        return Failed, if w.Stopped? then DataStops(w.n) else o;
      }
      sector := sector + count;
      var ok;
      ok, o := PersistBoundary(store, salt);
      if !ok {
        return Failed, o;
      }
      if IsFullyEncrypted() {
        state := Idle;
        v := Finished;
      } else {
        v := More;
      }
    }

    method DecryptStep(ghost cfg: Config, cipher: SectorCipher, store: MetadataStore, batch: nat, salt: Option<Block>)
      returns (v: Verdict, ghost o: Outcome)
      requires Valid(store) && cfg.format == store.format && cipher == cfg.suite(store.secrets)
      modifies this, store`offset, store.io
      ensures Valid(store)
      ensures (Snapshot(store), v) == DecryptBatch(cfg, old(Snapshot(store)), batch, o)
      ensures old(Decrypts(Snapshot(store).(mode := Decrypting), batch)) ==>
                Decides(store.io.fate, old(store.io.writes), BatchCount(old(sector), batch), store.layout.Replicas(),
                    salt, o)
      ensures old(Decrypts(Snapshot(store).(mode := Decrypting), batch)) && salt.Some?
              && old(store.io.NoFaultPending()) ==>
                o == Completes(salt.value) && v != Failed
      ensures store.io.writes >= old(store.io.writes)
    {
      hide Persist, DecArea, Medium.WriteUpTo, Medium.Write, BatchCount;
      o := SaltFails;
      if sector == 0 {
        state := Idle;
        return Finished, o;
      }
      var count := BatchCount(sector, batch);
      var newBoundary := sector - count;
      var abs := offsetSector + newBoundary;
      var w := DecryptRange(store.io, cipher, abs, count, newBoundary);
      if w != Written {
        return Failed, if w.Stopped? then DataStops(w.n) else o;
      }
      sector := newBoundary;
      var ok;
      ok, o := PersistBoundary(store, salt);
      if !ok {
        return Failed, o;
      }
      if newBoundary == 0 {
        state := Idle;
        v := Finished;
      } else {
        v := More;
      }
    }

    method ProgressStep(ghost cfg: Config, cipher: SectorCipher, store: MetadataStore, batch: nat, salt: Option<Block>)
      returns (v: Verdict, ghost o: Outcome)
      requires Valid(store) && cfg.format == store.format && cipher == cfg.suite(store.secrets)
      modifies this, store`offset, store.io
      ensures Valid(store)
      ensures (Snapshot(store), v) == Sweep.ProgressStep(cfg, old(Snapshot(store)), batch, o)
      ensures old(Encrypts(Snapshot(store), batch)) ==>
                Decides(store.io.fate, old(store.io.writes), BatchCount(total - old(sector), batch),
                        store.layout.Replicas(), salt, o)
      ensures old(Decrypts(Snapshot(store), batch)) ==>
                Decides(store.io.fate, old(store.io.writes), BatchCount(old(sector), batch),
                        store.layout.Replicas(), salt, o)
      ensures old(Encrypts(Snapshot(store), batch) || Decrypts(Snapshot(store), batch)) && salt.Some?
              && old(store.io.NoFaultPending()) ==>
                o == Completes(salt.value) && v != Failed
      ensures store.io.writes >= old(store.io.writes)
    {
      hide EncryptBatch, DecryptBatch;
      match state {
        case Encrypting => v, o := EncryptStep(cfg, cipher, store, batch, salt);
        case Decrypting => v, o := DecryptStep(cfg, cipher, store, batch, salt);
        case _ => v, o := Finished, SaltFails;
      }
    }
  }
}
