/** `AttachedVolume`: the engine, the store and the lock-free boundary cache the data path reads. */
module AttachedVolumes {
  import opened Bytes
  import opened Errors
  import opened Layout
  import opened Metadata
  import opened Sectors
  import opened Store
  import opened DataPath
  import opened Sweep
  import opened Volume
  import opened MetadataStoreClass
  import opened Engine

  class AttachedVolume {
    const engine: EncryptionEngine
    const store: MetadataStore
    const suite: Secrets -> SectorCipher
    var encryptedBoundary: Word64

    constructor (engine: EncryptionEngine, store: MetadataStore, suite: Secrets -> SectorCipher)
      requires engine.Valid(store)
      ensures Valid() && this.engine == engine && this.store == store && this.suite == suite
      ensures encryptedBoundary == engine.sector
    {
      this.engine, this.store, this.suite, encryptedBoundary := engine, store, suite, engine.sector;
    }

    ghost function Repr(): set<object> { {this, engine, store, store.io} }

    ghost predicate Valid()
      reads this, engine, store, store.io
    {
      engine.Valid(store)
    }

    ghost function Cfg(): Config { Config(store.format, suite) }

    ghost function Snapshot(): (m: Machine)
      requires Valid()
      reads this, engine, store, store.io
      ensures m.core.WellFormed()
    {
      Machine(engine.Snapshot(store), encryptedBoundary)
    }

    function DataGeometry(): Geometry
      reads this
    {
      Geometry(engine.offsetSector, engine.total, encryptedBoundary)
    }

    method SyncBoundary()
      modifies this
      ensures encryptedBoundary == engine.sector
    {
      encryptedBoundary := engine.sector;
    }

    /** What the supplier may hand out: this volume's cipher, or nothing. */
    ghost predicate Supplies(cipher: Option<SectorCipher>)
      reads this
    {
      cipher.Some? ==> cipher.value == suite(store.secrets)
    }

    /** One batch; the cache follows the engine only when the step returned Ok. Without a cipher nothing happens
        and the volume counts as idle. */
    method SweepStep(cipher: Option<SectorCipher>, batch: nat, salt: Option<Block>)
      returns (v: Verdict, ghost o: Outcome)
      requires Valid() && Supplies(cipher)
      modifies this, engine, store`offset, store.io
      ensures Valid()
      ensures cipher.None? ==> v == Finished && Snapshot() == old(Snapshot())
      ensures cipher.Some? ==> (Snapshot(), v) == Volume.SweepStep(Cfg(), old(Snapshot()), batch, o)
      ensures cipher.Some? ==> (Snapshot(), Quiet) == Exec(Cfg(), old(Snapshot()), SweepOnce(batch, o))
      ensures cipher.Some? && old(Encrypts(Snapshot().core, batch)) ==>
                Decides(store.io.fate, old(store.io.writes), BatchCount(engine.total - old(engine.sector), batch),
                        store.layout.Replicas(), salt, o)
      ensures cipher.Some? && old(Decrypts(Snapshot().core, batch)) ==>
                Decides(store.io.fate, old(store.io.writes), BatchCount(old(engine.sector), batch),
                        store.layout.Replicas(), salt, o)
      ensures cipher.Some? && old(Encrypts(Snapshot().core, batch) || Decrypts(Snapshot().core, batch)) && salt.Some?
              && old(store.io.NoFaultPending()) ==>
                o == Completes(salt.value) && v != Failed
      ensures store.io.writes >= old(store.io.writes)
    {
      hide Sweep.ProgressStep;
      if cipher.None? {
        return Finished, SaltFails;
      }
      v, o := engine.ProgressStep(Cfg(), cipher.value, store, batch, salt);
      if v != Failed {
        SyncBoundary();
      }
    }

    /** Lower read, then decrypt the prefix below the cached boundary. `mapped` says whether the caller's buffer
        could be mapped and a private one allocated. Without a cipher the raw sectors are handed out. */
    method ProcessRead(lba: nat, n: nat, mapped: bool, cipher: Option<SectorCipher>) returns (r: Option<seq<Sector>>)
      requires Valid() && Supplies(cipher)
      ensures n == 0 || (mapped && cipher.Some?) ==>
                Exec(Cfg(), Snapshot(), Read(lba, n))
                    == (Snapshot(), match r case None => IoError case Some(s) => Contents(s))
      ensures n > 0 && !mapped ==> r.None?
      ensures n > 0 && mapped && cipher.None? ==> r == store.io.medium.Read(lba, n)
    {
      hide DriverDecrypt;
      if n == 0 {
        return Some([]);
      }
      if !mapped {
        return None;
      }
      var frag := store.io.ReadSectors(lba, n);
      if frag.None? {
        return None;
      }
      var buf := new Sector[n](i requires 0 <= i < n => frag.value[i]);
      assert buf[..] == frag.value;
      DriverRange(suite(store.secrets), DataGeometry(), lba, frag.value);
      match CryptoRange(DataGeometry(), lba) {
        case None =>
        case Some((first, boundary)) =>
          if cipher.Some? {
            DecryptRead(cipher.value, first, boundary, buf);
          }
      }
      r := Some(buf[..]);
    }

    /** Encrypt a copy's prefix below the cached boundary, then lower write. Without a cipher the plain sectors
        reach the disk. */
    method ProcessWrite(lba: nat, data: seq<Sector>, mapped: bool, cipher: Option<SectorCipher>)
      returns (ok: bool, ghost k: nat)
      requires Valid() && Supplies(cipher)
      modifies store.io
      ensures Valid() && k <= |data|
      ensures |data| == 0 || (mapped && cipher.Some?) ==>
                (Snapshot(), WriteOutput(data, k)) == Exec(Cfg(), old(Snapshot()), Write(lba, data, k))
      ensures |data| > 0 && !mapped ==> k == 0 && Snapshot() == old(Snapshot())
      ensures |data| > 0 && mapped && cipher.None? ==> store.io.medium == old(store.io.medium).WriteUpTo(lba, data, k)
      ensures ok <==> k == |data|
      ensures 0 < |data| && mapped && old(store.io.medium).Fits(lba, |data|) && !ok ==>
                store.io.fate(old(store.io.writes)) == FailsAfter(k)
      ensures (|data| == 0 || (mapped && old(store.io.medium).Fits(lba, |data|))) && old(store.io.NoFaultPending()) ==>
                ok
      ensures store.io.writes == old(store.io.writes) + if |data| > 0 && mapped then 1 else 0
    {
      hide DriverEncrypt;
      if |data| == 0 {
        WriteNothing(store.io.medium, lba, DriverEncrypt(suite(store.secrets), DataGeometry(), lba, data));
        return true, 0;
      }
      if !mapped {
        return false, 0;
      }
      var buf := new Sector[|data|](i requires 0 <= i < |data| => data[i]);
      assert buf[..] == data;
      DriverRange(suite(store.secrets), DataGeometry(), lba, data);
      match CryptoRange(DataGeometry(), lba) {
        case None =>
        case Some((first, boundary)) =>
          if cipher.Some? {
            EncryptWrite(cipher.value, first, boundary, buf);
          }
      }
      var n;
      ok, n := store.io.WriteSectors(lba, buf[..]);
      k := n;
    }

    /** The start handlers: persist the direction, then set the mode, under the engine lock. */
    method StartEncrypt(salt: Option<Block>) returns (ghost k: nat)
      requires Valid()
      modifies engine`state, store`state, store.io
      ensures Valid() && (Snapshot(), Quiet) == Exec(Cfg(), old(Snapshot()), StartSweep(Encrypt, salt, k))
      ensures salt.Some? ==>
                if k == store.layout.Replicas() then store.io.writes == old(store.io.writes) + k
                else store.io.fate(old(store.io.writes) + k) == FailsAfter(0)
      ensures salt.Some? && old(store.io.NoFaultPending()) ==> k == store.layout.Replicas()
    {
      hide Start;
      k := engine.StartEncrypt(store, salt);
    }

    method StartDecrypt(salt: Option<Block>) returns (ghost k: nat)
      requires Valid()
      modifies engine`state, store`state, store.io
      ensures Valid() && (Snapshot(), Quiet) == Exec(Cfg(), old(Snapshot()), StartSweep(Decrypt, salt, k))
      ensures salt.Some? ==>
                if k == store.layout.Replicas() then store.io.writes == old(store.io.writes) + k
                else store.io.fate(old(store.io.writes) + k) == FailsAfter(0)
      ensures salt.Some? && old(store.io.NoFaultPending()) ==> k == store.layout.Replicas()
    {
      hide Start;
      k := engine.StartDecrypt(store, salt);
    }

    method Pause()
      requires Valid()
      modifies engine`state
      ensures Valid() && (Snapshot(), Quiet) == Exec(Cfg(), old(Snapshot()), PauseSweep)
    {
      engine.Pause(store);
    }
  }

  lemma DriverRange(c: SectorCipher, g: Geometry, lba: nat, buf: seq<Sector>)
    ensures match CryptoRange(g, lba)
            case None => DriverDecrypt(c, g, lba, buf) == buf == DriverEncrypt(c, g, lba, buf)
            case Some((first, boundary)) =>
              && DriverDecrypt(c, g, lba, buf) == DecryptPrefix(c, first, boundary, buf)
              && DriverEncrypt(c, g, lba, buf) == EncryptPrefix(c, first, boundary, buf)
  {
  }
}
