/** `JvckMetadataStore` and its two-phase opener as an object over a shared disk. */
module MetadataStoreClass {
  import opened Bytes
  import opened Errors
  import opened Layout
  import opened Metadata
  import opened Sectors
  import opened Store
  import opened Durability

  class MetadataStore {
    const io: Disk
    const format: Format
    const layout: Layout
    const size: nat
    const secrets: Secrets
    var header: Header
    var offset: Word64
    var state: VolumeState

    constructor (io: Disk, format: Format, st: StoreState)
      ensures this.io == io && this.format == format && State() == st
    {
      this.io, this.format, this.layout, this.size, this.secrets := io, format, st.layout, st.size, st.secrets;
      header, offset, state := st.header, st.offset, st.state;
    }

    function State(): StoreState
      reads this
    {
      StoreState(layout, size, header, secrets, offset, state)
    }

    ghost predicate Valid()
      reads this, io
    {
      State().HeaderMatches() && |io.medium.sectors| == layout.volume && format.Lawful()
    }

    /** The sector every replica receives for the current state. */
    function Image(salt: Block): Sector
      requires size >= METADATA_BLOCK_SIZE
      reads this
    {
      SealedSector(format, State(), salt)
    }

    /** One fresh salt, one sealed block, one sector write per replica in order, stopping at the first failure.
        `salt` is `None` when the random source fails. */
    method WriteAllReplicas(salt: Option<Block>) returns (ok: bool, k: nat)
      requires Valid()
      modifies io
      ensures Valid() && k <= layout.Replicas()
      ensures salt.None? ==> !ok && io.medium == old(io.medium)
      ensures salt.Some? ==> io.medium == WriteReplicas(old(io.medium), layout, Image(salt.value), k)
      ensures salt.Some? ==> (ok <==> k == layout.Replicas())
      ensures io.writes == old(io.writes) + (if salt.None? then 0 else if ok then k else k + 1)
      ensures salt.Some? ==> forall n: nat :: old(io.writes) <= n < old(io.writes) + k ==> io.fate(n) != FailsAfter(0)
      ensures salt.Some? && !ok ==> io.fate(old(io.writes) + k) == FailsAfter(0)
      ensures salt.Some? && old(io.NoFaultPending()) ==> ok
    {
      hide WriteReplicas, Layout.MetaLba, LbaList;
      if salt.None? {
        return false, 0;
      }
      var block := format.seal(header, Unsealed(offset, state, secrets), salt.value);
      assert format.SealsWell(header, Unsealed(offset, state, secrets), salt.value);
      var lbas := MetadataSectorLbas(layout.volume, layout.rs, layout.headers, layout.footers);
      LbaListIsMetaLbas(layout);
      k := 0;
      NoReplicasYet(io.medium, layout, Image(salt.value));
      while k < |lbas|
        invariant k <= layout.Replicas() && io.medium == WriteReplicas(old(io.medium), layout, Image(salt.value), k)
        invariant Valid() && io.writes == old(io.writes) + k
        invariant forall n: nat :: old(io.writes) <= n < old(io.writes) + k ==> io.fate(n) != FailsAfter(0)
      {
        var sector := SectorOf(block, size);
        OneMoreReplica(old(io.medium), layout, sector, k);
        WriteNothing(io.medium, lbas[k], [sector]);
        WriteAll(io.medium, lbas[k], [sector]);
        var done, n := io.WriteSectors(lbas[k], [sector]);
        if !done {
          return false, k;
        }
        k := k + 1;
      }
      ok := true;
    }

    method Put(offset: Word64, salt: Option<Block>) returns (ok: bool, k: nat)
      requires Valid()
      modifies this`offset, io
      ensures Valid() && State() == old(State()).(offset := offset) && k <= layout.Replicas()
      ensures salt.None? ==> !ok && io.medium == old(io.medium)
      ensures salt.Some? ==> io.medium == WriteReplicas(old(io.medium), layout, Image(salt.value), k)
      ensures salt.Some? ==> (ok <==> k == layout.Replicas())
      ensures io.writes == old(io.writes) + (if salt.None? then 0 else if ok then k else k + 1)
      ensures salt.Some? ==> forall n: nat :: old(io.writes) <= n < old(io.writes) + k ==> io.fate(n) != FailsAfter(0)
      ensures salt.Some? && !ok ==> io.fate(old(io.writes) + k) == FailsAfter(0)
      ensures salt.Some? && old(io.NoFaultPending()) ==> ok
    {
      this.offset := offset;
      ok, k := WriteAllReplicas(salt);
    }

    method PutState(state: VolumeState, salt: Option<Block>) returns (ok: bool, k: nat)
      requires Valid()
      modifies this`state, io
      ensures Valid() && State() == old(State()).(state := state) && k <= layout.Replicas()
      ensures salt.None? ==> !ok && io.medium == old(io.medium)
      ensures salt.Some? ==> io.medium == WriteReplicas(old(io.medium), layout, Image(salt.value), k)
      ensures salt.Some? ==> (ok <==> k == layout.Replicas())
      ensures io.writes == old(io.writes) + (if salt.None? then 0 else if ok then k else k + 1)
      ensures salt.Some? ==> forall n: nat :: old(io.writes) <= n < old(io.writes) + k ==> io.fate(n) != FailsAfter(0)
      ensures salt.Some? && !ok ==> io.fate(old(io.writes) + k) == FailsAfter(0)
      ensures salt.Some? && old(io.NoFaultPending()) ==> ok
    {
      this.state := state;
      ok, k := WriteAllReplicas(salt);
    }

    method SetVendorReserved(reserved: Reserved, salt: Option<Block>) returns (ok: bool, k: nat)
      requires Valid()
      modifies this`header, io
      ensures Valid() && State() == Updated(old(State()), PutReserved(reserved, Zeros(16))) && k <= layout.Replicas()
      ensures salt.None? ==> !ok && io.medium == old(io.medium)
      ensures salt.Some? ==> io.medium == WriteReplicas(old(io.medium), layout, Image(salt.value), k)
      ensures salt.Some? ==> (ok <==> k == layout.Replicas())
      ensures io.writes == old(io.writes) + (if salt.None? then 0 else if ok then k else k + 1)
      ensures salt.Some? ==> forall n: nat :: old(io.writes) <= n < old(io.writes) + k ==> io.fate(n) != FailsAfter(0)
      ensures salt.Some? && !ok ==> io.fate(old(io.writes) + k) == FailsAfter(0)
      ensures salt.Some? && old(io.NoFaultPending()) ==> ok
    {
      header := header.(vendorReserved := reserved);
      ok, k := WriteAllReplicas(salt);
    }

    /** The recovery scan: the largest offset over the replicas that validate. */
    method LoadOffset() returns (r: Result<Word64>)
      requires Valid()
      ensures r == Store.LoadOffset(format, io.medium, layout)
    {
      hide Layout.MetaLba, LbaList;
      var lbas := MetadataSectorLbas(layout.volume, layout.rs, layout.headers, layout.footers);
      LbaListIsMetaLbas(layout);
      var best: Option<Word64> := None;
      for i := 0 to |lbas|
        invariant best == Best(format, io.medium, layout, i)
      {
        var block := ReadBlock(io, lbas[i]);
        if block.None? {
          continue;
        }
        if !format.verify(block.value) {
          continue;
        }
        match format.unseal(block.value)
        case Ok(u) => best := Larger(best, u.offset);
        case Err(_) =>
      }
      r := match best case Some(b) => Ok(b) case None => Err(NotFound);
    }

    method WriteVendorData(replica: nat, rel: nat, buf: seq<Sector>) returns (ok: bool, k: nat)
      requires Valid()
      modifies io
      ensures Valid() && k <= |buf|
      ensures !VendorRangeOk(layout, replica, rel, buf) ==> !ok && io.medium == old(io.medium)
      ensures VendorRangeOk(layout, replica, rel, buf) ==>
                io.medium == WriteVendor(old(io.medium), layout, replica, rel, buf[..k]) && (ok <==> k == |buf|)
      ensures io.writes == old(io.writes) + if VendorRangeOk(layout, replica, rel, buf) then 1 else 0
      ensures VendorRangeOk(layout, replica, rel, buf) && !ok ==> io.fate(old(io.writes)) == FailsAfter(k)
      ensures VendorRangeOk(layout, replica, rel, buf) && old(io.NoFaultPending()) ==> ok
    {
      VendorLbaOk(layout, size, replica, rel, buf);
      match VendorLbaChecked(layout, size, replica, rel, |buf| * size)
      case Err(_) => return false, 0;
      case Ok(lba) =>
        RegionBounds(layout, replica);
        ok, k := io.WriteSectors(lba, buf);
        if k == 0 {
          WriteNothing(old(io.medium), lba, buf);
        }
    }

    /** Mirror the same sectors into every replica, stopping at the first failure. */
    method WriteVendorDataAll(rel: nat, buf: seq<Sector>) returns (ok: bool, ghost n: nat, ghost k: nat)
      requires Valid()
      modifies io
      ensures Valid()
      ensures !VendorRangeOk(layout, 0, rel, buf) ==> !ok && io.medium == old(io.medium)
      ensures ok ==> io.medium == WriteVendorAll(old(io.medium), layout, rel, buf, layout.Replicas())
      ensures !ok && VendorRangeOk(layout, 0, rel, buf) ==>
                && n < layout.Replicas() && k < |buf|
                && io.medium
                   == WriteVendor(WriteVendorAll(old(io.medium), layout, rel, buf, n), layout, n, rel, buf[..k])
      ensures !ok && VendorRangeOk(layout, 0, rel, buf) ==> io.fate(old(io.writes) + n) == FailsAfter(k)
      ensures VendorRangeOk(layout, 0, rel, buf) && old(io.NoFaultPending()) ==> ok
    {
      n, k := 0, 0;
      VendorLbaOk(layout, size, 0, rel, buf);
      if VendorLbaChecked(layout, size, 0, rel, |buf| * size).Err? {
        return false, 0, 0;
      }
      for i := 0 to layout.Replicas()
        invariant Valid() && io.medium == WriteVendorAll(old(io.medium), layout, rel, buf, i)
        invariant io.writes == old(io.writes) + i
      {
        var done, reached := WriteVendorData(i, rel, buf);
        if !done {
          return false, i, reached;
        }
        assert buf[..reached] == buf;
      }
      ok := true;
    }

    method ReadVendorData(replica: nat, rel: nat, n: nat) returns (r: Option<seq<Sector>>)
      requires Valid()
      ensures r.Some? <==> replica < layout.Replicas() && 0 < n && rel + n <= layout.VendorCount()
                           && io.medium.Readable(layout.VendorBase(replica) + rel, n)
      ensures r.Some? ==> r.value == VendorImage(io.medium, layout, replica)[rel..rel + n]
    {
      if replica >= layout.Replicas() || n == 0 || rel + n > layout.VendorCount() {
        return None;
      }
      VendorRead(io.medium, layout, replica, rel, n);
      r := io.ReadSectors(layout.VendorBase(replica) + rel, n);
    }
  }

  lemma VendorRead(m: Medium, l: Layout, replica: nat, rel: nat, n: nat)
    requires l.Accepted() && l.volume == |m.sectors| && replica < l.Replicas() && rel + n <= l.VendorCount()
    ensures m.Fits(l.VendorBase(replica) + rel, n)
    ensures VendorImage(m, l, replica)[rel..rel + n]
              == m.sectors[l.VendorBase(replica) + rel..l.VendorBase(replica) + rel + n]
  {
    RegionBounds(l, replica);
    Slice(m.sectors, l.VendorBase(replica), l.VendorCount(), rel, n);
  }

  lemma NoReplicasYet(m: Medium, l: Layout, s: Sector)
    requires l.Accepted() && l.volume == |m.sectors|
    ensures WriteReplicas(m, l, s, 0) == m
  {
  }

  lemma OneMoreReplica(m: Medium, l: Layout, s: Sector, k: nat)
    requires l.Accepted() && l.volume == |m.sectors| && k < l.Replicas()
    ensures l.MetaLba(k) < l.volume
    ensures WriteReplicas(m, l, s, k + 1) == WriteReplicas(m, l, s, k).Write(l.MetaLba(k), [s])
  {
    MetaLbas(l, k);
  }

  method ReadBlock(io: Disk, lba: nat) returns (b: Option<Bytes>)
    ensures b == match io.medium.Read(lba, 1) case None => None case Some(s) => Some(BlockOf(s[0]))
  {
    var s := io.ReadSectors(lba, 1);
    b := match s case None => None case Some(sectors) => Some(BlockOf(sectors[0]));
  }

  /** `JvckMetadataReader::open`, probing the last sector and then sector 0. */
  method OpenReader(io: Disk, format: Format) returns (r: Result<(Header, Layout)>)
    ensures r == Store.OpenReader(format, io.medium, io.sectorSize)
  {
    if io.sectorSize < METADATA_BLOCK_SIZE {
      return Err(Unsupported);
    }
    if |io.medium.sectors| == 0 {
      return Err(NotFound);
    }
    var probes := [|io.medium.sectors| - 1, 0];
    for i := 0 to 2
      invariant forall j :: 0 <= j < i ==> Probe(format, io.medium, io.sectorSize, probes[j]).None?
    {
      assert i == 1 ==> Probe(format, io.medium, io.sectorSize, probes[0]).None?;
      var block := ReadBlock(io, probes[i]);
      if block.None? {
        return Err(Io);
      }
      if !format.verify(block.value) {
        continue;
      }
      match format.parse(block.value) {
        case Err(e) => return Err(e);
        case Ok(h) =>
          match ComputeGeometry(io.sectorSize, |io.medium.sectors|,
              Options(h.headerReplicas, h.footerReplicas, h.metadataSize)) {
            case Err(e) => return Err(e);
            case Ok(l) => return Ok((h, l));
          }
      }
    }
    assert Probe(format, io.medium, io.sectorSize, probes[0]).None?
        && Probe(format, io.medium, io.sectorSize, probes[1]).None?;
    r := Err(NotFound);
  }

  /** Open and adopt: the object's state is exactly the recovered one. */
  method Open(io: Disk, format: Format) returns (r: Result<MetadataStore>)
    requires |io.medium.sectors| < U64
    ensures r.Ok? <==> Reopen(format, io.medium, io.sectorSize).Ok?
    ensures r.Ok? ==> fresh(r.value) && r.value.io == io && r.value.format == format
    ensures r.Ok? ==> Reopen(format, io.medium, io.sectorSize) == Ok(r.value.State())
  {
    hide Layout.MetaLba, LbaList, Store.OpenReader, Best;
    var found := OpenReader(io, format);
    if found.Err? {
      return Err(found.error);
    }
    var (h, l) := found.value;
    OpenedVolume(format, io.medium, io.sectorSize);
    var lbas := MetadataSectorLbas(l.volume, l.rs, l.headers, l.footers);
    LbaListIsMetaLbas(l);
    var chosen: Option<Unsealed> := None;
    for i := 0 to |lbas|
      invariant chosen.None? && FirstFrom(format, io.medium, l, 0) == FirstFrom(format, io.medium, l, i)
    {
      var block := ReadBlock(io, lbas[i]);
      if block.None? {
        continue;
      }
      if !format.verify(block.value) {
        continue;
      }
      match format.unseal(block.value) {
        case Ok(u) =>
          chosen := Some(u);
          break;
        case Err(_) => continue;
      }
    }
    if chosen.None? {
      return Err(NotFound);
    }
    var off := match Store.LoadOffset(format, io.medium, l) case Ok(b) => b case Err(_) => chosen.value.offset;
    var store := new MetadataStore(io, format,
        StoreState(l, io.sectorSize, h, chosen.value.secrets, off, chosen.value.state));
    r := Ok(store);
  }

  lemma OpenedVolume(f: Format, m: Medium, size: nat)
    ensures Store.OpenReader(f, m, size).Ok? ==> Store.OpenReader(f, m, size).value.1.volume == |m.sectors|
  {
  }
}
