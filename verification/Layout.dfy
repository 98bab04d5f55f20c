/** Replica geometry: where metadata blocks, vendor regions and the data region lie on the volume. */
module Layout {
  import opened Arith
  import opened Errors

  const METADATA_BLOCK_SIZE := 512
  const MIN_METADATA_SIZE := 128 * 1024
  const U64 := 0x1_0000_0000_0000_0000

  /** Replica options as chosen at attach time. */
  datatype Options = Options(useHeader: nat, useFooter: nat, metadataSize: nat) {
    function Validate(): Result<()> {
      if metadataSize < MIN_METADATA_SIZE then Err(ValidationFailed)
      else if useHeader + useFooter == 0 then Err(ValidationFailed)
      else Ok(())
    }
  }

  /** `volume` sectors, regions of `rs` sectors, `headers` of them in front and `footers` at the end. */
  datatype Layout = Layout(volume: nat, rs: nat, headers: nat, footers: nat) {
    predicate Accepted() {
      rs > 0 && (headers + footers) * rs < volume
    }

    function Replicas(): nat { headers + footers }

    function Off(): nat { headers * rs }

    function Data(): (d: nat)
      requires Accepted()
      ensures 0 < d && Off() + d <= volume
    {
      Distribute(headers, footers, rs);
      volume - (headers + footers) * rs
    }

    function FooterStart(): nat
      requires Accepted()
    {
      Distribute(headers, footers, rs);
      volume - footers * rs
    }

    function RegionStart(i: nat): nat
      requires Accepted() && i < Replicas()
    {
      if i < headers then i * rs else FooterStart() + (i - headers) * rs
    }

    /** The Metadata block: first sector of a header region, last sector of a footer region. */
    function MetaLba(i: nat): nat
      requires Accepted() && i < Replicas()
    {
      if i < headers then i * rs else FooterStart() + (i - headers) * rs + rs - 1
    }

    function VendorBase(i: nat): nat
      requires Accepted() && i < Replicas()
    {
      if i < headers then i * rs + 1 else FooterStart() + (i - headers) * rs
    }

    function VendorCount(): nat
      requires Accepted()
    {
      rs - 1
    }

    predicate InData(lba: nat)
      requires Accepted()
    {
      Off() <= lba < Off() + Data()
    }

    predicate InVendor(i: nat, lba: nat)
      requires Accepted() && i < Replicas()
    {
      VendorBase(i) <= lba < VendorBase(i) + VendorCount()
    }

    predicate InRegion(i: nat, lba: nat)
      requires Accepted() && i < Replicas()
    {
      RegionStart(i) <= lba < RegionStart(i) + rs
    }
  }

  function ReplicaSectors(metadataSize: nat, sectorSize: nat): nat
    requires sectorSize > 0
  {
    metadataSize / sectorSize
  }

  function ComputeGeometry(sectorSize: nat, volume: nat, o: Options): (r: Result<Layout>)
    ensures r.Ok? ==> r.value.Accepted()
  {
    if sectorSize < METADATA_BLOCK_SIZE then Err(Unsupported)
    else
      var rs := ReplicaSectors(o.metadataSize, sectorSize);
      if rs == 0 then Err(ValidationFailed)
      else if (o.useHeader + o.useFooter) * rs >= volume then Err(ValidationFailed)
      else Ok(Layout(volume, rs, o.useHeader, o.useFooter))
  }

  /** A region never exceeds `metadata_size` bytes: the remainder is dropped, not rounded up. */
  lemma RegionFitsMetadataSize(metadataSize: nat, sectorSize: nat)
    requires sectorSize > 0
    ensures var rs := ReplicaSectors(metadataSize, sectorSize);
            rs * sectorSize <= metadataSize < (rs + 1) * sectorSize
  {
    var rs := metadataSize / sectorSize;
    assert metadataSize == rs * sectorSize + metadataSize % sectorSize;
    Distribute(rs, 1, sectorSize);
  }

  // ---- the partition ----

  lemma RegionBounds(l: Layout, i: nat)
    requires l.Accepted() && i < l.Replicas()
    ensures l.RegionStart(i) + l.rs <= l.volume
    ensures l.RegionStart(i) + l.rs <= l.Off() || l.Off() + l.Data() <= l.RegionStart(i)
    ensures l.Off() + l.Data() == l.FooterStart()
  {
    Distribute(l.headers, l.footers, l.rs);
    if i < l.headers {
      Monotone(i + 1, l.headers, l.rs);
      Distribute(i, 1, l.rs);
    } else {
      Monotone(i - l.headers + 1, l.footers, l.rs);
      Distribute(i - l.headers, 1, l.rs);
    }
  }

  lemma RegionsApart(l: Layout, i: nat, j: nat)
    requires l.Accepted() && i < j < l.Replicas()
    ensures l.RegionStart(i) + l.rs <= l.RegionStart(j)
  {
    hide Layout.FooterStart;
    if j < l.headers {
      StrictlyMonotone(i, j, l.rs);
    } else if i >= l.headers {
      StrictlyMonotone(i - l.headers, j - l.headers, l.rs);
    } else {
      StrictlyMonotone(i, l.headers, l.rs);
      HeadersBeforeFooters(l);
      NonNegative(j - l.headers, l.rs);
    }
  }

  lemma HeadersBeforeFooters(l: Layout)
    requires l.Accepted()
    ensures l.headers * l.rs <= l.FooterStart()
  {
    Distribute(l.headers, l.footers, l.rs);
  }

  lemma NonNegative(a: nat, b: nat)
    ensures a * b >= 0
  {
  }

  /** A region is its Metadata sector and its vendor sectors, without overlap. */
  lemma RegionSplits(l: Layout, i: nat, lba: nat)
    requires l.Accepted() && i < l.Replicas()
    ensures l.InRegion(i, lba) <==> (lba == l.MetaLba(i) || l.InVendor(i, lba))
    ensures !(lba == l.MetaLba(i) && l.InVendor(i, lba))
  {
  }

  function RegionIndex(l: Layout, lba: nat): nat
    requires l.Accepted()
  {
    if lba < l.Off() then lba / l.rs else l.headers + Below(lba, l.FooterStart()) / l.rs
  }

  function Below(x: nat, y: nat): nat {
    if x < y then 0 else x - y
  }

  lemma OutsideDataHasRegion(l: Layout, lba: nat)
    requires l.Accepted() && lba < l.volume && !l.InData(lba)
    ensures RegionIndex(l, lba) < l.Replicas() && l.InRegion(RegionIndex(l, lba), lba)
  {
    Distribute(l.headers, l.footers, l.rs);
    if lba < l.Off() {
      QuotientBounds(lba, l.headers, l.rs);
    } else {
      assert lba >= l.FooterStart();
      QuotientBounds(lba - l.FooterStart(), l.footers, l.rs);
    }
  }

  /** Every sector of the volume is exactly one of: data, the Metadata sector of exactly one replica,
      a vendor sector of exactly one replica. */
  lemma Partition(l: Layout, lba: nat)
    requires l.Accepted() && lba < l.volume
    ensures l.InData(lba) ==> forall i :: 0 <= i < l.Replicas() ==> lba != l.MetaLba(i) && !l.InVendor(i, lba)
    ensures !l.InData(lba) ==>
              var i := RegionIndex(l, lba);
              && i < l.Replicas()
              && (lba == l.MetaLba(i) <==> !l.InVendor(i, lba))
              && forall j :: 0 <= j < l.Replicas() && j != i ==> lba != l.MetaLba(j) && !l.InVendor(j, lba)
  {
    hide Layout.MetaLba, Layout.InVendor, Layout.RegionStart, Layout.Data, Layout.Off;
    forall i | 0 <= i < l.Replicas()
      ensures l.InRegion(i, lba) <==> (lba == l.MetaLba(i) || l.InVendor(i, lba))
      ensures l.InRegion(i, lba) ==> !l.InData(lba)
    {
      RegionSplits(l, i, lba);
      RegionBounds(l, i);
    }
    if !l.InData(lba) {
      var i := RegionIndex(l, lba);
      OutsideDataHasRegion(l, lba);
      RegionSplits(l, i, lba);
      forall j | 0 <= j < l.Replicas() && j != i
        ensures !l.InRegion(j, lba)
      {
        if i < j { RegionsApart(l, i, j); } else { RegionsApart(l, j, i); }
      }
    }
  }

  /** Counted from the ends of the volume: header region i starts at i * rs with its Metadata sector, the last footer
      region but k ends at volume - k * rs with it; the other rs - 1 sectors are vendor sectors, the middle is data. */
  lemma RegionEdges(l: Layout, i: nat)
    requires l.Accepted() && i < l.Replicas()
    ensures i < l.headers ==> l.MetaLba(i) == i * l.rs && l.VendorBase(i) == i * l.rs + 1
    ensures i >= l.headers ==>
              && l.MetaLba(i) == l.volume - (l.headers + l.footers - 1 - i) * l.rs - 1
              && l.VendorBase(i) + (l.rs - 1) == l.MetaLba(i)
    ensures l.VendorCount() == l.rs - 1
    ensures l.Off() == l.headers * l.rs && l.Off() + l.Data() == l.volume - l.footers * l.rs
  {
    Distribute(l.headers, l.footers, l.rs);
    if i >= l.headers {
      Distribute(i - l.headers, 1, l.rs);
      Distribute(i - l.headers + 1, l.footers - 1 - (i - l.headers), l.rs);
    }
  }

  /** Metadata sectors lie on the volume, outside the data region, and are pairwise distinct. */
  lemma MetaLbas(l: Layout, i: nat)
    requires l.Accepted() && i < l.Replicas()
    ensures l.MetaLba(i) < l.volume && !l.InData(l.MetaLba(i))
    ensures forall j :: 0 <= j < l.Replicas() && j != i ==> l.MetaLba(j) != l.MetaLba(i)
    ensures forall j, lba :: 0 <= j < l.Replicas() && l.InVendor(j, lba) ==> lba != l.MetaLba(i)
  {
    RegionSplits(l, i, l.MetaLba(i));
    RegionBounds(l, i);
    Partition(l, l.MetaLba(i));
  }

  // ---- the three copies of the LBA list ----

  /** What all three copies compute, with the wrap-around of their 64-bit arithmetic. */
  function LbaList(volume: nat, rs: nat, headers: nat, footers: nat): (s: seq<nat>)
    ensures |s| == headers + footers
  {
    seq(headers, i requires 0 <= i < headers => i * rs % U64)
    + seq(footers, j requires 0 <= j < footers => ((volume - footers * rs) % U64 + j * rs + rs - 1) % U64)
  }

  lemma FooterLbaDoesNotWrap(l: Layout, j: nat)
    requires l.Accepted() && l.volume <= U64 && j < l.footers
    ensures var k := l.headers + j;
            ((l.volume - l.footers * l.rs) % U64 + j * l.rs + l.rs - 1) % U64 == l.MetaLba(k)
  {
    RegionBounds(l, l.headers + j);
    Distribute(l.headers, l.footers, l.rs);
    Small(l.FooterStart());
    Small(l.MetaLba(l.headers + j));
  }

  lemma Small(x: nat)
    requires x < U64
    ensures x % U64 == x
  {
  }

  /** On an accepted layout nothing wraps and the list is exactly the Metadata sectors in replica order. */
  lemma LbaListIsMetaLbas(l: Layout)
    requires l.Accepted() && l.volume <= U64
    ensures forall i :: 0 <= i < l.Replicas() ==> LbaList(l.volume, l.rs, l.headers, l.footers)[i] == l.MetaLba(i)
  {
    forall i | 0 <= i < l.Replicas()
      ensures LbaList(l.volume, l.rs, l.headers, l.footers)[i] == l.MetaLba(i)
    {
      if i < l.headers {
        RegionBounds(l, i);
        Small(i * l.rs);
      } else {
        FooterLbaDoesNotWrap(l, i - l.headers);
      }
    }
  }

  /** `metadata_sector_lbas` of the store. */
  method MetadataSectorLbas(volume: nat, rs: nat, headers: nat, footers: nat) returns (lbas: seq<nat>)
    ensures lbas == LbaList(volume, rs, headers, footers)
  {
    lbas := [];
    for i := 0 to headers
      invariant lbas == LbaList(volume, rs, headers, footers)[..i]
    {
      lbas := lbas + [i * rs % U64];
    }
    var start := (volume - footers * rs) % U64;
    for j := 0 to footers
      invariant lbas == LbaList(volume, rs, headers, footers)[..headers + j]
    {
      var regionStart := start + j * rs;
      lbas := lbas + [(regionStart + rs - 1) % U64];
    }
  }

  /** `metadataSectorLBAs` of the Go SDK. */
  method GoMetadataSectorLbas(volumeSectors: nat, rs: nat, useHeader: nat, useFooter: nat) returns (lbas: seq<nat>)
    ensures lbas == LbaList(volumeSectors, rs, useHeader, useFooter)
  {
    lbas := [];
    var i := 0;
    while i < useHeader
      invariant i <= useHeader && lbas == LbaList(volumeSectors, rs, useHeader, useFooter)[..i]
    {
      lbas := lbas + [i * rs % U64];
      i := i + 1;
    }
    var footerStart := (volumeSectors - useFooter * rs) % U64;
    var j := 0;
    while j < useFooter
      invariant j <= useFooter && lbas == LbaList(volumeSectors, rs, useHeader, useFooter)[..useHeader + j]
    {
      var regionStart := footerStart + j * rs;
      lbas := lbas + [(regionStart + rs - 1) % U64];
      j := j + 1;
    }
  }

  lemma LbaListAt(volume: nat, rs: nat, headers: nat, footers: nat)
    ensures var list := LbaList(volume, rs, headers, footers);
            && (forall i :: 0 <= i < headers ==> list[i] == i * rs % U64)
            && forall j :: 0 <= j < footers ==>
                             list[headers + j] == ((volume - footers * rs) % U64 + j * rs + rs - 1) % U64
  {
  }

  lemma PreparedGeometry(sectorSize: nat, volume: nat, o: Options)
    requires sectorSize > 0
    ensures var g, rs := ComputeGeometry(sectorSize, volume, o), o.metadataSize / sectorSize;
            g.Ok? ==>
              && g.value.Off() == o.useHeader * rs && o.useHeader * rs + o.useFooter * rs <= volume
              && g.value.Data() == volume - (o.useHeader * rs + o.useFooter * rs)
  {
    Distribute(o.useHeader, o.useFooter, o.metadataSize / sectorSize);
  }

  /** The inline copy in both PREPARE handlers, with the data size they report. */
  method PrepareLbas(metadataSize: nat, sectorSize: nat, totalSectors: nat, useHeader: nat, useFooter: nat)
    returns (lbas: seq<nat>, offsetSector: nat, dataSectors: nat)
    requires sectorSize > 0
    ensures lbas == LbaList(totalSectors, ReplicaSectors(metadataSize, sectorSize), useHeader, useFooter)
    ensures var g := ComputeGeometry(sectorSize, totalSectors, Options(useHeader, useFooter, metadataSize));
            g.Ok? ==> offsetSector == g.value.Off() && dataSectors == g.value.Data()
  {
    hide LbaList, ComputeGeometry;
    var rs := metadataSize / sectorSize;
    PreparedGeometry(sectorSize, totalSectors, Options(useHeader, useFooter, metadataSize));
    LbaListAt(totalSectors, rs, useHeader, useFooter);
    ghost var list := LbaList(totalSectors, rs, useHeader, useFooter);
    var footerSectors, headerSectors := useFooter * rs, useHeader * rs;
    dataSectors := if headerSectors + footerSectors <= totalSectors then totalSectors - (headerSectors + footerSectors)
        else 0;
    offsetSector := headerSectors;
    lbas := [];
    for i := 0 to useHeader
      invariant lbas == list[..i]
    {
      lbas := lbas + [i * rs % U64];
    }
    var fs := (totalSectors - useFooter * rs) % U64;
    for j := 0 to useFooter
      invariant lbas == list[..useHeader + j]
    {
      lbas := lbas + [(fs + j * rs + rs - 1) % U64];
    }
  }
}
