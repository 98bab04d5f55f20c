/** The replicated metadata store: writing, recovery by largest offset, vendor data, and reopening. */
module Store {
  import opened Bytes
  import opened Errors
  import opened Layout
  import opened Metadata
  import opened Sectors

  // ---- the metadata codec ----

  /** The metadata format under one VMK: what a `MetadataCodec` seals and unseals, and the plaintext
      header checks that stay with the store. */
  datatype Format = Format(seal: (Header, Unsealed, Block) -> Bytes, verify: Bytes -> bool,
                           parse: Bytes -> Result<Header>, unseal: Bytes -> Result<Unsealed>)
  {
    /** Sealing and unsealing round-trip, whatever the salt. */
    ghost predicate Lawful() {
      forall h, u, salt :: SealsWell(h, u, salt)
    }

    ghost predicate SealsWell(h: Header, u: Unsealed, salt: Block) {
      var b := seal(h, u, salt);
      |b| == METADATA_BLOCK_SIZE && verify(b) && parse(b) == Ok(h) && unseal(b) == Ok(u)
    }
  }

  /** The default suite: CBC payload, HKDF keys, HMAC and CRC. */
  function JvckCbcFormat(p: Primitives, vmk: Bytes): Format {
    Format((h: Header, u: Unsealed, salt: Block) => Encode(p, h, u, salt, vmk), (b: Bytes) => VerifyCrc(p, b).Ok?,
           (b: Bytes) => Parse(p, b), (b: Bytes) => DecryptPayload(p, b, vmk))
  }

  lemma JvckCbcFormatLawful(p: Primitives, vmk: Bytes)
    requires p.Valid()
    ensures JvckCbcFormat(p, vmk).Lawful()
  {
    hide Encode, VerifyCrc, Parse, DecryptPayload;
    var f := JvckCbcFormat(p, vmk);
    forall h, u, salt: Block
      ensures f.SealsWell(h, u, salt)
    {
      EncodedCrc(p, h, u, salt, vmk);
      ParseInvertsEncode(p, h, u, salt, vmk);
      DecryptInvertsEncode(p, h, u, salt, vmk);
    }
  }

  // ---- the store's state ----

  /** In-memory state of `JvckMetadataStore`; `size` is the sector size. */
  datatype StoreState = StoreState(layout: Layout, size: nat, header: Header, secrets: Secrets,
                                   offset: Word64, state: VolumeState)
  {
    function Sealable(): Unsealed { Unsealed(offset, state, secrets) }

    /** The header on disk describes this layout. */
    predicate HeaderMatches() {
      && size >= METADATA_BLOCK_SIZE && layout.Accepted() && layout.volume < U64 && layout.Replicas() > 0
      && header.headerReplicas == layout.headers && header.footerReplicas == layout.footers
      && ReplicaSectors(header.metadataSize, size) == layout.rs
    }
  }

  function BlockOf(s: Sector): Bytes {
    if |s| < METADATA_BLOCK_SIZE then s else s[..METADATA_BLOCK_SIZE]
  }

  /** The block alone in its sector, the rest zero. */
  function SectorOf(b: Bytes, size: nat): (s: Sector)
    requires |b| == METADATA_BLOCK_SIZE <= size
    ensures |s| == size && BlockOf(s) == b
  {
    b + Zeros(size - METADATA_BLOCK_SIZE)
  }

  function SealedSector(f: Format, st: StoreState, salt: Block): (s: Sector)
    requires st.size >= METADATA_BLOCK_SIZE
  {
    var b := f.seal(st.header, st.Sealable(), salt);
    if |b| == METADATA_BLOCK_SIZE then SectorOf(b, st.size) else b
  }

  /** The medium after the first `k` replicas, in replica order, received `s`. */
  function WriteReplicas(m: Medium, l: Layout, s: Sector, k: nat): (r: Medium)
    requires l.Accepted() && l.volume == |m.sectors| && k <= l.Replicas()
    ensures |r.sectors| == |m.sectors| && r.bad == m.bad
  {
    if k == 0 then m
    else
      MetaLbas(l, k - 1);
      WriteReplicas(m, l, s, k - 1).Write(l.MetaLba(k - 1), [s])
  }

  /** Replica writes put `s` into the first `k` Metadata sectors and touch nothing else. */
  lemma {:induction false} ReplicasWritten(m: Medium, l: Layout, s: Sector, k: nat, lba: nat)
    requires l.Accepted() && l.volume == |m.sectors| && k <= l.Replicas() && lba < l.volume
    ensures WriteReplicas(m, l, s, k).sectors[lba]
            == if exists i :: 0 <= i < k && l.MetaLba(i) == lba then s else m.sectors[lba]
  {
    hide Layout.MetaLba;
    if k > 0 {
      MetaLbas(l, k - 1);
      ReplicasWritten(m, l, s, k - 1, lba);
    }
  }

  lemma ReplicaSector(m: Medium, l: Layout, s: Sector, k: nat, i: nat)
    requires l.Accepted() && l.volume == |m.sectors| && k <= l.Replicas() && i < l.Replicas()
    ensures l.MetaLba(i) < l.volume
    ensures WriteReplicas(m, l, s, k).sectors[l.MetaLba(i)] == if i < k then s else m.sectors[l.MetaLba(i)]
  {
    hide Layout.MetaLba, WriteReplicas;
    MetaLbas(l, i);
    ReplicasWritten(m, l, s, k, l.MetaLba(i));
  }

  /** Data and vendor sectors keep their contents under replica writes. */
  lemma ReplicaWritesElsewhere(m: Medium, l: Layout, s: Sector, k: nat, lba: nat)
    requires l.Accepted() && l.volume == |m.sectors| && k <= l.Replicas() && lba < l.volume
    requires l.InData(lba) || exists i :: 0 <= i < l.Replicas() && l.InVendor(i, lba)
    ensures WriteReplicas(m, l, s, k).sectors[lba] == m.sectors[lba]
  {
    hide Layout.MetaLba, Layout.InVendor, Layout.InData, WriteReplicas;
    ReplicasWritten(m, l, s, k, lba);
    forall i | 0 <= i < k
      ensures l.MetaLba(i) != lba
    {
      MetaLbas(l, i);
    }
  }

  // ---- recovery ----

  /** Replica `i` as recovery sees it: unreadable, CRC-invalid and unsealable replicas are skipped. */
  function Replica(f: Format, m: Medium, l: Layout, i: nat): Option<Unsealed>
    requires l.Accepted() && i < l.Replicas()
  {
    var lba := l.MetaLba(i);
    if !m.Readable(lba, 1) then None
    else
      var b := BlockOf(m.sectors[lba]);
      if !f.verify(b) then None
      else match f.unseal(b) case Ok(u) => Some(u) case Err(_) => None
  }

  function Larger(a: Option<Word64>, b: Word64): Option<Word64> {
    if a.Some? && a.value >= b then a else Some(b)
  }

  /** Largest offset among the first `n` replicas. */
  function Best(f: Format, m: Medium, l: Layout, n: nat): Option<Word64>
    requires l.Accepted() && n <= l.Replicas()
  {
    if n == 0 then None
    else
      var rest := Best(f, m, l, n - 1);
      match Replica(f, m, l, n - 1)
      case None => rest
      case Some(u) => Larger(rest, u.offset)
  }

  /** First replica from `i` on that unseals. */
  function FirstFrom(f: Format, m: Medium, l: Layout, i: nat): Option<Unsealed>
    requires l.Accepted() && i <= l.Replicas()
    decreases l.Replicas() - i
  {
    if i == l.Replicas() then None
    else
      match Replica(f, m, l, i)
      case Some(u) => Some(u)
      case None => FirstFrom(f, m, l, i + 1)
  }

  function LoadOffset(f: Format, m: Medium, l: Layout): Result<Word64>
    requires l.Accepted()
  {
    match Best(f, m, l, l.Replicas()) case None => Err(NotFound) case Some(b) => Ok(b)
  }

  /** Recovery returns the maximum: some replica carries it and none that validates exceeds it. */
  lemma {:induction false} BestIsMaximum(f: Format, m: Medium, l: Layout, n: nat)
    requires l.Accepted() && n <= l.Replicas()
    ensures Best(f, m, l, n).None? <==> forall i :: 0 <= i < n ==> Replica(f, m, l, i).None?
    ensures Best(f, m, l, n).Some? ==>
              exists i :: 0 <= i < n && Replica(f, m, l, i).Some?
                  && Replica(f, m, l, i).value.offset == Best(f, m, l, n).value
    ensures Best(f, m, l, n).Some? ==>
              forall i :: 0 <= i < n && Replica(f, m, l, i).Some? ==>
                  Replica(f, m, l, i).value.offset <= Best(f, m, l, n).value
  {
    hide Replica;
    if n > 0 {
      BestIsMaximum(f, m, l, n - 1);
      if Best(f, m, l, n) == Best(f, m, l, n - 1) && Best(f, m, l, n).Some? {
        var i :| 0 <= i < n - 1 && Replica(f, m, l, i).Some?
            && Replica(f, m, l, i).value.offset == Best(f, m, l, n - 1).value;
      } else if Best(f, m, l, n).Some? {
        assert Replica(f, m, l, n - 1).Some?;
      }
    }
  }

  lemma {:induction false} FirstIsFirst(f: Format, m: Medium, l: Layout, i: nat)
    requires l.Accepted() && i <= l.Replicas()
    ensures FirstFrom(f, m, l, i).None? <==> forall j :: i <= j < l.Replicas() ==> Replica(f, m, l, j).None?
    ensures FirstFrom(f, m, l, i).Some? ==>
              exists j :: i <= j < l.Replicas() && Replica(f, m, l, j) == FirstFrom(f, m, l, i)
                          && forall k :: i <= k < j ==> Replica(f, m, l, k).None?
    decreases l.Replicas() - i
  {
    hide Replica;
    if i < l.Replicas() {
      FirstIsFirst(f, m, l, i + 1);
      if Replica(f, m, l, i).None? && FirstFrom(f, m, l, i).Some? {
        var j :| i + 1 <= j < l.Replicas() && Replica(f, m, l, j) == FirstFrom(f, m, l, i + 1)
                 && forall k :: i + 1 <= k < j ==> Replica(f, m, l, k).None?;
        assert forall k :: i <= k < j ==> Replica(f, m, l, k).None?;
      }
    }
  }

  // ---- opening ----

  /** Phase A on one probed sector; `None` means the probe moves on. */
  function Probe(f: Format, m: Medium, size: nat, lba: nat): Option<Result<(Header, Layout)>> {
    match m.Read(lba, 1)
    case None => Some(Err(Io))
    case Some(s) =>
      var b := BlockOf(s[0]);
      if !f.verify(b) then None
      else
        match f.parse(b)
        case Err(e) => Some(Err(e))
        case Ok(h) =>
          match ComputeGeometry(size, |m.sectors|, Options(h.headerReplicas, h.footerReplicas, h.metadataSize))
          case Err(e) => Some(Err(e))
          case Ok(l) => Some(Ok((h, l)))
  }

  /** `JvckMetadataReader::open`: last sector first, then sector 0. */
  function OpenReader(f: Format, m: Medium, size: nat): (r: Result<(Header, Layout)>)
    ensures r.Ok? ==> r.value.1.Accepted()
  {
    if size < METADATA_BLOCK_SIZE then Err(Unsupported)
    else if |m.sectors| == 0 then Err(NotFound)
    else
      match Probe(f, m, size, |m.sectors| - 1)
      case Some(r) => r
      case None =>
        match Probe(f, m, size, 0)
        case Some(r) => r
        case None => Err(NotFound)
  }

  /** Phase B: adopt the first replica that unseals, then take the recovered maximum as the offset. */
  function IntoStore(f: Format, m: Medium, size: nat, h: Header, l: Layout): Result<StoreState>
    requires l.Accepted()
  {
    match FirstFrom(f, m, l, 0)
    case None => Err(NotFound)
    case Some(u) =>
      var off := match LoadOffset(f, m, l) case Ok(b) => b case Err(_) => u.offset;
      Ok(StoreState(l, size, h, u.secrets, off, u.state))
  }

  function Reopen(f: Format, m: Medium, size: nat): Result<StoreState> {
    match OpenReader(f, m, size)
    case Err(e) => Err(e)
    case Ok((h, l)) => IntoStore(f, m, size, h, l)
  }

  /** Replica `i` validates and carries header `h` and payload `u`. */
  predicate Carries(f: Format, m: Medium, l: Layout, i: nat, h: Header, u: Unsealed)
    requires l.Accepted() && i < l.Replicas()
  {
    && l.MetaLba(i) < |m.sectors|
    && var b := BlockOf(m.sectors[l.MetaLba(i)]); f.verify(b) && f.parse(b) == Ok(h) && f.unseal(b) == Ok(u)
  }

  predicate Readable(m: Medium, l: Layout)
    requires l.Accepted()
  {
    forall i :: 0 <= i < l.Replicas() ==> m.Readable(l.MetaLba(i), 1)
  }

  /** On a header-only layout the last sector belongs to the data region; it must not pass for metadata. */
  predicate LastSectorHonest(f: Format, m: Medium, l: Layout) {
    l.footers == 0 && |m.sectors| > 0 ==>
      m.Readable(|m.sectors| - 1, 1) && !f.verify(BlockOf(m.sectors[|m.sectors| - 1]))
  }

  /** The probe finds a replica of this layout and parses its header. */
  lemma OpenFinds(f: Format, m: Medium, st: StoreState)
    requires st.HeaderMatches() && |m.sectors| == st.layout.volume
    requires Readable(m, st.layout) && LastSectorHonest(f, m, st.layout)
    requires forall i :: 0 <= i < st.layout.Replicas() ==>
                           && st.layout.MetaLba(i) < |m.sectors|
                           && var b := BlockOf(m.sectors[st.layout.MetaLba(i)]);
                           f.verify(b) && f.parse(b) == Ok(st.header)
    ensures OpenReader(f, m, st.size) == Ok((st.header, st.layout))
  {
    var l := st.layout;
    if l.footers > 0 {
      var i := l.Replicas() - 1;
      FooterEnds(l);
      assert l.MetaLba(i) == |m.sectors| - 1 && m.Readable(l.MetaLba(i), 1);
    } else {
      assert l.MetaLba(0) == 0 && m.Readable(l.MetaLba(0), 1);
    }
  }

  lemma FooterEnds(l: Layout)
    requires l.Accepted() && l.footers > 0
    ensures l.MetaLba(l.Replicas() - 1) == l.volume - 1
  {
    RegionBounds(l, l.Replicas() - 1);
    Distribute1(l.footers - 1, l.rs);
  }

  lemma Distribute1(a: nat, c: nat)
    ensures (a + 1) * c == a * c + c
  {
  }

  /** When every replica carries the same state, reopening restores exactly that state. */
  lemma ReopenRestores(f: Format, m: Medium, st: StoreState)
    requires st.HeaderMatches() && |m.sectors| == st.layout.volume
    requires Readable(m, st.layout) && LastSectorHonest(f, m, st.layout)
    requires forall i :: 0 <= i < st.layout.Replicas() ==> Carries(f, m, st.layout, i, st.header, st.Sealable())
    ensures Reopen(f, m, st.size) == Ok(st)
  {
    hide Layout.MetaLba;
    var l := st.layout;
    forall i | 0 <= i < l.Replicas()
      ensures Replica(f, m, l, i) == Some(st.Sealable())
      ensures l.MetaLba(i) < |m.sectors|
      ensures var b := BlockOf(m.sectors[l.MetaLba(i)]); f.verify(b) && f.parse(b) == Ok(st.header)
    {
      assert Carries(f, m, l, i, st.header, st.Sealable());
      assert m.Readable(l.MetaLba(i), 1);
    }
    OpenFinds(f, m, st);
    FirstIsFirst(f, m, l, 0);
    BestIsMaximum(f, m, l, l.Replicas());
    assert Replica(f, m, l, 0).Some?;
  }
}
