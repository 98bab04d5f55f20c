/** What a caller of the store gets back, without the functions that compute it: which replica decides, what a probe
    makes of the disk, and that the last write of each kind is the one recovered. */
module Recovery {
  import opened Bytes
  import opened Errors
  import opened Layout
  import opened Metadata
  import opened Sectors
  import opened Store
  import opened Durability
  import Arith

  /** Replica `i` can be read and carries `u`. */
  predicate Validates(f: Format, m: Medium, l: Layout, i: nat, u: Unsealed)
    requires l.Accepted()
  {
    && i < l.Replicas() && l.MetaLba(i) < |m.sectors| && l.MetaLba(i) !in m.bad
    && f.verify(BlockOf(m.sectors[l.MetaLba(i)])) && f.unseal(BlockOf(m.sectors[l.MetaLba(i)])) == Ok(u)
  }

  lemma ReplicaValidates(f: Format, m: Medium, l: Layout, i: nat, u: Unsealed)
    requires l.Accepted() && i < l.Replicas()
    ensures Replica(f, m, l, i) == Some(u) <==> Validates(f, m, l, i, u)
  {
    hide Layout.MetaLba;
    if l.MetaLba(i) < |m.sectors| && l.MetaLba(i) !in m.bad {
      assert m.Readable(l.MetaLba(i), 1);
    }
  }

  /** The recovered boundary: carried by a replica that validates and exceeded by none; none at all if none does. */
  lemma RecoveryIsMaximum(f: Format, m: Medium, l: Layout)
    requires l.Accepted()
    ensures LoadOffset(f, m, l) == Err(NotFound) <==> forall i, u :: !Validates(f, m, l, i, u)
    ensures LoadOffset(f, m, l).Ok? ==>
              && (exists i, u :: Validates(f, m, l, i, u) && u.offset == LoadOffset(f, m, l).value)
              && forall i, u :: Validates(f, m, l, i, u) ==> u.offset <= LoadOffset(f, m, l).value
    ensures LoadOffset(f, m, l).Err? ==> LoadOffset(f, m, l) == Err(NotFound)
  {
    hide Layout.MetaLba, Replica, Validates, Best;
    BestIsMaximum(f, m, l, l.Replicas());
    forall i: nat, u | Validates(f, m, l, i, u)
      ensures i < l.Replicas() && Replica(f, m, l, i) == Some(u)
    {
      ValidatesInside(f, m, l, i, u);
      ReplicaValidates(f, m, l, i, u);
    }
    if Best(f, m, l, l.Replicas()).Some? {
      var i :| 0 <= i < l.Replicas() && Replica(f, m, l, i).Some?
               && Replica(f, m, l, i).value.offset == Best(f, m, l, l.Replicas()).value;
      ReplicaValidates(f, m, l, i, Replica(f, m, l, i).value);
    }
  }

  lemma ValidatesInside(f: Format, m: Medium, l: Layout, i: nat, u: Unsealed)
    requires l.Accepted() && Validates(f, m, l, i, u)
    ensures i < l.Replicas()
  {
  }

  /** Replica `i` is the first that validates, with `u`. */
  ghost predicate FirstValid(f: Format, m: Medium, l: Layout, i: nat, u: Unsealed)
    requires l.Accepted()
  {
    Validates(f, m, l, i, u) && forall j, v :: 0 <= j < i ==> !Validates(f, m, l, j, v)
  }

  /** Adopting a volume: keys and direction are those of the first replica that validates, the boundary is the
      largest over all of them, header and geometry are what the probe found. */
  lemma AdoptsFirst(f: Format, m: Medium, size: nat, h: Header, l: Layout)
    requires l.Accepted()
    ensures IntoStore(f, m, size, h, l).Err? ==>
              && IntoStore(f, m, size, h, l) == Err(NotFound)
              && forall i, u :: !Validates(f, m, l, i, u)
    ensures IntoStore(f, m, size, h, l).Ok? ==>
              var st := IntoStore(f, m, size, h, l).value;
              && st.layout == l && st.size == size && st.header == h
              && (exists i, u :: FirstValid(f, m, l, i, u) && st.secrets == u.secrets && st.state == u.state)
              && (exists i, u :: Validates(f, m, l, i, u) && u.offset == st.offset)
              && forall i, u :: Validates(f, m, l, i, u) ==> u.offset <= st.offset
  {
    hide Layout.MetaLba, Replica, Validates, LoadOffset, FirstFrom;
    FirstIsFirst(f, m, l, 0);
    RecoveryIsMaximum(f, m, l);
    forall i: nat, u | Validates(f, m, l, i, u)
      ensures i < l.Replicas() && Replica(f, m, l, i) == Some(u)
    {
      ValidatesInside(f, m, l, i, u);
      ReplicaValidates(f, m, l, i, u);
    }
    if FirstFrom(f, m, l, 0).Some? {
      var j :| 0 <= j < l.Replicas() && Replica(f, m, l, j) == FirstFrom(f, m, l, 0)
               && forall k :: 0 <= k < j ==> Replica(f, m, l, k).None?;
      ReplicaValidates(f, m, l, j, FirstFrom(f, m, l, 0).value);
      assert FirstValid(f, m, l, j, FirstFrom(f, m, l, 0).value);
    }
  }

  // ---- opening ----

  /** What a verifying block in sector `lba` decides: its header, and the regions that header describes. */
  predicate DecidedBy(f: Format, m: Medium, size: nat, lba: nat, r: Result<(Header, Layout)>)
    requires 512 <= size && lba < |m.sectors|
  {
    match f.parse(BlockOf(m.sectors[lba]))
    case Err(e) => r == Err(e)
    case Ok(h) =>
      var rs := h.metadataSize / size;
      if 0 < rs && (h.headerReplicas + h.footerReplicas) * rs < |m.sectors| then
        r == Ok((h, Layout(|m.sectors|, rs, h.headerReplicas, h.footerReplicas)))
      else r == Err(ValidationFailed)
  }

  /** The last sector decides unless it can be read and does not verify; then sector 0 does. */
  lemma ProbeOrder(f: Format, m: Medium, size: nat)
    ensures var r, n := Store.OpenReader(f, m, size), |m.sectors|;
            && (size < 512 ==> r == Err(Unsupported))
            && (512 <= size && n == 0 ==> r == Err(NotFound))
            && (512 <= size && n > 0 ==>
                  if n - 1 in m.bad then r == Err(Io)
                  else if f.verify(BlockOf(m.sectors[n - 1])) then DecidedBy(f, m, size, n - 1, r)
                  else if 0 in m.bad then r == Err(Io)
                  else if f.verify(BlockOf(m.sectors[0])) then DecidedBy(f, m, size, 0, r)
                  else r == Err(NotFound))
  {
    if 512 <= size && |m.sectors| > 0 {
      Probed(f, m, size, |m.sectors| - 1);
      Probed(f, m, size, 0);
    }
  }

  lemma Probed(f: Format, m: Medium, size: nat, lba: nat)
    requires 512 <= size && lba < |m.sectors|
    ensures lba in m.bad ==> Probe(f, m, size, lba) == Some(Err(Io))
    ensures lba !in m.bad ==> (Probe(f, m, size, lba).Some? <==> f.verify(BlockOf(m.sectors[lba])))
    ensures lba !in m.bad && Probe(f, m, size, lba).Some? ==> DecidedBy(f, m, size, lba, Probe(f, m, size, lba).value)
  {
    if lba !in m.bad {
      assert m.Read(lba, 1) == Some(m.sectors[lba..lba + 1]);
    }
  }

  // ---- creation ----

  /** A volume is created exactly on 512-byte sectors or larger, with at least 128 KiB of metadata a replica, at
      least one replica, and some data sector left. */
  lemma CreateExactly(f: Format, m: Medium, size: nat, o: Options, secrets: Secrets, volumeId: Block, salt: Block)
    requires o.metadataSize < 0x1_0000_0000 && size < 0x1_0000_0000
    ensures var r := Create(f, m, size, o, secrets, volumeId, salt);
            && (r.Ok? <==> && 131072 <= o.metadataSize && 0 < o.useHeader + o.useFooter && 512 <= size
                           && 0 < o.metadataSize / size
                           && (o.useHeader + o.useFooter) * (o.metadataSize / size) < |m.sectors|)
            && (r.Err? && 131072 <= o.metadataSize && 0 < o.useHeader + o.useFooter && size < 512 ==>
                  r == Err(Unsupported))
            && (r.Err? && (o.metadataSize < 131072 || o.useHeader + o.useFooter == 0 || 512 <= size) ==>
                  r == Err(ValidationFailed))
    ensures var r := Create(f, m, size, o, secrets, volumeId, salt);
            r.Ok? ==>
              && r.value.st.layout == Layout(|m.sectors|, o.metadataSize / size, o.useHeader, o.useFooter)
              && r.value.st.size == size && r.value.st.secrets == secrets
              && r.value.st.offset == 0 && r.value.st.state == Encrypt
              && var h := r.value.st.header;
                 && h.vendorId == 0 && h.metadataVersion == 1 && h.vendorVersion == 0
                 && h.metadataSize == o.metadataSize && h.sectorSize == size
                 && h.headerReplicas == o.useHeader % 256 && h.footerReplicas == o.useFooter % 256
                 && h.volumeId == volumeId && h.vendorReserved == Zeros(192)
  {
    hide WriteReplicas, SealedSector;
  }

  // ---- the last write of each kind ----

  /** `i` is the last offset in `ops`, or -1. */
  predicate LastOffset(ops: seq<Op>, i: int) {
    && -1 <= i < |ops| && (i >= 0 ==> ops[i].PutOffset?)
    && forall j :: i < j < |ops| ==> !ops[j].PutOffset?
  }

  predicate LastDirection(ops: seq<Op>, i: int) {
    && -1 <= i < |ops| && (i >= 0 ==> ops[i].PutState?)
    && forall j :: i < j < |ops| ==> !ops[j].PutState?
  }

  predicate LastReserved(ops: seq<Op>, i: int) {
    && -1 <= i < |ops| && (i >= 0 ==> ops[i].PutReserved?)
    && forall j :: i < j < |ops| ==> !ops[j].PutReserved?
  }

  lemma {:induction false} OffsetRuns(a: Abstract, ops: seq<Op>, i: int)
    requires LastOffset(ops, i)
    ensures AbstractRun(a, ops).st.offset == if i < 0 then a.st.offset else ops[i].offset
    decreases |ops|
  {
    if ops != [] {
      OffsetRuns(AbstractApply(a, ops[0]), ops[1..], if i > 0 then i - 1 else -1);
    }
  }

  lemma {:induction false} DirectionRuns(a: Abstract, ops: seq<Op>, i: int)
    requires LastDirection(ops, i)
    ensures AbstractRun(a, ops).st.state == if i < 0 then a.st.state else ops[i].state
    decreases |ops|
  {
    if ops != [] {
      DirectionRuns(AbstractApply(a, ops[0]), ops[1..], if i > 0 then i - 1 else -1);
    }
  }

  lemma {:induction false} ReservedRuns(a: Abstract, ops: seq<Op>, i: int)
    requires LastReserved(ops, i)
    ensures var st := AbstractRun(a, ops).st;
            && st.header == a.st.header.(vendorReserved := if i < 0 then a.st.header.vendorReserved
               else ops[i].reserved)
            && st.layout == a.st.layout && st.size == a.st.size && st.secrets == a.st.secrets
    decreases |ops|
  {
    if ops != [] {
      ReservedRuns(AbstractApply(a, ops[0]), ops[1..], if i > 0 then i - 1 else -1);
    }
  }

  /** After any operations, reopening finds the last offset, the last direction and the last reserved area that were
      stored, each the original one if none was, and the keys, sizes and geometry unchanged. */
  lemma RecoversLast(f: Format, c: Concrete, ops: seq<Op>, i: int, j: int, k: int)
    requires f.Lawful() && Agrees(f, c) && LastOffset(ops, i) && LastDirection(ops, j) && LastReserved(ops, k)
    requires var m := ApplyAll(f, c, ops).m; Readable(m, c.st.layout) && LastSectorHonest(f, m, c.st.layout)
    ensures var r := Reopen(f, ApplyAll(f, c, ops).m, c.st.size);
            && r.Ok? && r.value.layout == c.st.layout && r.value.size == c.st.size
            && r.value.secrets == c.st.secrets
            && r.value.offset == (if i < 0 then c.st.offset else ops[i].offset)
            && r.value.state == (if j < 0 then c.st.state else ops[j].state)
            && r.value.header
               == c.st.header.(vendorReserved := if k < 0 then c.st.header.vendorReserved else ops[k].reserved)
  {
    hide ApplyAll, AbstractRun, VendorImage, DataImage, Carries, Reopen, LastOffset, LastDirection, LastReserved;
    Durable(f, c, ops);
    OffsetRuns(Abs(c), ops, i);
    DirectionRuns(Abs(c), ops, j);
    ReservedRuns(Abs(c), ops, k);
  }

  /** Operation `op` writes vendor sector `x` of region `r`, if regions have `count` of them. */
  predicate Covers(op: Op, r: nat, x: nat, count: nat) {
    match op
    case PutVendor(replica, rel, buf) => replica == r && rel <= x < rel + |buf| <= count
    case PutVendorAll(rel, buf) => rel <= x < rel + |buf| <= count
    case _ => false
  }

  predicate LastCover(ops: seq<Op>, i: int, r: nat, x: nat, count: nat) {
    && -1 <= i < |ops| && (i >= 0 ==> Covers(ops[i], r, x, count))
    && forall j :: i < j < |ops| ==> !Covers(ops[j], r, x, count)
  }

  lemma VendorStep(a: Abstract, op: Op, r: nat, x: nat)
    requires r < |a.vendor| && x < |a.vendor[r]|
    ensures var b := AbstractApply(a, op);
            && |b.vendor| == |a.vendor| && |b.vendor[r]| == |a.vendor[r]|
            && b.vendor[r][x] == if Covers(op, r, x, |a.vendor[r]|) then op.buf[x - op.rel] else a.vendor[r][x]
  {
  }

  lemma {:induction false} VendorRuns(a: Abstract, ops: seq<Op>, r: nat, x: nat, i: int)
    requires r < |a.vendor| && x < |a.vendor[r]| && LastCover(ops, i, r, x, |a.vendor[r]|)
    ensures var v := AbstractRun(a, ops).vendor;
            && r < |v| && x < |v[r]|
            && v[r][x] == if i < 0 then a.vendor[r][x] else ops[i].buf[x - ops[i].rel]
    decreases |ops|
  {
    hide AbstractApply, Covers;
    if ops != [] {
      VendorStep(a, ops[0], r, x);
      assert i > 0 ==> ops[1..][i - 1] == ops[i];
      VendorRuns(AbstractApply(a, ops[0]), ops[1..], r, x, if i > 0 then i - 1 else -1);
    }
  }

  lemma {:induction false} DataRuns(a: Abstract, ops: seq<Op>)
    ensures AbstractRun(a, ops).data == a.data
    decreases |ops|
  {
    if ops != [] {
      DataRuns(AbstractApply(a, ops[0]), ops[1..]);
    }
  }

  /** After any operations each vendor sector holds what the last one to cover it wrote there, or what it held. */
  lemma VendorKeepsLast(f: Format, c: Concrete, ops: seq<Op>, r: nat, x: nat, i: int)
    requires f.Lawful() && Agrees(f, c) && r < c.st.layout.Replicas() && x < c.st.layout.VendorCount()
    requires LastCover(ops, i, r, x, c.st.layout.VendorCount())
    ensures var l, m := c.st.layout, ApplyAll(f, c, ops).m;
            && l.VendorBase(r) + x < |m.sectors| == |c.m.sectors|
            && m.sectors[l.VendorBase(r) + x]
               == if i < 0 then c.m.sectors[l.VendorBase(r) + x] else ops[i].buf[x - ops[i].rel]
  {
    hide ApplyAll, AbstractRun, Carries, Reopen, Layout.VendorBase, Layout.Off, Layout.Data, Layout.MetaLba, Abs,
         Readable, LastSectorHonest, VendorImage, DataImage;
    var l, m := c.st.layout, ApplyAll(f, c, ops).m;
    Durable(f, c, ops);
    VendorOf(c, r);
    VendorOf(ApplyAll(f, c, ops), r);
    VendorRuns(Abs(c), ops, r, x, i);
    VendorAt(c.m, l, r, x);
    VendorAt(m, l, r, x);
  }

  lemma VendorOf(c: Concrete, r: nat)
    requires c.st.layout.Accepted() && c.st.layout.volume == |c.m.sectors| && r < c.st.layout.Replicas()
    ensures r < |Abs(c).vendor| && Abs(c).vendor[r] == VendorImage(c.m, c.st.layout, r)
  {
    hide VendorImage, DataImage;
  }

  /** No operation touches a data sector. */
  lemma DataUntouched(f: Format, c: Concrete, ops: seq<Op>, lba: nat)
    requires f.Lawful() && Agrees(f, c) && c.st.layout.InData(lba)
    ensures var m := ApplyAll(f, c, ops).m; lba < |m.sectors| == |c.m.sectors| && m.sectors[lba] == c.m.sectors[lba]
  {
    hide ApplyAll, AbstractRun, Carries, Reopen, Layout.Off, Layout.Data, Layout.MetaLba, VendorImage, DataImage;
    Durable(f, c, ops);
    DataRuns(Abs(c), ops);
    DataAt(c.m, c.st.layout, lba);
    DataAt(ApplyAll(f, c, ops).m, c.st.layout, lba);
  }

  lemma VendorAt(m: Medium, l: Layout, r: nat, x: nat)
    requires l.Accepted() && l.volume == |m.sectors| && r < l.Replicas() && x < l.VendorCount()
    ensures l.VendorBase(r) + x < |m.sectors| && VendorImage(m, l, r)[x] == m.sectors[l.VendorBase(r) + x]
  {
    RegionBounds(l, r);
  }

  lemma DataAt(m: Medium, l: Layout, lba: nat)
    requires l.Accepted() && l.volume == |m.sectors| && l.InData(lba)
    ensures lba < |m.sectors| && DataImage(m, l)[lba - l.Off()] == m.sectors[lba]
  {
    Arith.Distribute(l.headers, l.footers, l.rs);
  }
}
