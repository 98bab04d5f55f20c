/** Durability: every store operation refines an abstract store, and reopening recovers it. */
module Durability {
  import opened Bytes
  import opened Errors
  import opened Layout
  import opened Metadata
  import opened Sectors
  import opened Store
  import Arith

  datatype Op =
    | PutOffset(offset: Word64, salt: Block)
    | PutState(state: VolumeState, salt: Block)
    | PutReserved(reserved: Reserved, salt: Block)
    | PutVendor(replica: nat, rel: nat, buf: seq<Sector>)
    | PutVendorAll(rel: nat, buf: seq<Sector>)

  // ---- the concrete operations ----

  /** Re-seal the current state into every replica. */
  function Reseal(f: Format, m: Medium, st: StoreState, salt: Block): (r: Medium)
    requires st.HeaderMatches() && st.layout.volume == |m.sectors|
    ensures |r.sectors| == |m.sectors| && r.bad == m.bad
  {
    WriteReplicas(m, st.layout, SealedSector(f, st, salt), st.layout.Replicas())
  }

  /** `vendor_data_lba_checked`, in bytes as the source checks it. */
  function VendorLbaChecked(l: Layout, size: nat, replica: nat, rel: nat, len: nat): Result<nat>
    requires l.Accepted()
  {
    if size == 0 || len == 0 || len % size != 0 then Err(InvalidData)
    else if replica >= l.Replicas() then Err(NotFound)
    else if rel + len / size > l.VendorCount() then Err(ValidationFailed)
    else Ok(l.VendorBase(replica) + rel)
  }

  predicate VendorRangeOk(l: Layout, replica: nat, rel: nat, buf: seq<Sector>)
    requires l.Accepted()
  {
    buf != [] && replica < l.Replicas() && rel + |buf| <= l.VendorCount()
  }

  /** For a buffer of whole sectors the byte checks are exactly the range check. */
  lemma VendorLbaOk(l: Layout, size: nat, replica: nat, rel: nat, buf: seq<Sector>)
    requires l.Accepted() && size > 0
    ensures VendorLbaChecked(l, size, replica, rel, |buf| * size).Ok? <==> VendorRangeOk(l, replica, rel, buf)
    ensures VendorRangeOk(l, replica, rel, buf) ==>
              VendorLbaChecked(l, size, replica, rel, |buf| * size) == Ok(l.VendorBase(replica) + rel)
  {
    Arith.Quotient(|buf| * size, size, |buf|, 0);
    if buf != [] {
      Arith.Monotone(1, |buf|, size);
    }
  }

  function WriteVendor(m: Medium, l: Layout, replica: nat, rel: nat, buf: seq<Sector>): (r: Medium)
    requires l.Accepted() && l.volume == |m.sectors|
    ensures |r.sectors| == |m.sectors| && r.bad == m.bad
  {
    if VendorRangeOk(l, replica, rel, buf) then
      RegionBounds(l, replica);
      m.Write(l.VendorBase(replica) + rel, buf)
    else m
  }

  function WriteVendorAll(m: Medium, l: Layout, rel: nat, buf: seq<Sector>, n: nat): (r: Medium)
    requires l.Accepted() && l.volume == |m.sectors| && n <= l.Replicas()
    ensures |r.sectors| == |m.sectors| && r.bad == m.bad
  {
    if n == 0 then m else WriteVendor(WriteVendorAll(m, l, rel, buf, n - 1), l, n - 1, rel, buf)
  }

  datatype Concrete = Concrete(st: StoreState, m: Medium)

  function Updated(st: StoreState, op: Op): (r: StoreState)
    ensures r.layout == st.layout && r.size == st.size && (st.HeaderMatches() ==> r.HeaderMatches())
  {
    match op
    case PutOffset(offset, _) => st.(offset := offset)
    case PutState(state, _) => st.(state := state)
    case PutReserved(reserved, _) => st.(header := st.header.(vendorReserved := reserved))
    case PutVendor(_, _, _) => st
    case PutVendorAll(_, _) => st
  }

  function Apply(f: Format, c: Concrete, op: Op): (r: Concrete)
    requires c.st.HeaderMatches() && c.st.layout.volume == |c.m.sectors|
    ensures r.st.HeaderMatches() && r.st.layout == c.st.layout && |r.m.sectors| == |c.m.sectors| && r.m.bad == c.m.bad
  {
    var st, l := Updated(c.st, op), c.st.layout;
    match op
    case PutVendor(i, rel, buf) => Concrete(st, WriteVendor(c.m, l, i, rel, buf))
    case PutVendorAll(rel, buf) => Concrete(st, WriteVendorAll(c.m, l, rel, buf, l.Replicas()))
    case PutOffset(_, salt) => Concrete(st, Reseal(f, c.m, st, salt))
    case PutState(_, salt) => Concrete(st, Reseal(f, c.m, st, salt))
    case PutReserved(_, salt) => Concrete(st, Reseal(f, c.m, st, salt))
  }

  function ApplyAll(f: Format, c: Concrete, ops: seq<Op>): (r: Concrete)
    requires c.st.HeaderMatches() && c.st.layout.volume == |c.m.sectors|
    ensures r.st.HeaderMatches() && r.st.layout == c.st.layout && |r.m.sectors| == |c.m.sectors| && r.m.bad == c.m.bad
    decreases |ops|
  {
    if ops == [] then c else ApplyAll(f, Apply(f, c, ops[0]), ops[1..])
  }

  // ---- the abstract store ----

  /** What a user of the store believes: its state, one image per vendor region, the data region. */
  datatype Abstract = Abstract(st: StoreState, vendor: seq<seq<Sector>>, data: seq<Sector>)

  function Splice(s: seq<Sector>, at: nat, buf: seq<Sector>): (r: seq<Sector>)
    requires at + |buf| <= |s|
    ensures |r| == |s|
  {
    s[..at] + buf + s[at + |buf|..]
  }

  function SpliceIfFits(s: seq<Sector>, at: nat, buf: seq<Sector>): (r: seq<Sector>)
    ensures |r| == |s|
  {
    if buf != [] && at + |buf| <= |s| then Splice(s, at, buf) else s
  }

  function AbstractApply(a: Abstract, op: Op): Abstract {
    var b := a.(st := Updated(a.st, op));
    match op
    case PutVendor(i, rel, buf) =>
      if i < |a.vendor| then b.(vendor := a.vendor[i := SpliceIfFits(a.vendor[i], rel, buf)]) else b
    case PutVendorAll(rel, buf) =>
      b.(vendor := seq(|a.vendor|, i requires 0 <= i < |a.vendor| => SpliceIfFits(a.vendor[i], rel, buf)))
    case _ => b
  }

  function AbstractRun(a: Abstract, ops: seq<Op>): Abstract
    decreases |ops|
  {
    if ops == [] then a else AbstractRun(AbstractApply(a, ops[0]), ops[1..])
  }

  function VendorImage(m: Medium, l: Layout, i: nat): (s: seq<Sector>)
    requires l.Accepted() && l.volume == |m.sectors| && i < l.Replicas()
    ensures |s| == l.VendorCount()
  {
    RegionBounds(l, i);
    m.sectors[l.VendorBase(i)..l.VendorBase(i) + l.VendorCount()]
  }

  function DataImage(m: Medium, l: Layout): (s: seq<Sector>)
    requires l.Accepted() && l.volume == |m.sectors|
    ensures |s| == l.Data()
  {
    Arith.Distribute(l.headers, l.footers, l.rs);
    m.sectors[l.Off()..l.Off() + l.Data()]
  }

  function Abs(c: Concrete): Abstract
    requires c.st.layout.Accepted() && c.st.layout.volume == |c.m.sectors|
  {
    var l := c.st.layout;
    Abstract(c.st, seq(l.Replicas(), i requires 0 <= i < l.Replicas() => VendorImage(c.m, l, i)), DataImage(c.m, l))
  }

  /** Every replica validates and carries the in-memory state. */
  ghost predicate Agrees(f: Format, c: Concrete) {
    && c.st.HeaderMatches() && c.st.layout.volume == |c.m.sectors|
    && forall i :: 0 <= i < c.st.layout.Replicas() ==> Carries(f, c.m, c.st.layout, i, c.st.header, c.st.Sealable())
  }

  // ---- refinement, one operation at a time ----

  /** After `k` replica writes the written replicas carry the new state, the others what they had. */
  lemma SealedReplicas(f: Format, m: Medium, st: StoreState, salt: Block, k: nat, i: nat)
    requires f.Lawful() && st.HeaderMatches() && st.layout.volume == |m.sectors|
    requires k <= st.layout.Replicas() && i < st.layout.Replicas()
    ensures st.layout.MetaLba(i) < |m.sectors|
    ensures var r := WriteReplicas(m, st.layout, SealedSector(f, st, salt), k);
            if i < k then Carries(f, r, st.layout, i, st.header, st.Sealable())
            else r.sectors[st.layout.MetaLba(i)] == m.sectors[st.layout.MetaLba(i)]
  {
    hide Layout.MetaLba, WriteReplicas;
    ReplicaSector(m, st.layout, SealedSector(f, st, salt), k, i);
    assert f.SealsWell(st.header, st.Sealable(), salt);
  }

  lemma ReplicasKeepVendor(m: Medium, l: Layout, s: Sector, k: nat, i: nat)
    requires l.Accepted() && l.volume == |m.sectors| && k <= l.Replicas() && i < l.Replicas()
    ensures VendorImage(WriteReplicas(m, l, s, k), l, i) == VendorImage(m, l, i)
  {
    hide Layout.MetaLba, WriteReplicas;
    RegionBounds(l, i);
    forall j | 0 <= j < l.VendorCount()
      ensures VendorImage(WriteReplicas(m, l, s, k), l, i)[j] == VendorImage(m, l, i)[j]
    {
      assert l.InVendor(i, l.VendorBase(i) + j);
      ReplicaWritesElsewhere(m, l, s, k, l.VendorBase(i) + j);
    }
  }

  lemma ReplicasKeepData(m: Medium, l: Layout, s: Sector, k: nat)
    requires l.Accepted() && l.volume == |m.sectors| && k <= l.Replicas()
    ensures DataImage(WriteReplicas(m, l, s, k), l) == DataImage(m, l)
  {
    hide Layout.MetaLba, WriteReplicas;
    Arith.Distribute(l.headers, l.footers, l.rs);
    forall j | 0 <= j < l.Data()
      ensures DataImage(WriteReplicas(m, l, s, k), l)[j] == DataImage(m, l)[j]
    {
      assert l.InData(l.Off() + j);
      ReplicaWritesElsewhere(m, l, s, k, l.Off() + j);
    }
  }

  lemma ResealRefines(f: Format, m: Medium, st: StoreState, salt: Block)
    requires f.Lawful() && st.HeaderMatches() && st.layout.volume == |m.sectors|
    ensures Agrees(f, Concrete(st, Reseal(f, m, st, salt)))
    ensures Abs(Concrete(st, Reseal(f, m, st, salt))) == Abs(Concrete(st, m))
  {
    hide Layout.MetaLba, WriteReplicas, SealedSector, Carries, VendorImage, DataImage;
    var l, s := st.layout, SealedSector(f, st, salt);
    forall i | 0 <= i < l.Replicas()
      ensures Carries(f, Reseal(f, m, st, salt), l, i, st.header, st.Sealable())
      ensures VendorImage(Reseal(f, m, st, salt), l, i) == VendorImage(m, l, i)
    {
      SealedReplicas(f, m, st, salt, l.Replicas(), i);
      ReplicasKeepVendor(m, l, s, l.Replicas(), i);
    }
    ReplicasKeepData(m, l, s, l.Replicas());
  }

  /** A vendor write changes its own image only: no other image, no data sector, no Metadata sector. */
  lemma VendorWriteRefines(m: Medium, l: Layout, replica: nat, rel: nat, buf: seq<Sector>)
    requires l.Accepted() && l.volume == |m.sectors|
    ensures var r := WriteVendor(m, l, replica, rel, buf);
            && (forall i :: 0 <= i < l.Replicas() ==>
                              VendorImage(r, l, i)
                              == if i == replica then SpliceIfFits(VendorImage(m, l, i), rel, buf)
                                 else VendorImage(m, l, i))
            && DataImage(r, l) == DataImage(m, l)
            && (forall i :: 0 <= i < l.Replicas() ==>
                              l.MetaLba(i) < l.volume && r.sectors[l.MetaLba(i)] == m.sectors[l.MetaLba(i)])
  {
    var r := WriteVendor(m, l, replica, rel, buf);
    forall i | 0 <= i < l.Replicas()
      ensures l.MetaLba(i) < l.volume && r.sectors[l.MetaLba(i)] == m.sectors[l.MetaLba(i)]
      ensures VendorImage(r, l, i)
              == if i == replica then SpliceIfFits(VendorImage(m, l, i), rel, buf) else VendorImage(m, l, i)
    {
      VendorWriteAt(m, l, replica, rel, buf, i);
    }
    if VendorRangeOk(l, replica, rel, buf) {
      RegionBounds(l, replica);
    }
  }

  lemma VendorWriteAt(m: Medium, l: Layout, replica: nat, rel: nat, buf: seq<Sector>, i: nat)
    requires l.Accepted() && l.volume == |m.sectors| && i < l.Replicas()
    ensures var r := WriteVendor(m, l, replica, rel, buf);
            && VendorImage(r, l, i) == (if i == replica then SpliceIfFits(VendorImage(m, l, i), rel, buf)
               else VendorImage(m, l, i))
            && l.MetaLba(i) < l.volume && r.sectors[l.MetaLba(i)] == m.sectors[l.MetaLba(i)]
  {
    hide Layout.Data, Layout.Off, Layout.FooterStart, Layout.MetaLba, Layout.VendorBase, Splice;
    MetaLbaApart(l, i);
    if VendorRangeOk(l, replica, rel, buf) {
      if i == replica {
        SplicedWithin(m, l.VendorBase(i), l.VendorCount(), rel, buf);
      } else {
        VendorRegionsApart(l, replica, i);
        WrittenElsewhere(m, l.VendorBase(i), l.VendorCount(), l.VendorBase(replica) + rel, buf);
      }
    }
  }

  lemma MetaLbaApart(l: Layout, i: nat)
    requires l.Accepted() && i < l.Replicas()
    ensures l.MetaLba(i) < l.volume && l.VendorBase(i) + l.VendorCount() <= l.volume
    ensures l.MetaLba(i) < l.VendorBase(i) || l.VendorBase(i) + l.VendorCount() <= l.MetaLba(i)
  {
    RegionBounds(l, i);
  }

  /** A write inside a stretch of sectors splices that stretch. */
  lemma SplicedWithin(m: Medium, base: nat, len: nat, rel: nat, buf: seq<Sector>)
    requires base + len <= |m.sectors| && rel + |buf| <= len
    ensures m.Write(base + rel, buf).sectors[base..base + len] == Splice(m.sectors[base..base + len], rel, buf)
  {
  }

  lemma WrittenElsewhere(m: Medium, base: nat, len: nat, at: nat, buf: seq<Sector>)
    requires base + len <= |m.sectors| && at + |buf| <= |m.sectors| && (base + len <= at || at + |buf| <= base)
    ensures m.Write(at, buf).sectors[base..base + len] == m.sectors[base..base + len]
  {
  }

  /** Two regions: the vendor sectors and the Metadata sector of one are apart from the other's. */
  lemma VendorRegionsApart(l: Layout, i: nat, j: nat)
    requires l.Accepted() && i < l.Replicas() && j < l.Replicas() && i != j
    ensures l.VendorBase(i) + l.VendorCount() <= l.volume && l.VendorBase(j) + l.VendorCount() <= l.volume
    ensures l.VendorBase(i) + l.VendorCount() <= l.VendorBase(j) || l.VendorBase(j) + l.VendorCount() <= l.VendorBase(i)
    ensures l.MetaLba(j) < l.VendorBase(i) || l.VendorBase(i) + l.VendorCount() <= l.MetaLba(j)
  {
    hide Layout.Data, Layout.Off, Layout.FooterStart;
    RegionBounds(l, i);
    RegionBounds(l, j);
    if i < j { RegionsApart(l, i, j); } else { RegionsApart(l, j, i); }
  }

  lemma VendorWriteKeepsAgreement(f: Format, m: Medium, st: StoreState, replica: nat, rel: nat, buf: seq<Sector>)
    requires Agrees(f, Concrete(st, m))
    ensures Agrees(f, Concrete(st, WriteVendor(m, st.layout, replica, rel, buf)))
    ensures Abs(Concrete(st, WriteVendor(m, st.layout, replica, rel, buf)))
            == AbstractApply(Abs(Concrete(st, m)), PutVendor(replica, rel, buf))
  {
    hide Layout.MetaLba, VendorImage, DataImage, WriteVendor;
    VendorWriteRefines(m, st.layout, replica, rel, buf);
    forall i | 0 <= i < st.layout.Replicas()
      ensures Carries(f, WriteVendor(m, st.layout, replica, rel, buf), st.layout, i, st.header, st.Sealable())
    {
      assert Carries(f, m, st.layout, i, st.header, st.Sealable());
    }
  }

  /** Mirroring over the first `n` replicas. */
  lemma {:induction false} VendorAllRefines(f: Format, m: Medium, st: StoreState, rel: nat, buf: seq<Sector>, n: nat)
    requires Agrees(f, Concrete(st, m)) && n <= st.layout.Replicas()
    ensures var r := WriteVendorAll(m, st.layout, rel, buf, n);
            && Agrees(f, Concrete(st, r))
            && Abs(Concrete(st, r)).data == Abs(Concrete(st, m)).data
            && forall i :: 0 <= i < st.layout.Replicas() ==>
                             VendorImage(r, st.layout, i)
                             == if i < n then SpliceIfFits(VendorImage(m, st.layout, i), rel, buf)
                                else VendorImage(m, st.layout, i)
  {
    hide Layout.MetaLba, VendorImage, DataImage, WriteVendor, Carries, SpliceIfFits;
    if n > 0 {
      var prev := WriteVendorAll(m, st.layout, rel, buf, n - 1);
      VendorAllRefines(f, m, st, rel, buf, n - 1);
      VendorWriteKeepsAgreement(f, prev, st, n - 1, rel, buf);
      VendorWriteRefines(prev, st.layout, n - 1, rel, buf);
    }
  }

  /** Each operation does to the medium what the abstract store says, and the replicas keep agreeing. */
  lemma ApplyRefines(f: Format, c: Concrete, op: Op)
    requires f.Lawful() && Agrees(f, c)
    ensures Agrees(f, Apply(f, c, op))
    ensures Abs(Apply(f, c, op)) == AbstractApply(Abs(c), op)
  {
    hide VendorImage, DataImage, WriteVendor, Carries, Reseal, StoreState.HeaderMatches;
    var st := Updated(c.st, op);
    match op
    case PutOffset(_, salt) => ResealRefines(f, c.m, st, salt);
    case PutState(_, salt) => ResealRefines(f, c.m, st, salt);
    case PutReserved(_, salt) => ResealRefines(f, c.m, st, salt);
    case PutVendor(i, rel, buf) => VendorWriteKeepsAgreement(f, c.m, c.st, i, rel, buf);
    case PutVendorAll(rel, buf) => VendorAllRefines(f, c.m, c.st, rel, buf, c.st.layout.Replicas());
  }

  /** Whole runs: after any sequence of operations the medium holds exactly the abstract store, and
      reopening it recovers the last stored offset, direction, keys, reserved area and geometry. */
  lemma {:induction false} Durable(f: Format, c: Concrete, ops: seq<Op>)
    requires f.Lawful() && Agrees(f, c)
    ensures var r := ApplyAll(f, c, ops);
            && Abs(r) == AbstractRun(Abs(c), ops)
            && (Readable(r.m, r.st.layout) && LastSectorHonest(f, r.m, r.st.layout) ==>
                  Reopen(f, r.m, r.st.size) == Ok(AbstractRun(Abs(c), ops).st))
    decreases |ops|
  {
    hide VendorImage, DataImage, Carries, Apply, AbstractApply, Reopen;
    if ops == [] {
      if Readable(c.m, c.st.layout) && LastSectorHonest(f, c.m, c.st.layout) {
        ReopenRestores(f, c.m, c.st);
      }
    } else {
      ApplyRefines(f, c, ops[0]);
      Durable(f, Apply(f, c, ops[0]), ops[1..]);
    }
  }

  // ---- creation ----

  function Create(f: Format, m: Medium, size: nat, o: Options, secrets: Secrets, volumeId: Block,
                  salt: Block): Result<Concrete>
    requires o.metadataSize < 0x1_0000_0000 && size < 0x1_0000_0000
  {
    match o.Validate()
    case Err(e) => Err(e)
    case Ok(_) =>
      match ComputeGeometry(size, |m.sectors|, o)
      case Err(e) => Err(e)
      case Ok(l) =>
        var h := Header(0, 1, 0, o.metadataSize, size, o.useHeader % 256, o.useFooter % 256, volumeId, Zeros(192));
        var st := StoreState(l, size, h, secrets, 0, Encrypt);
        Ok(Concrete(st, WriteReplicas(m, l, SealedSector(f, st, salt), l.Replicas())))
  }

  /** A fresh store agrees with its medium and starts at offset 0 in the Encrypt direction, exactly when
      the replica counts survive their cast to one byte. */
  lemma CreateAgrees(f: Format, m: Medium, size: nat, o: Options, secrets: Secrets, volumeId: Block, salt: Block)
    requires f.Lawful() && o.metadataSize < 0x1_0000_0000 && size < 0x1_0000_0000 && |m.sectors| < U64
    requires Create(f, m, size, o, secrets, volumeId, salt).Ok?
    ensures var c := Create(f, m, size, o, secrets, volumeId, salt).value;
            && (Agrees(f, c) <==> o.useHeader < 256 && o.useFooter < 256)
            && c.st.offset == 0 && c.st.state == Encrypt && c.st.secrets == secrets
            && DataImage(c.m, c.st.layout) == DataImage(m, c.st.layout)
  {
    hide Layout.MetaLba, WriteReplicas, SealedSector, VendorImage, DataImage, Carries;
    var c := Create(f, m, size, o, secrets, volumeId, salt).value;
    ReplicasKeepData(m, c.st.layout, SealedSector(f, c.st, salt), c.st.layout.Replicas());
    if o.useHeader < 256 && o.useFooter < 256 {
      ResealRefines(f, m, c.st, salt);
    }
  }

  /** A volume created with more than 255 replicas at one end is never reopened with its own geometry. */
  lemma TooManyReplicasNeverRecovered(f: Format, m: Medium, size: nat, l: Layout)
    requires l.headers >= 256 || l.footers >= 256
    ensures OpenReader(f, m, size).Ok? ==> OpenReader(f, m, size).value.1 != l
  {
  }
}
