/** Power loss at any point of a batch or of a direction change, and what recovery makes of it. */
module Crash {
  import opened Bytes
  import opened Errors
  import opened Layout
  import opened Metadata
  import opened Sectors
  import opened Store
  import opened Durability
  import opened DataPath
  import opened Sweep
  import opened Volume
  import opened Invariant

  // ---- recovery by maximum offset, replicas possibly unreadable or invalid ----

  /** Some replica validates, and every one that does carries `b`. */
  ghost predicate LiveAt(f: Format, m: Medium, l: Layout, b: Word64)
    requires l.Accepted()
  {
    && (exists i :: 0 <= i < l.Replicas() && Replica(f, m, l, i).Some?)
    && forall i :: 0 <= i < l.Replicas() && Replica(f, m, l, i).Some? ==> Replica(f, m, l, i).value.offset == b
  }

  predicate Written(m: Medium, l: Layout, k: nat)
    requires l.Accepted() && k <= l.Replicas()
  {
    exists i :: 0 <= i < k && m.Readable(l.MetaLba(i), 1)
  }

  predicate Untouched(f: Format, m: Medium, l: Layout, k: nat)
    requires l.Accepted() && k <= l.Replicas()
  {
    exists i :: k <= i < l.Replicas() && Replica(f, m, l, i).Some?
  }

  lemma ReplicaAfterPrefix(f: Format, m: Medium, st: StoreState, salt: Block, k: nat, i: nat)
    requires f.Lawful() && st.HeaderMatches() && st.layout.volume == |m.sectors|
    requires k <= st.layout.Replicas() && i < st.layout.Replicas()
    ensures Replica(f, WriteReplicas(m, st.layout, SealedSector(f, st, salt), k), st.layout, i)
            == if i >= k then Replica(f, m, st.layout, i)
               else if m.Readable(st.layout.MetaLba(i), 1) then Some(st.Sealable()) else None
  {
    hide Layout.MetaLba, WriteReplicas, SealedSector;
    SealedReplicas(f, m, st, salt, k, i);
  }

  /** What recovery returns after `k` of the replicas were rewritten: the larger of the two offsets, as long
      as both a written and an untouched replica validate. */
  lemma RecoveryAfterPrefix(f: Format, m: Medium, st: StoreState, salt: Block, k: nat, b: Word64)
    requires f.Lawful() && st.HeaderMatches() && st.layout.volume == |m.sectors| && k <= st.layout.Replicas()
    requires LiveAt(f, m, st.layout, b)
    ensures var off := LoadOffset(f, WriteReplicas(m, st.layout, SealedSector(f, st, salt), k), st.layout);
            off == Ok(if !Written(m, st.layout, k) then b
                      else if !Untouched(f, m, st.layout, k) then st.offset
                      else if b < st.offset then st.offset else b)
  {
    hide Layout.MetaLba, WriteReplicas, SealedSector, Replica;
    var l := st.layout;
    var after := WriteReplicas(m, l, SealedSector(f, st, salt), k);
    forall i | 0 <= i < l.Replicas()
      ensures Replica(f, after, l, i)
              == if i >= k then Replica(f, m, l, i) else if m.Readable(l.MetaLba(i), 1) then Some(st.Sealable())
                 else None
    {
      ReplicaAfterPrefix(f, m, st, salt, k, i);
    }
    BestIsMaximum(f, after, l, l.Replicas());
    if Untouched(f, m, l, k) {
      var i :| k <= i < l.Replicas() && Replica(f, m, l, i).Some?;
      assert Replica(f, after, l, i).Some?;
    }
    if Written(m, l, k) {
      var i :| 0 <= i < k && m.Readable(l.MetaLba(i), 1);
      assert Replica(f, after, l, i).Some?;
    } else {
      var i :| 0 <= i < l.Replicas() && Replica(f, m, l, i).Some?;
      assert m.Readable(l.MetaLba(i), 1) by { LiveIsReadable(f, m, l, i); }
    }
  }

  lemma LiveIsReadable(f: Format, m: Medium, l: Layout, i: nat)
    requires l.Accepted() && i < l.Replicas()
    ensures Replica(f, m, l, i).Some? ==> m.Readable(l.MetaLba(i), 1)
  {
  }

  /** While decrypting, recovery returns the new boundary exactly when a replica validates and every one that
      does carries it; otherwise it returns the old one. */
  lemma DecryptRecovery(f: Format, m: Medium, st: StoreState, salt: Block, k: nat, b: Word64)
    requires f.Lawful() && st.HeaderMatches() && st.layout.volume == |m.sectors| && k <= st.layout.Replicas()
    requires LiveAt(f, m, st.layout, b) && st.offset < b
    ensures var after := WriteReplicas(m, st.layout, SealedSector(f, st, salt), k);
            LoadOffset(f, after, st.layout) == Ok(if LiveAt(f, after, st.layout, st.offset) then st.offset else b)
  {
    hide Layout.MetaLba, WriteReplicas, SealedSector, Replica;
    var l, after := st.layout, WriteReplicas(m, st.layout, SealedSector(f, st, salt), k);
    RecoveryAfterPrefix(f, m, st, salt, k, b);
    BestIsMaximum(f, after, l, l.Replicas());
    forall i | 0 <= i < l.Replicas()
      ensures Replica(f, after, l, i)
              == if i >= k then Replica(f, m, l, i) else if m.Readable(l.MetaLba(i), 1) then Some(st.Sealable())
                 else None
    {
      ReplicaAfterPrefix(f, m, st, salt, k, i);
    }
    if Untouched(f, m, l, k) {
      var i :| k <= i < l.Replicas() && Replica(f, m, l, i).Some?;
      assert Replica(f, after, l, i).Some? && Replica(f, after, l, i).value.offset == b;
    }
  }

  // ---- the disk an interrupted batch leaves ----

  function SectorsReached(o: Outcome, count: nat): (n: nat)
    ensures n <= count
  {
    if !o.DataStops? then count else if o.n <= count then o.n else 0
  }

  function SaltOf(o: Outcome): Block {
    match o
    case StoreStops(_, salt) => salt
    case Completes(salt) => salt
    case _ => Zeros(16)
  }

  /** Data sectors first, then replicas with the moved boundary, each write as far as it got. */
  function BatchDisk(f: Format, c: Core, at: nat, out: seq<Sector>, next: Word64, o: Outcome): (m: Medium)
    requires c.WellFormed()
    ensures |m.sectors| == |c.medium.sectors| && m.bad == c.medium.bad
  {
    var l, st := c.store.layout, c.store.(offset := next);
    WriteReplicas(c.medium.WriteUpTo(c.Off() + at, out, SectorsReached(o, |out|)), l, SealedSector(f, st, SaltOf(o)),
                  ReplicasReached(o, l.Replicas()))
  }

  lemma PersistDisk(f: Format, c: Core, at: nat, out: seq<Sector>, next: Word64, o: Outcome)
    requires c.WellFormed() && c.medium.Fits(c.Off() + at, |out|)
    ensures BatchDisk(f, c, at, out, next, o)
            == if o.DataStops? then c.medium.WriteUpTo(c.Off() + at, out, o.n)
               else Persist(f, c.(medium := c.medium.Write(c.Off() + at, out), boundary := next), o).0.medium
  {
    hide SealedSector, Medium.Write, Layout.Off;
    WriteAll(c.medium, c.Off() + at, out);
    WriteNothing(c.medium, c.Off() + at, out);
  }

  lemma EncryptDisk(cfg: Config, c: Core, batch: nat, o: Outcome)
    requires c.WellFormed() && !c.FullyEncrypted()
    ensures var count := BatchCount(c.Total() - c.boundary, batch);
            var abs := c.Off() + c.boundary;
            c.medium.Readable(abs, count) ==>
              EncryptBatch(cfg, c, batch, o).0.medium
              == BatchDisk(cfg.format, c, c.boundary,
                           EncArea(cfg.suite(c.store.secrets), c.boundary, c.medium.sectors[abs..abs + count]),
                           c.boundary + count, o)
    ensures !c.medium.Readable(c.Off() + c.boundary, BatchCount(c.Total() - c.boundary, batch)) ==>
              EncryptBatch(cfg, c, batch, o).0.medium == c.medium
  {
    hide Layout.Off, Layout.Data, Persist, BatchDisk, EncArea, Medium.Write, Medium.WriteUpTo, BatchCount;
    var count := BatchCount(c.Total() - c.boundary, batch);
    var abs := c.Off() + c.boundary;
    var buf := c.medium.Read(abs, count);
    if buf.Some? {
      PersistDisk(cfg.format, c, c.boundary, EncArea(cfg.suite(c.store.secrets), c.boundary, buf.value),
          c.boundary + count, o);
    }
  }

  lemma DecryptDisk(cfg: Config, c: Core, batch: nat, o: Outcome)
    requires c.WellFormed() && 0 < c.boundary <= c.Total()
    ensures var next := c.boundary - BatchCount(c.boundary, batch);
            var abs := c.Off() + next;
            c.medium.Readable(abs, c.boundary - next) ==>
              DecryptBatch(cfg, c, batch, o).0.medium
              == BatchDisk(cfg.format, c, next,
                           DecArea(cfg.suite(c.store.secrets), next, c.medium.sectors[abs..abs + (c.boundary - next)]),
                           next, o)
    ensures var next := c.boundary - BatchCount(c.boundary, batch);
            !c.medium.Readable(c.Off() + next, c.boundary - next) ==>
                DecryptBatch(cfg, c, batch, o).0.medium == c.medium
  {
    hide Layout.Off, Layout.Data, Persist, BatchDisk, DecArea, Medium.Write, Medium.WriteUpTo, BatchCount;
    var next := c.boundary - BatchCount(c.boundary, batch);
    var abs := c.Off() + next;
    var buf := c.medium.Read(abs, c.boundary - next);
    if buf.Some? {
      PersistDisk(cfg.format, c, next, DecArea(cfg.suite(c.store.secrets), next, buf.value), next, o);
    }
  }

  /** Such a disk: the data region has the first sectors of the batch; the boundary is recoverable at the old
      value if no replica was written, at the new one if all were, or some were and it did not go down. */
  lemma BatchDiskHolds(f: Format, c: Core, at: nat, out: seq<Sector>, next: Word64, o: Outcome, b: Word64)
    requires f.Lawful() && c.WellFormed() && at + |out| <= c.Total() && AllHold(f, c.medium, c.store, b)
    ensures var m, l, p := BatchDisk(f, c, at, out, next, o), c.store.layout,
              ReplicasReached(o, c.store.layout.Replicas());
            && DataImage(m, l) == Splice(DataImage(c.medium, l), at, out[..SectorsReached(o, |out|)])
            && (p == 0 ==> AllHold(f, m, c.store, b))
            && (p == l.Replicas() || (p > 0 && b <= next) ==> AllHold(f, m, c.store, next))
            && (b >= next ==> forall i :: 0 <= i < l.Replicas() ==>
               Holds(f, m, l, i, c.store.header, b, c.store.secrets))
  {
    hide WriteReplicas, SealedSector, DataImage, Layout.MetaLba, AllHold, Holds, Medium.WriteUpTo, Splice;
    var l, st, t := c.store.layout, c.store.(offset := next), SectorsReached(o, |out|);
    var p, salt := ReplicasReached(o, l.Replicas()), SaltOf(o);
    DataRegionInside(l);
    WrittenPrefix(c.medium, l, c.Off() + at, out, t);
    var w := c.medium.WriteUpTo(c.Off() + at, out, t);
    SameReplicasHold(f, c.medium, w, c.store, b);
    ReplicasKeepData(w, l, SealedSector(f, st, salt), p);
    SameStateHolds(f, w, c.store, st, b);
    if p == 0 {
      NoneWritten(w, l, SealedSector(f, st, salt));
    } else if p == l.Replicas() || b <= next {
      ReplicasHold(f, w, st, salt, p, b);
      SameStateHolds(f, WriteReplicas(w, l, SealedSector(f, st, salt), p), c.store, st, next);
    }
    if b >= next {
      HoldsBelow(f, w, st, salt, p, b);
    }
  }

  lemma BatchDiskReplica(f: Format, c: Core, at: nat, out: seq<Sector>, next: Word64, o: Outcome, i: nat)
    requires f.Lawful() && c.WellFormed() && at + |out| <= c.Total() && i < c.store.layout.Replicas()
    ensures var m, l := BatchDisk(f, c, at, out, next, o), c.store.layout;
            && l.MetaLba(i) < |m.sectors|
            && if i < ReplicasReached(o, l.Replicas()) then Carried(f, m, l, i, next)
               else m.sectors[l.MetaLba(i)] == c.medium.sectors[l.MetaLba(i)]
  {
    hide WriteReplicas, SealedSector, DataImage, Layout.MetaLba, Medium.WriteUpTo;
    var l, st, t := c.store.layout, c.store.(offset := next), SectorsReached(o, |out|);
    DataRegionInside(l);
    WrittenPrefix(c.medium, l, c.Off() + at, out, t);
    SealedReplicas(f, c.medium.WriteUpTo(c.Off() + at, out, t), st, SaltOf(o), ReplicasReached(o, l.Replicas()), i);
  }

  lemma WrittenPrefix(m: Medium, l: Layout, lba: nat, buf: seq<Sector>, t: nat)
    requires l.Accepted() && l.volume == |m.sectors| && InRange(l, lba, |buf|) && t <= |buf|
    ensures var r := m.WriteUpTo(lba, buf, t);
            && DataImage(r, l) == Splice(DataImage(m, l), lba - l.Off(), buf[..t])
            && forall i :: 0 <= i < l.Replicas() ==>
                             l.MetaLba(i) < l.volume && r.sectors[l.MetaLba(i)] == m.sectors[l.MetaLba(i)]
  {
    hide DataImage, Layout.MetaLba, Layout.Off, Layout.Data;
    DataSlice(m, l, lba, |buf|);
    DataWrite(m, l, lba, buf[..t]);
  }

  lemma HoldsBelow(f: Format, m: Medium, st: StoreState, salt: Block, k: nat, b: Word64)
    requires f.Lawful() && st.HeaderMatches() && st.layout.volume == |m.sectors| && k <= st.layout.Replicas()
    requires AllHold(f, m, st, b) && st.offset <= b
    ensures forall i :: 0 <= i < st.layout.Replicas() ==>
                          Holds(f, WriteReplicas(m, st.layout, SealedSector(f, st, salt), k), st.layout, i, st.header,
                              b, st.secrets)
  {
    hide Layout.MetaLba, WriteReplicas, SealedSector;
    var l, r := st.layout, WriteReplicas(m, st.layout, SealedSector(f, st, salt), k);
    forall i | 0 <= i < l.Replicas()
      ensures Holds(f, r, l, i, st.header, b, st.secrets)
    {
      SealedReplicas(f, m, st, salt, k, i);
      if i >= k {
        assert Holds(f, m, l, i, st.header, b, st.secrets);
      } else {
        assert Carries(f, r, l, i, st.header, st.Sealable());
      }
    }
  }

  // ---- what the user sees after recovery ----

  /** Ciphertext below a boundary that did not move: those sectors read back as ciphertext, no others change. */
  lemma EncryptDamage(c: SectorCipher, d: seq<Sector>, b: nat, n: nat)
    requires b + n <= |d|
    ensures ViewOf(c, Splice(d, b, EncArea(c, b, d[b..b + n])), b)
            == Splice(ViewOf(c, d, b), b, EncArea(c, b, ViewOf(c, d, b)[b..b + n]))
  {
    var was, now := ViewOf(c, d, b), ViewOf(c, Splice(d, b, EncArea(c, b, d[b..b + n])), b);
    var hit := Splice(was, b, EncArea(c, b, was[b..b + n]));
    forall k | 0 <= k < |d|
      ensures now[k] == hit[k]
    {
      if b <= k < b + n {
        assert d[b..b + n][k - b] == d[k] && was[b..b + n][k - b] == was[k];
      }
    }
    assert now == hit;
  }

  lemma SplicedAt(s: seq<Sector>, at: nat, buf: seq<Sector>, k: nat)
    requires at + |buf| <= |s| && k < |s|
    ensures Splice(s, at, buf)[k] == if at <= k < at + |buf| then buf[k - at] else s[k]
  {
  }

  /** Plaintext at or above a boundary that came down only to `x`: the written sectors below `x` are
      decrypted a second time, no others change. */
  lemma DecryptDamage(c: SectorCipher, d: seq<Sector>, b: nat, next: nat, n: nat, x: nat)
    requires next <= x <= b <= |d| && next + n <= b && (x == b || next + n == b)
    ensures var hit := if next + n < x then n else x - next;
            ViewOf(c, Splice(d, next, DecArea(c, next, d[next..next + n])), x)
            == Splice(ViewOf(c, d, b), next, DecArea(c, next, ViewOf(c, d, b)[next..next + hit]))
  {
    hide Splice;
    var hit := if next + n < x then n else x - next;
    var out := DecArea(c, next, d[next..next + n]);
    var was, now := ViewOf(c, d, b), ViewOf(c, Splice(d, next, out), x);
    var again := DecArea(c, next, was[next..next + hit]);
    var twice := Splice(was, next, again);
    forall k | 0 <= k < |d|
      ensures now[k] == twice[k]
    {
      SplicedAt(d, next, out, k);
      SplicedAt(was, next, again, k);
      if next <= k < next + n {
        assert d[next..next + n][k - next] == d[k];
      }
      if next <= k < next + hit {
        assert was[next..next + hit][k - next] == was[k];
      }
    }
    assert now == twice;
  }

  /** Some boundary up to `top` is recoverable when every replica validates below `top`. */
  lemma SomeRecoverable(f: Format, m: Medium, st: StoreState, top: Word64)
    requires st.HeaderMatches() && |m.sectors| == st.layout.volume && Readable(m, st.layout)
    requires forall i :: 0 <= i < st.layout.Replicas() ==> Holds(f, m, st.layout, i, st.header, top, st.secrets)
    ensures var r := LoadOffset(f, m, st.layout); r.Ok? && r.value <= top && AllHold(f, m, st, r.value)
    ensures forall i :: 0 <= i < st.layout.Replicas() ==>
                          Replica(f, m, st.layout, i).Some?
                              && Replica(f, m, st.layout, i).value.offset <= LoadOffset(f, m, st.layout).value
  {
    hide Layout.MetaLba;
    var l := st.layout;
    BestIsMaximum(f, m, l, l.Replicas());
    forall i | 0 <= i < l.Replicas()
      ensures Replica(f, m, l, i).Some? && Replica(f, m, l, i).value.offset <= top
    {
      assert Holds(f, m, l, i, st.header, top, st.secrets);
      assert m.Readable(l.MetaLba(i), 1);
    }
    assert Replica(f, m, l, 0).Some?;
    var x := Best(f, m, l, l.Replicas()).value;
    var w :| 0 <= w < l.Replicas() && Replica(f, m, l, w).Some? && Replica(f, m, l, w).value.offset == x;
    assert Carried(f, m, l, w, x);
    forall i | 0 <= i < l.Replicas()
      ensures Holds(f, m, l, i, st.header, x, st.secrets)
    {
      assert Holds(f, m, l, i, st.header, top, st.secrets);
      assert Replica(f, m, l, i).Some?;
    }
  }

  lemma EncryptCrashDisk(cfg: Config, m: Machine, batch: nat, o: Outcome)
    requires Inv(cfg, m) && m.core.boundary < m.core.Total()
    requires m.core.medium.Readable(m.core.Off() + m.core.boundary, BatchCount(m.core.Total() - m.core.boundary, batch))
    ensures var b, count, l := m.core.boundary, BatchCount(m.core.Total() - m.core.boundary, batch),
              m.core.store.layout;
            var d, disk := DataImage(m.core.medium, l), EncryptBatch(cfg, m.core, batch, o).0.medium;
            && |disk.sectors| == |m.core.medium.sectors| && disk.bad == m.core.medium.bad
            && DataImage(disk, l) == Splice(d, b,
               EncArea(Cipher(cfg, m), b, d[b..b + count])[..SectorsReached(o, count)])
            && AllHold(cfg.format, disk, m.core.store, if ReplicasReached(o, l.Replicas()) > 0 then b + count else b)
  {
    hide DataImage, AllHold, Layout.Off, Layout.Data, BatchDisk, EncryptBatch, BatchCount, EncArea;
    var l, b := m.core.store.layout, m.core.boundary;
    var count := BatchCount(m.core.Total() - b, batch);
    var abs := m.core.Off() + b;
    EncryptDisk(cfg, m.core, batch, o);
    DataSlice(m.core.medium, l, abs, count);
    BatchDiskHolds(cfg.format, m.core, b, EncArea(Cipher(cfg, m), b, m.core.medium.sectors[abs..abs + count]),
        b + count, o, b);
  }

  /** Power loss in an encrypting batch. With one replica written the whole view comes back under the new
      boundary; before that the old boundary is recovered and exactly the written sectors of the batch read
      back as ciphertext. Either way the recovered volume is in its invariant again. */
  lemma EncryptCrash(cfg: Config, m: Machine, batch: nat, o: Outcome, resume: bool)
    requires Inv(cfg, m) && m.core.boundary < m.core.Total()
    requires var count := BatchCount(m.core.Total() - m.core.boundary, batch);
             m.core.medium.Readable(m.core.Off() + m.core.boundary, count)
    requires var disk := EncryptBatch(cfg, m.core, batch, o).0.medium;
             Readable(disk, m.core.store.layout) && LastSectorHonest(cfg.format, disk, m.core.store.layout)
    ensures var b, count := m.core.boundary, BatchCount(m.core.Total() - m.core.boundary, batch);
            var t := SectorsReached(o, count);
            var r := Attach(cfg, EncryptBatch(cfg, m.core, batch, o).0.medium, m.core.store.size, resume);
            && r.Some? && Inv(cfg, r.value)
            && if ReplicasReached(o, m.core.store.layout.Replicas()) > 0
               then r.value.cached == b + count && View(cfg, r.value) == View(cfg, m)
               else r.value.cached == b
                    && View(cfg, r.value) == Splice(View(cfg, m), b, EncArea(Cipher(cfg, m), b, View(cfg, m)[b..b + t]))
  {
    hide ViewOf, DataImage, AllHold, Layout.Off, Layout.Data, EncryptBatch, Readable, LastSectorHonest, BatchCount,
         Replica, Reopen, Attach, EncArea;
    var l, b := m.core.store.layout, m.core.boundary;
    var count, disk := BatchCount(m.core.Total() - b, batch), EncryptBatch(cfg, m.core, batch, o).0.medium;
    var x := if ReplicasReached(o, l.Replicas()) > 0 then b + count else b;
    EncryptCrashDisk(cfg, m, batch, o);
    ReopenHeld(cfg.format, disk, m.core.store, x);
    AttachHeld(cfg, m, disk, x, resume, Replica(cfg.format, disk, l, 0).value.state);
    EncryptCrashView(Cipher(cfg, m), DataImage(m.core.medium, l), b, count, SectorsReached(o, count));
  }

  lemma EncryptCrashView(c: SectorCipher, d: seq<Sector>, b: nat, count: nat, t: nat)
    requires c.Valid() && b + count <= |d| && t <= count
    ensures var disk := Splice(d, b, EncArea(c, b, d[b..b + count])[..t]);
            && (t == count ==> ViewOf(c, disk, b + count) == ViewOf(c, d, b))
            && ViewOf(c, disk, b) == Splice(ViewOf(c, d, b), b, EncArea(c, b, ViewOf(c, d, b)[b..b + t]))
  {
    assert EncArea(c, b, d[b..b + count])[..t] == EncArea(c, b, d[b..b + t]);
    EncryptDamage(c, d, b, t);
    if t == count {
      EncryptKeepsView(c, d, b, count);
    }
  }

  lemma DecryptCrashDisk(cfg: Config, m: Machine, batch: nat, o: Outcome)
    requires Inv(cfg, m) && m.core.boundary > 0
    requires var next := m.core.boundary - BatchCount(m.core.boundary, batch);
             m.core.medium.Readable(m.core.Off() + next, m.core.boundary - next)
    ensures var b, l, f := m.core.boundary, m.core.store.layout, cfg.format;
            var next, p := b - BatchCount(b, batch), ReplicasReached(o, l.Replicas());
            var d, disk := DataImage(m.core.medium, l), DecryptBatch(cfg, m.core, batch, o).0.medium;
            && |disk.sectors| == |m.core.medium.sectors| && disk.bad == m.core.medium.bad
            && DataImage(disk, l) == Splice(d, next,
               DecArea(Cipher(cfg, m), next, d[next..b])[..SectorsReached(o, b - next)])
            && (forall i :: 0 <= i < l.Replicas() ==>
               Holds(f, disk, l, i, m.core.store.header, b, m.core.store.secrets))
            && (forall i :: 0 <= i < l.Replicas() ==>
                              && l.MetaLba(i) < |disk.sectors|
                              && if i < p then Carried(f, disk, l, i, next)
                                 else disk.sectors[l.MetaLba(i)] == m.core.medium.sectors[l.MetaLba(i)])
            && (p == 0 ==> AllHold(f, disk, m.core.store, b))
            && (p == l.Replicas() ==> AllHold(f, disk, m.core.store, next))
  {
    hide DataImage, AllHold, Holds, Carried, Layout.Off, Layout.Data, Layout.MetaLba, BatchDisk, DecryptBatch,
         BatchCount, DecArea, StoreState.HeaderMatches;
    WellFormedLayout(m.core);
    var l, b, f := m.core.store.layout, m.core.boundary, cfg.format;
    var next := b - BatchCount(b, batch);
    var abs := m.core.Off() + next;
    var out := DecArea(Cipher(cfg, m), next, m.core.medium.sectors[abs..abs + (b - next)]);
    DecryptDisk(cfg, m.core, batch, o);
    DataSlice(m.core.medium, l, abs, b - next);
    BatchDiskHolds(f, m.core, next, out, next, o, b);
    forall i | 0 <= i < l.Replicas()
      ensures var disk := BatchDisk(f, m.core, next, out, next, o);
              && l.MetaLba(i) < |disk.sectors|
              && if i < ReplicasReached(o, l.Replicas()) then Carried(f, disk, l, i, next)
                 else disk.sectors[l.MetaLba(i)] == m.core.medium.sectors[l.MetaLba(i)]
    {
      BatchDiskReplica(f, m.core, next, out, next, o, i);
    }
  }

  /** Every replica carries exactly `b`. */
  ghost predicate AllCarry(f: Format, m: Medium, l: Layout, b: Word64)
    requires l.Accepted() && l.volume == |m.sectors|
  {
    forall i :: 0 <= i < l.Replicas() ==> l.MetaLba(i) < |m.sectors| && Carried(f, m, l, i, b)
  }

  lemma CarriedBelow(f: Format, m: Medium, st: StoreState, x: Word64, i: nat, v: Word64)
    requires st.layout.Accepted() && i < st.layout.Replicas() && AllHold(f, m, st, x)
    requires st.layout.MetaLba(i) < |m.sectors| && Carried(f, m, st.layout, i, v)
    ensures v <= x
  {
    hide Layout.MetaLba;
    assert Holds(f, m, st.layout, i, st.header, x, st.secrets);
  }

  lemma BoundaryUnique(f: Format, m: Medium, st: StoreState, x: Word64, y: Word64)
    requires st.layout.Accepted() && AllHold(f, m, st, x) && AllHold(f, m, st, y)
    ensures x == y
  {
    hide Layout.MetaLba, Holds, Carried;
    var l := st.layout;
    var i :| 0 <= i < l.Replicas() && l.MetaLba(i) < |m.sectors| && Carried(f, m, l, i, x);
    var j :| 0 <= j < l.Replicas() && l.MetaLba(j) < |m.sectors| && Carried(f, m, l, j, y);
    CarriedBelow(f, m, st, y, i, x);
    CarriedBelow(f, m, st, x, j, y);
  }

  lemma SameCarried(f: Format, m: Medium, m': Medium, l: Layout, i: nat, v: Word64)
    requires l.Accepted() && i < l.Replicas() && l.MetaLba(i) < |m.sectors| == |m'.sectors|
    requires m.sectors[l.MetaLba(i)] == m'.sectors[l.MetaLba(i)]
    ensures Carried(f, m, l, i, v) == Carried(f, m', l, i, v)
  {
    hide Layout.MetaLba;
  }

  /** Replicas from `k` on carry at most `v`: what an interrupted batch could read off the disk beforehand. */
  ghost predicate LaterAtMost(f: Format, m: Medium, l: Layout, k: nat, v: Word64)
    requires l.Accepted() && l.volume == |m.sectors|
  {
    forall i :: k <= i < l.Replicas() ==> l.MetaLba(i) < |m.sectors| && CarriesAtMost(f, m.sectors[l.MetaLba(i)], v)
  }

  predicate CarriesAtMost(f: Format, s: Sector, v: Word64) {
    f.unseal(BlockOf(s)).Ok? && f.unseal(BlockOf(s)).value.offset <= v
  }

  lemma HoldsAtMost(f: Format, m: Medium, st: StoreState, k: nat, x: Word64)
    requires st.layout.Accepted() && st.layout.volume == |m.sectors| && AllHold(f, m, st, x)
    ensures LaterAtMost(f, m, st.layout, k, x)
  {
    hide Layout.MetaLba;
    forall i | k <= i < st.layout.Replicas()
      ensures st.layout.MetaLba(i) < |m.sectors| && CarriesAtMost(f, m.sectors[st.layout.MetaLba(i)], x)
    {
      assert Holds(f, m, st.layout, i, st.header, x, st.secrets);
    }
  }

  lemma SameLater(f: Format, m: Medium, m': Medium, l: Layout, k: nat, v: Word64)
    requires l.Accepted() && l.volume == |m.sectors| == |m'.sectors|
    requires forall i :: k <= i < l.Replicas() ==>
                           l.MetaLba(i) < l.volume && m'.sectors[l.MetaLba(i)] == m.sectors[l.MetaLba(i)]
    ensures LaterAtMost(f, m, l, k, v) == LaterAtMost(f, m', l, k, v)
  {
    hide Layout.MetaLba, CarriesAtMost;
  }

  /** If the first `k` replicas carry `v` and no later one more, the recoverable boundary is `v` or less. */
  lemma RecoverableAtMost(f: Format, m: Medium, st: StoreState, k: nat, v: Word64, x: Word64)
    requires st.layout.Accepted() && st.layout.volume == |m.sectors| && AllHold(f, m, st, x)
    requires forall i :: 0 <= i < k && i < st.layout.Replicas() ==>
                           st.layout.MetaLba(i) < |m.sectors| && Carried(f, m, st.layout, i, v)
    requires LaterAtMost(f, m, st.layout, k, v)
    ensures x <= v
  {
    hide Layout.MetaLba;
    var l := st.layout;
    var i :| 0 <= i < l.Replicas() && l.MetaLba(i) < |m.sectors| && Carried(f, m, l, i, x);
    if i >= k {
      assert CarriesAtMost(f, m.sectors[l.MetaLba(i)], v);
    } else {
      assert Carried(f, m, l, i, v);
    }
  }

  /** The boundary recovered after an interrupted decrypting batch. */
  lemma DecryptCrashBoundary(cfg: Config, m: Machine, batch: nat, o: Outcome)
    requires Inv(cfg, m) && m.core.boundary > 0
    requires var next := m.core.boundary - BatchCount(m.core.boundary, batch);
             m.core.medium.Readable(m.core.Off() + next, m.core.boundary - next)
    requires Readable(DecryptBatch(cfg, m.core, batch, o).0.medium, m.core.store.layout)
    ensures var b, l, f := m.core.boundary, m.core.store.layout, cfg.format;
            var next, p, disk := b - BatchCount(b, batch), ReplicasReached(o, l.Replicas()),
                DecryptBatch(cfg, m.core, batch, o).0.medium;
            && LoadOffset(f, disk, l).Ok?
            && var x := LoadOffset(f, disk, l).value;
            && next <= x <= b && AllHold(f, disk, m.core.store, x)
            && (p == 0 ==> x == b) && (p == l.Replicas() ==> x == next)
            && (p < l.Replicas() && AllCarry(f, m.core.medium, l, b) ==> x == b)
            && (x == next <==> p > 0 && LaterAtMost(f, m.core.medium, l, p, next))
  {
    hide LaterAtMost, CarriesAtMost, DataImage, Holds, Carried, Layout.Off, Layout.Data, Layout.MetaLba, DecryptBatch,
         DecArea, LoadOffset, Readable, AllHold;
    var l, b, f, disk := m.core.store.layout, m.core.boundary, cfg.format, DecryptBatch(cfg, m.core, batch, o).0.medium;
    var next, p := b - BatchCount(b, batch), ReplicasReached(o, l.Replicas());
    DecryptCrashDisk(cfg, m, batch, o);
    SomeRecoverable(f, disk, m.core.store, b);
    var x := LoadOffset(f, disk, l).value;
    if p == 0 {
      BoundaryUnique(f, disk, m.core.store, x, b);
    }
    if p == l.Replicas() {
      BoundaryUnique(f, disk, m.core.store, x, next);
    }
    if 0 < p {
      CarriedBelow(f, disk, m.core.store, x, 0, next);
    }
    if p < l.Replicas() && AllCarry(f, m.core.medium, l, b) {
      SameCarried(f, m.core.medium, disk, l, p, b);
      CarriedBelow(f, disk, m.core.store, x, p, b);
    }
    SameLater(f, m.core.medium, disk, l, p, next);
    if x == next {
      HoldsAtMost(f, disk, m.core.store, p, x);
    }
    if p > 0 && LaterAtMost(f, disk, l, p, next) {
      RecoverableAtMost(f, disk, m.core.store, p, next, x);
    }
  }

  lemma DecryptCrashView(c: SectorCipher, d: seq<Sector>, b: nat, next: nat, t: nat, x: nat)
    requires next <= x <= b <= |d| && next + t <= b && (x == b || next + t == b)
    ensures var disk := Splice(d, next, DecArea(c, next, d[next..b])[..t]);
            var hit := if next + t < x then t else x - next;
            ViewOf(c, disk, x) == Splice(ViewOf(c, d, b), next, DecArea(c, next, ViewOf(c, d, b)[next..next + hit]))
  {
    assert DecArea(c, next, d[next..b])[..t] == DecArea(c, next, d[next..next + t]);
    DecryptDamage(c, d, b, next, t, x);
  }

  /** Power loss in a decrypting batch: the recovered boundary `x` lies in the batch, exactly the written
      sectors below it read back decrypted twice, and every other sector is intact. No sector is damaged when
      all replicas were written; from agreeing replicas the whole written part is damaged otherwise. */
  lemma DecryptCrash(cfg: Config, m: Machine, batch: nat, o: Outcome, resume: bool)
    requires Inv(cfg, m) && m.core.boundary > 0
    requires var next := m.core.boundary - BatchCount(m.core.boundary, batch);
             m.core.medium.Readable(m.core.Off() + next, m.core.boundary - next)
    requires var disk := DecryptBatch(cfg, m.core, batch, o).0.medium;
             Readable(disk, m.core.store.layout) && LastSectorHonest(cfg.format, disk, m.core.store.layout)
    ensures var b, l, v := m.core.boundary, m.core.store.layout, View(cfg, m);
            var next, p, t := b - BatchCount(b, batch), ReplicasReached(o, l.Replicas()),
                SectorsReached(o, BatchCount(b, batch));
            var r := Attach(cfg, DecryptBatch(cfg, m.core, batch, o).0.medium, m.core.store.size, resume);
            && r.Some? && Inv(cfg, r.value)
            && var x := r.value.cached;
            && next <= x <= b && (p == 0 ==> x == b) && (p == l.Replicas() ==> x == next)
            && (p < l.Replicas() && AllCarry(cfg.format, m.core.medium, l, b) ==> x == b)
            && (x == next <==> p > 0 && LaterAtMost(cfg.format, m.core.medium, l, p, next))
            && var hit := if next + t < x then t else x - next;
            && View(cfg, r.value) == Splice(v, next, DecArea(Cipher(cfg, m), next, v[next..next + hit]))
  {
    hide ViewOf, DataImage, AllHold, AllCarry, LaterAtMost, Holds, Carried, Layout.Off, Layout.Data, Layout.MetaLba,
         DecryptBatch, Readable, LastSectorHonest, BatchCount, Replica, Reopen, Attach, DecArea, LoadOffset;
    var l, b, f, disk := m.core.store.layout, m.core.boundary, cfg.format, DecryptBatch(cfg, m.core, batch, o).0.medium;
    var next := b - BatchCount(b, batch);
    DecryptCrashDisk(cfg, m, batch, o);
    DecryptCrashBoundary(cfg, m, batch, o);
    var x := LoadOffset(f, disk, l).value;
    ReopenHeld(f, disk, m.core.store, x);
    AttachHeld(cfg, m, disk, x, resume, Replica(f, disk, l, 0).value.state);
    DecryptCrashView(Cipher(cfg, m), DataImage(m.core.medium, l), b, next, SectorsReached(o, b - next), x);
  }

  // ---- changing direction ----

  /** Power loss between any two replica writes of a direction change: reopening finds the boundary it would
      have found before, and the new direction exactly when the first replica was written. */
  lemma DirectionChangeAtomic(cfg: Config, m: Machine, d: VolumeState, salt: Block, k: nat)
    requires Inv(cfg, m) && k <= m.core.store.layout.Replicas()
    requires var disk := Start(cfg.format, m.core, d, Some(salt), k).medium;
             && Readable(m.core.medium, m.core.store.layout)
             && LastSectorHonest(cfg.format, m.core.medium, m.core.store.layout)
             && LastSectorHonest(cfg.format, disk, m.core.store.layout)
    ensures var disk, size := Start(cfg.format, m.core, d, Some(salt), k).medium, m.core.store.size;
            var before := Reopen(cfg.format, m.core.medium, size);
            && before.Ok? && before.value.offset == m.core.boundary
            && Reopen(cfg.format, disk, size) == Ok(before.value.(state := if k > 0 then d else before.value.state))
            && DataImage(disk, m.core.store.layout) == DataImage(m.core.medium, m.core.store.layout)
  {
    hide DataImage, AllHold, Holds, Carried, Layout.Off, Layout.Data, Layout.MetaLba, WriteReplicas, SealedSector,
         Readable, LastSectorHonest, Reopen, Replica;
    var l, st, b := m.core.store.layout, m.core.store.(state := d), m.core.boundary;
    var disk := WriteReplicas(m.core.medium, l, SealedSector(cfg.format, st, salt), k);
    ReopenHeld(cfg.format, m.core.medium, m.core.store, b);
    SameStateHolds(cfg.format, m.core.medium, m.core.store, st, b);
    ReplicasHold(cfg.format, m.core.medium, st, salt, k, b);
    SameBad(m.core.medium, disk, l);
    ReopenHeld(cfg.format, disk, st, b);
    ReplicaAfterPrefix(cfg.format, m.core.medium, st, salt, k, 0);
    FirstReadable(m.core.medium, l);
    ReplicasKeepData(m.core.medium, l, SealedSector(cfg.format, st, salt), k);
  }

  lemma FirstReadable(m: Medium, l: Layout)
    requires l.Accepted() && l.Replicas() > 0 && Readable(m, l)
    ensures m.Readable(l.MetaLba(0), 1)
  {
    hide Layout.MetaLba;
  }

  // ---- the window after a failed store ----

  /** A batch whose store failed after all data was written: the engine has moved, the cache has not. Under
      the engine's boundary nothing changed; the data path, still on the cached one, sees exactly the batch
      as ciphertext. */
  lemma EncryptStaleCache(cfg: Config, m: Machine, batch: nat, o: Outcome)
    requires Inv(cfg, m) && m.core.mode == Encrypting && m.core.boundary < m.core.Total()
    requires m.core.medium.Readable(m.core.Off() + m.core.boundary, BatchCount(m.core.Total() - m.core.boundary, batch))
    requires o.SaltFails? || o.StoreStops?
    ensures var b, count := m.core.boundary, BatchCount(m.core.Total() - m.core.boundary, batch);
            var (m', v) := SweepStep(cfg, m, batch, o);
            && v == Failed && m'.core.boundary == b + count && m'.cached == b && m'.core.mode == Encrypting
            && ViewOf(Cipher(cfg, m'), DataImage(m'.core.medium, m'.core.store.layout), m'.core.boundary)
               == View(cfg, m)
            && View(cfg, m') == Splice(View(cfg, m), b, EncArea(Cipher(cfg, m), b, View(cfg, m)[b..b + count]))
  {
    hide ViewOf, DataImage, AllHold, Layout.Off, Layout.Data, EncryptBatch, BatchCount, EncArea;
    var l, b := m.core.store.layout, m.core.boundary;
    var count := BatchCount(m.core.Total() - b, batch);
    EncryptCrashDisk(cfg, m, batch, o);
    EncryptFails(cfg, m.core, batch, o);
    EncryptCrashView(Cipher(cfg, m), DataImage(m.core.medium, l), b, count, count);
  }

  /** A data write that failed after `n` sectors, without a reboot: nothing has moved, exactly those sectors
      read back as ciphertext, and the volume is still in its invariant. */
  lemma EncryptPartialWrite(cfg: Config, m: Machine, batch: nat, n: nat)
    requires Inv(cfg, m) && m.core.mode == Encrypting && m.core.boundary < m.core.Total()
    requires m.core.medium.Readable(m.core.Off() + m.core.boundary, BatchCount(m.core.Total() - m.core.boundary, batch))
    ensures var b, t := m.core.boundary,
              SectorsReached(DataStops(n), BatchCount(m.core.Total() - m.core.boundary, batch));
            var (m', v) := SweepStep(cfg, m, batch, DataStops(n));
            && v == Failed && m'.cached == m'.core.boundary == b && m'.core.store == m.core.store
            && Inv(cfg, m') && FrameOf(m') == FrameOf(m)
            && View(cfg, m') == Splice(View(cfg, m), b, EncArea(Cipher(cfg, m), b, View(cfg, m)[b..b + t]))
  {
    hide ViewOf, DataImage, AllHold, Layout.Off, Layout.Data, EncryptBatch, BatchCount, EncArea;
    var l, b := m.core.store.layout, m.core.boundary;
    var count := BatchCount(m.core.Total() - b, batch);
    EncryptCrashDisk(cfg, m, batch, DataStops(n));
    EncryptStops(cfg, m.core, batch, n);
    EncryptCrashView(Cipher(cfg, m), DataImage(m.core.medium, l), b, count, SectorsReached(DataStops(n), count));
  }

  lemma EncryptStops(cfg: Config, c: Core, batch: nat, n: nat)
    requires c.WellFormed() && !c.FullyEncrypted()
    requires c.medium.Readable(c.Off() + c.boundary, BatchCount(c.Total() - c.boundary, batch))
    ensures var (c', v) := EncryptBatch(cfg, c, batch, DataStops(n)); v == Failed && c' == c.(medium := c'.medium)
  {
    hide EncArea, Layout.Off, Layout.Data, BatchCount, Medium.WriteUpTo;
  }

  /** The same while decrypting: those sectors read back decrypted twice. */
  lemma DecryptPartialWrite(cfg: Config, m: Machine, batch: nat, n: nat)
    requires Inv(cfg, m) && m.core.mode == Decrypting && m.core.boundary > 0
    requires var next := m.core.boundary - BatchCount(m.core.boundary, batch);
             m.core.medium.Readable(m.core.Off() + next, m.core.boundary - next)
    ensures var b, next := m.core.boundary, m.core.boundary - BatchCount(m.core.boundary, batch);
            var t := SectorsReached(DataStops(n), b - next);
            var (m', v) := SweepStep(cfg, m, batch, DataStops(n));
            && v == Failed && m'.cached == m'.core.boundary == b && m'.core.store == m.core.store
            && Inv(cfg, m') && FrameOf(m') == FrameOf(m)
            && View(cfg, m') == Splice(View(cfg, m), next, DecArea(Cipher(cfg, m), next, View(cfg, m)[next..next + t]))
  {
    hide ViewOf, DataImage, AllHold, Holds, Carried, Layout.Off, Layout.Data, Layout.MetaLba, DecryptBatch, BatchCount,
         DecArea;
    var l, b := m.core.store.layout, m.core.boundary;
    var next := b - BatchCount(b, batch);
    DecryptCrashDisk(cfg, m, batch, DataStops(n));
    DecryptStops(cfg, m.core, batch, n);
    DecryptCrashView(Cipher(cfg, m), DataImage(m.core.medium, l), b, next, SectorsReached(DataStops(n), b - next), b);
  }

  lemma DecryptStops(cfg: Config, c: Core, batch: nat, n: nat)
    requires c.WellFormed() && 0 < c.boundary <= c.Total()
    requires var next := c.boundary - BatchCount(c.boundary, batch);
             c.medium.Readable(c.Off() + next, c.boundary - next)
    ensures var (c', v) := DecryptBatch(cfg, c, batch, DataStops(n)); v == Failed && c' == c.(medium := c'.medium)
  {
    hide DecArea, Layout.Off, Layout.Data, BatchCount, Medium.WriteUpTo;
  }

  lemma EncryptFails(cfg: Config, c: Core, batch: nat, o: Outcome)
    requires c.WellFormed() && !c.FullyEncrypted() && (o.SaltFails? || o.StoreStops?)
    requires c.medium.Readable(c.Off() + c.boundary, BatchCount(c.Total() - c.boundary, batch))
    ensures var (c', v) := EncryptBatch(cfg, c, batch, o);
            && v == Failed && c'.mode == c.mode && c'.boundary == c.boundary + BatchCount(c.Total() - c.boundary, batch)
            && c'.store == c.store.(offset := c'.boundary)
  {
    hide WriteReplicas, SealedSector, EncArea, Layout.Off, Layout.Data, BatchCount;
  }

  lemma DecryptStaleCache(cfg: Config, m: Machine, batch: nat, o: Outcome)
    requires Inv(cfg, m) && m.core.mode == Decrypting && m.core.boundary > 0 && (o.SaltFails? || o.StoreStops?)
    requires var next := m.core.boundary - BatchCount(m.core.boundary, batch);
             m.core.medium.Readable(m.core.Off() + next, m.core.boundary - next)
    ensures var b, next := m.core.boundary, m.core.boundary - BatchCount(m.core.boundary, batch);
            var (m', v) := SweepStep(cfg, m, batch, o);
            && v == Failed && m'.core.boundary == next && m'.cached == b && m'.core.mode == Decrypting
            && ViewOf(Cipher(cfg, m'), DataImage(m'.core.medium, m'.core.store.layout), m'.core.boundary)
               == View(cfg, m)
            && View(cfg, m') == Splice(View(cfg, m), next, DecArea(Cipher(cfg, m), next, View(cfg, m)[next..b]))
  {
    hide ViewOf, DataImage, AllHold, Holds, Carried, Layout.Off, Layout.Data, Layout.MetaLba, DecryptBatch, BatchCount,
         DecArea;
    var l, b := m.core.store.layout, m.core.boundary;
    var next := b - BatchCount(b, batch);
    DecryptCrashDisk(cfg, m, batch, o);
    DecryptFails(cfg, m.core, batch, o);
    DecryptCrashView(Cipher(cfg, m), DataImage(m.core.medium, l), b, next, b - next, next);
    DecryptCrashView(Cipher(cfg, m), DataImage(m.core.medium, l), b, next, b - next, b);
    SpliceNothing(View(cfg, m), next, DecArea(Cipher(cfg, m), next, View(cfg, m)[next..next]));
  }

  lemma SpliceNothing(s: seq<Sector>, at: nat, buf: seq<Sector>)
    requires at <= |s| && buf == []
    ensures Splice(s, at, buf) == s
  {
  }

  lemma DecryptFails(cfg: Config, c: Core, batch: nat, o: Outcome)
    requires c.WellFormed() && 0 < c.boundary <= c.Total() && (o.SaltFails? || o.StoreStops?)
    requires var next := c.boundary - BatchCount(c.boundary, batch);
             c.medium.Readable(c.Off() + next, c.boundary - next)
    ensures var (c', v) := DecryptBatch(cfg, c, batch, o);
            && v == Failed && c'.mode == c.mode && c'.boundary == c.boundary - BatchCount(c.boundary, batch)
            && c'.store == c.store.(offset := c'.boundary)
  {
    hide WriteReplicas, SealedSector, DecArea, Layout.Off, Layout.Data, BatchCount;
  }

  // ---- writing in that window ----

  /** What a sector written on the cached boundary reads as under the engine's: plain where both agree, deciphered
      where only the engine counts it as ciphertext, enciphered where only the cache does. */
  function Mangled(c: SectorCipher, cached: nat, engine: nat, rel: nat, s: Sector): Sector {
    if rel < cached && rel >= engine then c.enc(rel, s)
    else if rel >= cached && rel < engine then c.dec(rel, s)
    else s
  }

  function MangledArea(c: SectorCipher, cached: nat, engine: nat, at: nat, buf: seq<Sector>): (r: seq<Sector>)
    ensures |r| == |buf|
  {
    seq(|buf|, i requires 0 <= i < |buf| => Mangled(c, cached, engine, at + i, buf[i]))
  }

  /** A user write while cache and engine disagree: under the engine's boundary, the one the next completed batch
      makes valid again, exactly the written sectors between the two boundaries come out wrong. */
  lemma StaleWrite(cfg: Config, m: Machine, lba: nat, data: seq<Sector>, k: nat)
    requires cfg.Lawful() && m.core.WellFormed() && InRange(m.core.store.layout, lba, |data|) && k <= |data|
    requires m.cached <= m.core.Total() && m.core.boundary <= m.core.Total()
    ensures var l, c, m' := m.core.store.layout, Cipher(cfg, m), Exec(cfg, m, Write(lba, data, k)).0;
            && m'.core.boundary == m.core.boundary && m'.cached == m.cached
            && ViewOf(c, DataImage(m'.core.medium, l), m.core.boundary)
               == Splice(ViewOf(c, DataImage(m.core.medium, l), m.core.boundary), lba - l.Off(),
                         MangledArea(c, m.cached, m.core.boundary, lba - l.Off(), data[..k]))
  {
    hide DriverEncrypt, DataImage, Layout.MetaLba, Mangled;
    var l, c := m.core.store.layout, Cipher(cfg, m);
    var g := GeometryOf(l, m.cached);
    var out := DriverEncrypt(c, g, lba, data);
    DriverPointwise(c, g, lba, data);
    DataRegionInside(l);
    DataWrite(m.core.medium, l, lba, out[..k]);
    forall i | 0 <= i < k
      ensures out[..k][i] == if lba - l.Off() + i < m.cached then c.enc(lba - l.Off() + i, data[..k][i])
                else data[..k][i]
    {
    }
    MangledView(c, DataImage(m.core.medium, l), m.cached, m.core.boundary, lba - l.Off(), out[..k], data[..k]);
  }

  lemma MangledView(c: SectorCipher, d: seq<Sector>, cached: nat, engine: nat, at: nat, out: seq<Sector>,
                    data: seq<Sector>)
    requires c.Valid() && |out| == |data| && at + |out| <= |d|
    requires forall i :: 0 <= i < |out| ==> out[i] == if at + i < cached then c.enc(at + i, data[i]) else data[i]
    ensures ViewOf(c, Splice(d, at, out), engine)
            == Splice(ViewOf(c, d, engine), at, MangledArea(c, cached, engine, at, data))
  {
    hide Splice;
    var mangled := MangledArea(c, cached, engine, at, data);
    var v, w := ViewOf(c, Splice(d, at, out), engine), Splice(ViewOf(c, d, engine), at, mangled);
    forall k | 0 <= k < |d|
      ensures v[k] == w[k]
    {
      SplicedAt(d, at, out, k);
      SplicedAt(ViewOf(c, d, engine), at, mangled, k);
      if at <= k < at + |out| {
        assert out[k - at] == if k < cached then c.enc(k, data[k - at]) else data[k - at];
      }
    }
  }
}
