/** The sweep ends, after exactly the number of batches its distance calls for. */
module Progress {
  import opened Arith
  import opened Bytes
  import opened Errors
  import opened Layout
  import opened Metadata
  import opened Sectors
  import opened Store
  import opened Durability
  import opened Sweep
  import opened Volume
  import opened Invariant
  import opened Transparency

  /** ceil(distance / max(batch, 1)). */
  function BatchesFor(distance: nat, batch: nat): nat {
    (distance + AtLeastOne(batch) - 1) / AtLeastOne(batch)
  }

  lemma CeilStep(distance: nat, b: nat)
    requires distance > b > 0
    ensures (distance + b - 1) / b == (distance - b + b - 1) / b + 1
  {
    var q, r := (distance - 1) / b, (distance - 1) % b;
    assert distance - 1 == q * b + r;
    Distribute(q, 1, b);
    Quotient(distance + b - 1, b, q + 1, r);
  }

  lemma CeilLast(distance: nat, b: nat)
    requires distance <= b && b > 0
    ensures (distance + b - 1) / b == if distance == 0 then 0 else 1
  {
    if distance == 0 {
      Quotient(b - 1, b, 0, b - 1);
    } else {
      Quotient(distance + b - 1, b, 1, distance - 1);
    }
  }

  /** One batch less for what one batch covers. */
  lemma BatchesStep(distance: nat, batch: nat)
    requires distance > 0
    ensures BatchesFor(distance, batch) == BatchesFor(distance - BatchCount(distance, batch), batch) + 1
    ensures BatchesFor(0, batch) == 0
  {
    var b := AtLeastOne(batch);
    CeilLast(0, b);
    if distance <= b {
      CeilLast(distance, b);
    } else {
      CeilStep(distance, b);
    }
  }

  function SweepSteps(batch: nat, salts: seq<Block>): (s: seq<Step>)
    ensures |s| == |salts|
  {
    seq(|salts|, i requires 0 <= i < |salts| => SweepOnce(batch, Completes(salts[i])))
  }

  /** Every data sector can be read. */
  predicate DataReadable(m: Machine)
    requires m.core.WellFormed()
  {
    m.core.medium.Readable(m.core.Off(), m.core.Total())
  }

  /** What sweep steps leave alone. */
  predicate SameVolume(m: Machine, m': Machine) {
    && m'.core.store.layout == m.core.store.layout && m'.core.medium.bad == m.core.medium.bad
    && |m'.core.medium.sectors| == |m.core.medium.sectors|
  }

  /** One successful encrypting batch. */
  lemma EncryptsOne(cfg: Config, m: Machine, batch: nat, salt: Block)
    requires m.core.WellFormed() && m.core.mode == Encrypting && m.core.boundary < m.core.Total() && DataReadable(m)
    ensures var m' := Exec(cfg, m, SweepOnce(batch, Completes(salt))).0;
            && SameVolume(m, m') && m'.core.Total() == m.core.Total()
            && m'.core.boundary == m'.cached == m.core.boundary + BatchCount(m.core.Total() - m.core.boundary, batch)
            && m'.core.mode == if m'.core.boundary == m.core.Total() then Idle else Encrypting
  {
    hide WriteReplicas, SealedSector, EncArea, Layout.Off, Layout.Data;
  }

  lemma DecryptsOne(cfg: Config, m: Machine, batch: nat, salt: Block)
    requires m.core.WellFormed() && m.core.mode == Decrypting && 0 < m.core.boundary <= m.core.Total()
             && DataReadable(m)
    ensures var m' := Exec(cfg, m, SweepOnce(batch, Completes(salt))).0;
            && SameVolume(m, m') && m'.core.Total() == m.core.Total()
            && m'.core.boundary == m'.cached == m.core.boundary - BatchCount(m.core.boundary, batch)
            && m'.core.mode == if m'.core.boundary == 0 then Idle else Decrypting
  {
    hide WriteReplicas, SealedSector, DecArea, Layout.Off, Layout.Data;
  }

  /** The encrypt sweep is Idle, at the end of the region, after exactly ceil((total - boundary) / batch)
      successful batches and not one earlier. */
  lemma {:induction false} EncryptTerminates(cfg: Config, m: Machine, batch: nat, salts: seq<Block>)
    requires m.core.WellFormed() && m.core.mode == Encrypting && m.core.boundary < m.core.Total() && DataReadable(m)
    requires |salts| <= BatchesFor(m.core.Total() - m.core.boundary, batch)
    ensures var m' := Run(cfg, m, SweepSteps(batch, salts)).0;
            && SameVolume(m, m')
            && if |salts| == BatchesFor(m.core.Total() - m.core.boundary, batch)
               then m'.core.mode == Idle && m'.core.boundary == m.core.Total()
               else m'.core.mode == Encrypting && m'.core.boundary < m.core.Total()
    decreases |salts|
  {
    hide Exec, Layout.Off, Layout.Data, BatchesFor, StoreState.HeaderMatches;
    BatchesStep(m.core.Total() - m.core.boundary, batch);
    if salts != [] {
      var steps := SweepSteps(batch, salts);
      EncryptsOne(cfg, m, batch, salts[0]);
      assert steps[1..] == SweepSteps(batch, salts[1..]);
      var m1 := Exec(cfg, m, steps[0]).0;
      if m1.core.boundary < m.core.Total() {
        EncryptTerminates(cfg, m1, batch, salts[1..]);
      }
    }
  }

  lemma {:induction false} DecryptTerminates(cfg: Config, m: Machine, batch: nat, salts: seq<Block>)
    requires m.core.WellFormed() && m.core.mode == Decrypting && 0 < m.core.boundary <= m.core.Total()
             && DataReadable(m)
    requires |salts| <= BatchesFor(m.core.boundary, batch)
    ensures var m' := Run(cfg, m, SweepSteps(batch, salts)).0;
            && SameVolume(m, m')
            && if |salts| == BatchesFor(m.core.boundary, batch)
               then m'.core.mode == Idle && m'.core.boundary == 0
               else m'.core.mode == Decrypting && m'.core.boundary > 0
    decreases |salts|
  {
    hide Exec, Layout.Off, Layout.Data, BatchesFor, StoreState.HeaderMatches;
    BatchesStep(m.core.boundary, batch);
    if salts != [] {
      var steps := SweepSteps(batch, salts);
      DecryptsOne(cfg, m, batch, salts[0]);
      assert steps[1..] == SweepSteps(batch, salts[1..]);
      var m1 := Exec(cfg, m, steps[0]).0;
      if m1.core.boundary > 0 {
        DecryptTerminates(cfg, m1, batch, salts[1..]);
      }
    }
  }

  lemma {:induction false} SweepsKeepView(cfg: Config, m: Machine, batch: nat, salts: seq<Block>)
    requires Inv(cfg, m)
    ensures var m' := Run(cfg, m, SweepSteps(batch, salts)).0;
            Inv(cfg, m') && View(cfg, m') == View(cfg, m)
    decreases |salts|
  {
    hide AllHold, StoreState.HeaderMatches, View, Exec;
    if salts != [] {
      var steps := SweepSteps(batch, salts);
      SweepRefines(cfg, m, batch, Completes(salts[0]));
      assert steps[1..] == SweepSteps(batch, salts[1..]);
      SweepsKeepView(cfg, Exec(cfg, m, steps[0]).0, batch, salts[1..]);
    }
  }

  lemma Started(cfg: Config, m: Machine, d: VolumeState, salt: Option<Block>, k: nat)
    requires m.core.WellFormed() && m.core.boundary == m.cached
    ensures var m' := Exec(cfg, m, StartSweep(d, salt, k)).0;
            && SameVolume(m, m') && m'.core.Total() == m.core.Total()
            && m'.core.boundary == m'.cached == m.cached && m'.core.mode == ModeFor(m.core, d)
  {
    hide WriteReplicas, SealedSector;
  }

  /** At either end of the region the view is the disk itself, or the disk is the view enciphered. */
  lemma EndViews(cfg: Config, m: Machine)
    requires Inv(cfg, m)
    ensures var d := DataImage(m.core.medium, m.core.store.layout);
            && (m.cached == 0 ==> View(cfg, m) == d)
            && (m.cached == m.core.Total() ==> EncArea(Cipher(cfg, m), 0, View(cfg, m)) == d)
  {
    hide AllHold, DataImage;
    assert Cipher(cfg, m).Valid();
    var d := DataImage(m.core.medium, m.core.store.layout);
    assert |d| == m.core.Total();
    if m.cached == m.core.Total() {
      var e := EncArea(Cipher(cfg, m), 0, View(cfg, m));
      forall rel | 0 <= rel < |d|
        ensures e[rel] == d[rel]
      {
        assert View(cfg, m)[rel] == Cipher(cfg, m).dec(rel, d[rel]);
      }
    }
  }

  /** Encrypting the whole volume and decrypting it again, in batches of any two sizes, restores the data
      region byte for byte; in between every sector is its plaintext enciphered once. */
  lemma FullCycleRestores(cfg: Config, m: Machine, batch: nat, batch': nat, salts: seq<Block>, salts': seq<Block>,
                          salt: Option<Block>, k: nat, salt': Option<Block>, k': nat)
    requires Inv(cfg, m) && m.core.boundary == 0 && DataReadable(m)
    requires |salts| == BatchesFor(m.core.Total(), batch) && |salts'| == BatchesFor(m.core.Total(), batch')
    ensures var on := Run(cfg, Exec(cfg, m, StartSweep(Encrypt, salt, k)).0, SweepSteps(batch, salts)).0;
            var off := Run(cfg, Exec(cfg, on, StartSweep(Decrypt, salt', k')).0, SweepSteps(batch', salts')).0;
            && on.core.mode == Idle && off.core.mode == Idle && off.core.boundary == 0
            && DataImage(on.core.medium, on.core.store.layout)
               == EncArea(Cipher(cfg, on), 0, DataImage(m.core.medium, m.core.store.layout))
            && DataImage(off.core.medium, off.core.store.layout) == DataImage(m.core.medium, m.core.store.layout)
  {
    hide AllHold, StoreState.HeaderMatches, Exec, DataImage, BatchesFor, Layout.Off, Layout.Data;
    var m1 := Exec(cfg, m, StartSweep(Encrypt, salt, k)).0;
    StartRefines(cfg, m, Encrypt, salt, k);
    Started(cfg, m, Encrypt, salt, k);
    EncryptTerminates(cfg, m1, batch, salts);
    SweepsKeepView(cfg, m1, batch, salts);
    var on := Run(cfg, m1, SweepSteps(batch, salts)).0;
    EndViews(cfg, m);
    EndViews(cfg, on);
    var m2 := Exec(cfg, on, StartSweep(Decrypt, salt', k')).0;
    StartRefines(cfg, on, Decrypt, salt', k');
    Started(cfg, on, Decrypt, salt', k');
    DecryptTerminates(cfg, m2, batch', salts');
    SweepsKeepView(cfg, m2, batch', salts');
    EndViews(cfg, Run(cfg, m2, SweepSteps(batch', salts')).0);
  }
}
