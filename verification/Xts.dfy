/** AES-XTS sector encryption: the sequential definition and the driver's 8-block batched loops. */
module Xts {
  import opened Bytes
  import opened Gf128

  /** One key pair. AES itself is abstract: `encrypt1`/`decrypt1` under the data key and
      `encrypt2` under the tweak key are arbitrary block functions. */
  datatype Cipher = Cipher(encrypt1: Block -> Block, decrypt1: Block -> Block, encrypt2: Block -> Block) {
    /** AES under the data key is a permutation and `decrypt1` inverts it. */
    ghost predicate Valid() {
      && (forall b: Block :: decrypt1(encrypt1(b)) == b)
      && (forall b: Block :: encrypt1(decrypt1(b)) == b)
    }
  }

  const BLOCK := 16
  const BATCH := 8

  // ---- the sequential definition (IEEE Std 1619-2007, sections 5.3 and 5.4, whole blocks only) ----

  function FirstTweak(c: Cipher, rel: nat): Block {
    c.encrypt2(LeBytes(rel, BLOCK))
  }

  function Whiten(f: Block -> Block, t: Block, p: Block): Block {
    Xor(f(Xor(p, t)), t)
  }

  /** Block after block, one tweak step each; bytes after the last whole block stay. */
  function Sequential(f: Block -> Block, t: Block, s: Bytes): (r: Bytes)
    ensures |r| == |s|
    decreases |s|
  {
    if |s| < BLOCK then s else Whiten(f, t, s[..BLOCK]) + Sequential(f, MulAlpha(t), s[BLOCK..])
  }

  function EncryptSector(c: Cipher, rel: nat, s: Bytes): Bytes {
    Sequential(c.encrypt1, FirstTweak(c, rel), s)
  }

  function DecryptSector(c: Cipher, rel: nat, s: Bytes): Bytes {
    Sequential(c.decrypt1, FirstTweak(c, rel), s)
  }

  /** The chunks of a buffer, each under its own consecutive sector number. */
  function Area(sector: (nat, Bytes) -> Bytes, first: nat, size: nat, s: Bytes): Bytes
    requires size > 0
    decreases |s|
  {
    if |s| <= size then
      if s == [] then [] else sector(first, s)
    else
      sector(first, s[..size]) + Area(sector, first + 1, size, s[size..])
  }

  function Encryptor(c: Cipher): (nat, Bytes) -> Bytes {
    (rel: nat, x: Bytes) => EncryptSector(c, rel, x)
  }

  function Decryptor(c: Cipher): (nat, Bytes) -> Bytes {
    (rel: nat, x: Bytes) => DecryptSector(c, rel, x)
  }

  function EncryptArea(c: Cipher, first: nat, size: nat, s: Bytes): Bytes
    requires size > 0
  {
    Area(Encryptor(c), first, size, s)
  }

  function DecryptArea(c: Cipher, first: nat, size: nat, s: Bytes): Bytes
    requires size > 0
  {
    Area(Decryptor(c), first, size, s)
  }

  // ---- decryption inverts encryption ----

  lemma WhitenInverse(f: Block -> Block, g: Block -> Block, t: Block, p: Block)
    requires forall b: Block :: g(f(b)) == b
    ensures Whiten(g, t, Whiten(f, t, p)) == p
  {
    XorCancels(f(Xor(p, t)), t);
    XorCancels(p, t);
  }

  lemma {:induction false} SequentialInverse(f: Block -> Block, g: Block -> Block, t: Block, s: Bytes)
    requires forall b: Block :: g(f(b)) == b
    ensures Sequential(g, t, Sequential(f, t, s)) == s
    decreases |s|
  {
    hide Whiten, MulAlpha;
    if |s| >= BLOCK {
      var r := Sequential(f, t, s);
      assert r[..BLOCK] == Whiten(f, t, s[..BLOCK]) && r[BLOCK..] == Sequential(f, MulAlpha(t), s[BLOCK..]);
      WhitenInverse(f, g, t, s[..BLOCK]);
      SequentialInverse(f, g, MulAlpha(t), s[BLOCK..]);
    }
  }

  /** Under any sector number, and for buffers of any length. */
  lemma SectorInverse(c: Cipher, rel: nat, s: Bytes)
    requires c.Valid()
    ensures DecryptSector(c, rel, EncryptSector(c, rel, s)) == s
    ensures EncryptSector(c, rel, DecryptSector(c, rel, s)) == s
  {
    SequentialInverse(c.encrypt1, c.decrypt1, FirstTweak(c, rel), s);
    SequentialInverse(c.decrypt1, c.encrypt1, FirstTweak(c, rel), s);
  }

  lemma {:induction false} AreaInverse(f: (nat, Bytes) -> Bytes, g: (nat, Bytes) -> Bytes, first: nat, size: nat,
                                       s: Bytes)
    requires size > 0
    requires forall rel, x :: |f(rel, x)| == |x| && g(rel, f(rel, x)) == x
    ensures |Area(f, first, size, s)| == |s|
    ensures Area(g, first, size, Area(f, first, size, s)) == s
    decreases |s|
  {
    if |s| > size {
      AreaInverse(f, g, first + 1, size, s[size..]);
      var r := Area(f, first, size, s);
      assert r[..size] == f(first, s[..size]) && r[size..] == Area(f, first + 1, size, s[size..]);
    }
  }

  /** `decrypt_area` undoes `encrypt_area` and the other way round, for every buffer. */
  lemma DecryptAreaInvertsEncryptArea(c: Cipher, first: nat, size: nat, s: Bytes)
    requires c.Valid() && size > 0
    ensures DecryptArea(c, first, size, EncryptArea(c, first, size, s)) == s
    ensures EncryptArea(c, first, size, DecryptArea(c, first, size, s)) == s
  {
    hide EncryptSector, DecryptSector;
    forall rel, x
      ensures DecryptSector(c, rel, EncryptSector(c, rel, x)) == x
      ensures EncryptSector(c, rel, DecryptSector(c, rel, x)) == x
      ensures |EncryptSector(c, rel, x)| == |x| && |DecryptSector(c, rel, x)| == |x|
    {
      SectorInverse(c, rel, x);
      SectorLength(c, rel, x);
    }
    AreaInverse(Encryptor(c), Decryptor(c), first, size, s);
    AreaInverse(Decryptor(c), Encryptor(c), first, size, s);
  }

  lemma SectorLength(c: Cipher, rel: nat, x: Bytes)
    ensures |EncryptSector(c, rel, x)| == |x| && |DecryptSector(c, rel, x)| == |x|
  {
  }

  /** An area may be processed in two parts, cut at any sector boundary. */
  lemma {:induction false} AreaSplits(f: (nat, Bytes) -> Bytes, first: nat, size: nat, n: nat, a: Bytes, b: Bytes)
    requires size > 0 && |a| == n * size
    ensures Area(f, first, size, a + b) == Area(f, first, size, a) + Area(f, first + n, size, b)
    decreases n
  {
    if n == 0 {
      assert a + b == b;
    } else {
      assert n * size == (n - 1) * size + size;
      var a' := a[size..];
      AreaSplits(f, first + 1, size, n - 1, a', b);
      assert (a + b)[..size] == a[..size] && (a + b)[size..] == a' + b;
      if b == [] {
        assert a + b == a && a' + b == a';
      } else if n == 1 {
        assert a' == [] && a[..size] == a;
        assert a' + b == b;
      }
    }
  }

  // ---- the driver's loops ----

  function Advance(t: Block, i: nat): Block {
    if i == 0 then t else MulAlpha(Advance(t, i - 1))
  }

  lemma {:induction false} AdvanceAdds(t: Block, i: nat, j: nat)
    ensures Advance(Advance(t, i), j) == Advance(t, i + j)
  {
    hide MulAlpha;
    if j > 0 {
      AdvanceAdds(t, i, j - 1);
    }
  }

  /** Whole blocks whitened independently, each under its own power of alpha, are the sequential result. */
  lemma {:induction false} IndependentBlocks(f: Block -> Block, t: Block, s: Bytes, r: Bytes, n: nat)
    requires |s| == |r| == BLOCK * n
    requires forall i :: 0 <= i < n ==>
                           Get(r, BLOCK * i, BLOCK) == Whiten(f, Advance(t, i), Get(s, BLOCK * i, BLOCK))
    ensures r == Sequential(f, t, s)
    decreases n
  {
    hide Whiten, MulAlpha;
    if n > 0 {
      var s', r' := s[BLOCK..], r[BLOCK..];
      forall i | 0 <= i < n - 1
        ensures Get(r', BLOCK * i, BLOCK) == Whiten(f, Advance(MulAlpha(t), i), Get(s', BLOCK * i, BLOCK))
      {
        assert Get(r', BLOCK * i, BLOCK) == Get(r, BLOCK * (i + 1), BLOCK);
        assert Get(s', BLOCK * i, BLOCK) == Get(s, BLOCK * (i + 1), BLOCK);
        AdvanceAdds(t, 1, i);
        assert Advance(t, 1) == MulAlpha(t);
      }
      IndependentBlocks(f, MulAlpha(t), s', r', n - 1);
      assert Get(r, BLOCK * 0, BLOCK) == r[..BLOCK] && Get(s, BLOCK * 0, BLOCK) == s[..BLOCK];
      assert r == r[..BLOCK] + r';
    }
  }

  lemma {:induction false} SequentialSplits(f: Block -> Block, t: Block, n: nat, a: Bytes, b: Bytes)
    requires |a| == BLOCK * n
    ensures Sequential(f, t, a + b) == Sequential(f, t, a) + Sequential(f, Advance(t, n), b)
    decreases n
  {
    hide Whiten, MulAlpha;
    if n == 0 {
      assert a + b == b;
    } else {
      SequentialSplits(f, MulAlpha(t), n - 1, a[BLOCK..], b);
      AdvanceAdds(t, 1, n - 1);
      assert Advance(t, 1) == MulAlpha(t);
      assert (a + b)[..BLOCK] == a[..BLOCK] && (a + b)[BLOCK..] == a[BLOCK..] + b;
    }
  }

  /** `ts[i] = tw * alpha^i`, and the tweak after the batch. */
  method Tweaks(tw: Block) returns (ts: array<Block>, next: Block)
    ensures fresh(ts) && ts.Length == BATCH
    ensures forall j :: 0 <= j < BATCH ==> ts[j] == Advance(tw, j)
    ensures next == Advance(tw, BATCH)
  {
    hide MulAlpha;
    ts := new Block[BATCH];
    ts[0] := tw;
    for i := 1 to BATCH
      invariant forall j :: 0 <= j < i ==> ts[j] == Advance(tw, j)
    {
      ts[i] := MulAlpha(ts[i - 1]);
    }
    next := MulAlpha(ts[BATCH - 1]);
  }

  /** The xors with the tweaks, then the eight independent AES calls. */
  method Gather(f: Block -> Block, s: Bytes, ts: array<Block>) returns (batch: array<Block>)
    requires |s| == BATCH * BLOCK && ts.Length == BATCH
    ensures fresh(batch) && batch.Length == BATCH
    ensures forall j :: 0 <= j < BATCH ==> batch[j] == f(Xor(Get(s, BLOCK * j, BLOCK), ts[j]))
  {
    hide Xor;
    batch := new Block[BATCH];
    for i := 0 to BATCH
      invariant forall j :: 0 <= j < i ==> batch[j] == Xor(Get(s, BLOCK * j, BLOCK), ts[j])
    {
      batch[i] := Xor(Get(s, BLOCK * i, BLOCK), ts[i]);
    }
    for i := 0 to BATCH
      invariant forall j :: 0 <= j < BATCH ==>
                              var w := Xor(Get(s, BLOCK * j, BLOCK), ts[j]); batch[j] == if j < i then f(w) else w
    {
      batch[i] := f(batch[i]);
    }
  }

  /** Eight blocks at once: all tweaks first, then all whitenings, then all AES calls. */
  method Batch(f: Block -> Block, tw: Block, buf: array<bv8>, at: nat) returns (next: Block)
    requires at + BATCH * BLOCK <= buf.Length
    modifies buf
    ensures next == Advance(tw, BATCH)
    ensures buf[at..at + BATCH * BLOCK] == Sequential(f, tw, old(buf[at..at + BATCH * BLOCK]))
    ensures forall k :: 0 <= k < buf.Length && !(at <= k < at + BATCH * BLOCK) ==> buf[k] == old(buf[k])
  {
    hide Sequential, MulAlpha, Whiten, Advance;
    var ts;
    ts, next := Tweaks(tw);
    var s := buf[at..at + BATCH * BLOCK];
    var batch := Gather(f, s, ts);
    WriteBack(f, tw, buf, at, s, ts, batch);
    IndependentBlocks(f, tw, s, buf[at..at + BATCH * BLOCK], BATCH);
  }

  method WriteBack(f: Block -> Block, ghost tw: Block, buf: array<bv8>, at: nat, ghost s: Bytes,
                   ts: array<Block>, batch: array<Block>)
    requires at + BATCH * BLOCK <= buf.Length && |s| == BATCH * BLOCK
    requires ts.Length == BATCH && batch.Length == BATCH
    requires forall j :: 0 <= j < BATCH ==> ts[j] == Advance(tw, j)
    requires forall j :: 0 <= j < BATCH ==> batch[j] == f(Xor(Get(s, BLOCK * j, BLOCK), ts[j]))
    modifies buf
    ensures forall i :: 0 <= i < BATCH ==>
                          Get(buf[at..at + BATCH * BLOCK], BLOCK * i, BLOCK)
                          == Whiten(f, Advance(tw, i), Get(s, BLOCK * i, BLOCK))
    ensures forall k :: 0 <= k < buf.Length && !(at <= k < at + BATCH * BLOCK) ==> buf[k] == old(buf[k])
  {
    hide MulAlpha, Put, Whiten, Written, Kept;
    ghost var was := buf[..];
    NothingWritten(f, tw, s, at, was);
    for i := 0 to BATCH
      invariant Written(f, tw, s, at, buf[..], i) && Kept(was, buf[..], at)
    {
      ghost var cur := buf[..];
      ghost var w := Whiten(f, Advance(tw, i), Get(s, BLOCK * i, BLOCK));
      assert Xor(batch[i], ts[i]) == w by { Whitened(f, Advance(tw, i), Get(s, BLOCK * i, BLOCK)); }
      CopyInto(buf, Field(at + BLOCK * i, Xor(batch[i], ts[i])));
      WriteOne(f, tw, s, at, was, cur, i, Xor(batch[i], ts[i]));
    }
    AllWritten(f, tw, s, at, was, buf[..]);
    assert buf[at..at + BATCH * BLOCK] == buf[..][at..at + BATCH * BLOCK];
  }

  lemma Whitened(f: Block -> Block, t: Block, b: Block)
    ensures Whiten(f, t, b) == Xor(f(Xor(b, t)), t)
  {
  }

  /** The first `i` blocks from `at` on have been written back. */
  ghost predicate Written(f: Block -> Block, tw: Block, s: Bytes, at: nat, cur: Bytes, i: nat)
    requires |s| == BATCH * BLOCK && at + BATCH * BLOCK <= |cur| && i <= BATCH
  {
    forall j :: 0 <= j < i ==> Get(cur, at + BLOCK * j, BLOCK) == Whiten(f, Advance(tw, j), Get(s, BLOCK * j, BLOCK))
  }

  ghost predicate Kept(was: Bytes, cur: Bytes, at: nat) {
    |was| == |cur| && forall k :: 0 <= k < |was| && !(at <= k < at + BATCH * BLOCK) ==> cur[k] == was[k]
  }

  lemma NothingWritten(f: Block -> Block, tw: Block, s: Bytes, at: nat, cur: Bytes)
    requires |s| == BATCH * BLOCK && at + BATCH * BLOCK <= |cur|
    ensures Written(f, tw, s, at, cur, 0) && Kept(cur, cur, at)
  {
  }

  lemma WriteOne(f: Block -> Block, tw: Block, s: Bytes, at: nat, was: Bytes, cur: Bytes, i: nat, w: Block)
    requires |s| == BATCH * BLOCK && at + BATCH * BLOCK <= |cur| && i < BATCH
    requires Written(f, tw, s, at, cur, i) && Kept(was, cur, at)
             && w == Whiten(f, Advance(tw, i), Get(s, BLOCK * i, BLOCK))
    ensures var now := Put(cur, Field(at + BLOCK * i, w)); Written(f, tw, s, at, now, i + 1) && Kept(was, now, at)
  {
    hide Whiten, Advance;
    var now := Put(cur, Field(at + BLOCK * i, w));
    forall j | 0 <= j < i
      ensures Get(now, at + BLOCK * j, BLOCK) == Get(cur, at + BLOCK * j, BLOCK)
    {
      PutElsewhere(cur, Field(at + BLOCK * i, w), at + BLOCK * j, BLOCK);
    }
    assert Get(now, at + BLOCK * i, BLOCK) == w;
  }

  lemma PutElsewhere(b: Bytes, f: Field, off: nat, n: nat)
    requires f.End() <= |b| && off + n <= |b| && f.Apart(off, n)
    ensures Get(Put(b, f), off, n) == Get(b, off, n)
  {
  }

  lemma AllWritten(f: Block -> Block, tw: Block, s: Bytes, at: nat, was: Bytes, cur: Bytes)
    requires |s| == BATCH * BLOCK && at + BATCH * BLOCK <= |cur| && Written(f, tw, s, at, cur, BATCH)
             && Kept(was, cur, at)
    ensures forall i :: 0 <= i < BATCH ==>
                          Get(cur[at..at + BATCH * BLOCK], BLOCK * i, BLOCK)
                          == Whiten(f, Advance(tw, i), Get(s, BLOCK * i, BLOCK))
    ensures forall k :: 0 <= k < |was| && !(at <= k < at + BATCH * BLOCK) ==> cur[k] == was[k]
  {
    hide Whiten, Advance;
    forall i | 0 <= i < BATCH
      ensures Get(cur[at..at + BATCH * BLOCK], BLOCK * i, BLOCK) == Get(cur, at + BLOCK * i, BLOCK)
    {
      GetWithin(cur, at, BATCH * BLOCK, BLOCK * i, BLOCK);
    }
  }

  lemma GetWithin(b: Bytes, at: nat, len: nat, off: nat, n: nat)
    requires at + len <= |b| && off + n <= len
    ensures Get(b[at..at + len], off, n) == Get(b, at + off, n)
  {
    var x, y := Get(b[at..at + len], off, n), Get(b, at + off, n);
    forall k | 0 <= k < n
      ensures x[k] == y[k]
    {
      assert b[at..at + len][off + k] == b[at + (off + k)];
    }
  }

  /** `cur` is `s` with its first `off` blocks done, and `tw` is the tweak of the next block. */
  ghost predicate Progress(f: Block -> Block, first: Block, s: Bytes, tw: Block, cur: Bytes, off: nat) {
    && |cur| == |s| && BLOCK * off <= |s|
    && tw == Advance(first, off)
    && cur[BLOCK * off..] == s[BLOCK * off..]
    && Sequential(f, first, s) == cur[..BLOCK * off] + Sequential(f, tw, s[BLOCK * off..])
  }

  lemma ProgressStep(f: Block -> Block, first: Block, s: Bytes, tw: Block, cur: Bytes, off: nat, k: nat, now: Bytes)
    requires Progress(f, first, s, tw, cur, off) && BLOCK * (off + k) <= |s| == |now|
    requires now[..BLOCK * off] == cur[..BLOCK * off]
    requires now[BLOCK * off..BLOCK * (off + k)] == Sequential(f, tw, cur[BLOCK * off..BLOCK * (off + k)])
    requires now[BLOCK * (off + k)..] == cur[BLOCK * (off + k)..]
    ensures Progress(f, first, s, Advance(tw, k), now, off + k)
  {
    hide Sequential, MulAlpha;
    var rest := s[BLOCK * off..];
    var mid := rest[..BLOCK * k];
    assert cur[BLOCK * off..BLOCK * (off + k)] == cur[BLOCK * off..][..BLOCK * k] == mid;
    assert rest == mid + rest[BLOCK * k..] && rest[BLOCK * k..] == s[BLOCK * (off + k)..];
    SequentialSplits(f, tw, k, mid, rest[BLOCK * k..]);
    AdvanceAdds(first, off, k);
    assert now[..BLOCK * (off + k)] == now[..BLOCK * off] + now[BLOCK * off..BLOCK * (off + k)];
    assert cur[BLOCK * (off + k)..] == cur[BLOCK * off..][BLOCK * k..];
  }

  lemma OneBlock(f: Block -> Block, t: Block, p: Block)
    ensures Sequential(f, t, p) == Whiten(f, t, p)
  {
    hide Whiten, MulAlpha;
    assert p[..BLOCK] == p;
  }

  method BatchStep(f: Block -> Block, ghost first: Block, ghost s: Bytes, tw: Block,
                   buf: array<bv8>, lo: nat, hi: nat, off: nat) returns (next: Block)
    requires lo <= hi <= buf.Length && BLOCK * (off + BATCH) <= hi - lo == |s|
    requires Progress(f, first, s, tw, buf[lo..hi], off)
    modifies buf
    ensures Progress(f, first, s, next, buf[lo..hi], off + BATCH)
    ensures forall k :: 0 <= k < buf.Length && !(lo <= k < hi) ==> buf[k] == old(buf[k])
  {
    hide Sequential, MulAlpha, Whiten, Advance, Progress;
    ghost var was := buf[..];
    next := Batch(f, tw, buf, lo + BLOCK * off);
    SameWindows(was, buf[..], lo, hi, BLOCK * off, BLOCK * (off + BATCH));
    ProgressStep(f, first, s, tw, was[lo..hi], off, BATCH, buf[..][lo..hi]);
  }

  method TailStep(f: Block -> Block, ghost first: Block, ghost s: Bytes, tw: Block,
                  buf: array<bv8>, lo: nat, hi: nat, off: nat) returns (next: Block)
    requires lo <= hi <= buf.Length && BLOCK * (off + 1) <= hi - lo == |s|
    requires Progress(f, first, s, tw, buf[lo..hi], off)
    modifies buf
    ensures next == MulAlpha(tw) && Progress(f, first, s, next, buf[lo..hi], off + 1)
    ensures forall k :: 0 <= k < buf.Length && !(lo <= k < hi) ==> buf[k] == old(buf[k])
  {
    hide Sequential, MulAlpha, Whiten, Progress;
    ghost var was := buf[..];
    ScalarStep(f, tw, buf, lo + BLOCK * off);
    SameWindows(was, buf[..], lo, hi, BLOCK * off, BLOCK * (off + 1));
    ProgressStep(f, first, s, tw, was[lo..hi], off, 1, buf[..][lo..hi]);
    next := MulAlpha(tw);
    assert Advance(tw, 1) == next;
  }

  /** `encrypt_sector_inner` / `decrypt_sector_inner` on `buf[lo..hi]`: batches of 8, then a scalar tail. */
  method SectorInner(f: Block -> Block, first: Block, buf: array<bv8>, lo: nat, hi: nat)
    requires lo <= hi <= buf.Length
    modifies buf
    ensures buf[lo..hi] == Sequential(f, first, old(buf[lo..hi]))
    ensures forall k :: 0 <= k < buf.Length && !(lo <= k < hi) ==> buf[k] == old(buf[k])
  {
    hide Sequential, MulAlpha, Whiten, Progress;
    ghost var s := buf[lo..hi];
    var n := (hi - lo) / BLOCK;
    var tw, off := first, 0;
    ProgressStart(f, first, s);
    while off + BATCH <= n
      invariant off <= n && Progress(f, first, s, tw, buf[lo..hi], off)
      invariant forall k :: 0 <= k < buf.Length && !(lo <= k < hi) ==> buf[k] == old(buf[k])
    {
      tw := BatchStep(f, first, s, tw, buf, lo, hi, off);
      off := off + BATCH;
    }
    while off < n
      invariant off <= n && Progress(f, first, s, tw, buf[lo..hi], off)
      invariant forall k :: 0 <= k < buf.Length && !(lo <= k < hi) ==> buf[k] == old(buf[k])
    {
      tw := TailStep(f, first, s, tw, buf, lo, hi, off);
      off := off + 1;
    }
    ProgressEnd(f, first, s, tw, buf[lo..hi], off);
  }

  lemma ProgressStart(f: Block -> Block, first: Block, s: Bytes)
    ensures Progress(f, first, s, first, s, 0)
  {
    assert s[0..] == s;
  }

  lemma ProgressEnd(f: Block -> Block, first: Block, s: Bytes, tw: Block, cur: Bytes, off: nat)
    requires Progress(f, first, s, tw, cur, off) && |s| < BLOCK * (off + 1)
    ensures cur == Sequential(f, first, s)
  {
    ShortTail(f, tw, s[BLOCK * off..]);
    assert cur == cur[..BLOCK * off] + cur[BLOCK * off..];
  }

  /** A change confined to `[lo + x, lo + y)` seen through the window `[lo, hi)`. */
  lemma SameWindows(was: Bytes, now: Bytes, lo: nat, hi: nat, x: nat, y: nat)
    requires x <= y && lo + y <= hi <= |was| == |now|
    requires forall k :: 0 <= k < |was| && !(lo + x <= k < lo + y) ==> now[k] == was[k]
    ensures now[lo..hi][..x] == was[lo..hi][..x] && now[lo..hi][y..] == was[lo..hi][y..]
    ensures now[lo..hi][x..y] == now[lo + x..lo + y] && was[lo..hi][x..y] == was[lo + x..lo + y]
  {
    Window(now, lo, hi, x, y);
    Window(was, lo, hi, x, y);
  }

  lemma Window(b: Bytes, lo: nat, hi: nat, x: nat, y: nat)
    requires x <= y && lo + y <= hi <= |b|
    ensures b[lo..hi][x..y] == b[lo + x..lo + y]
  {
    forall k | 0 <= k < y - x
      ensures b[lo..hi][x..y][k] == b[lo + x..lo + y][k]
    {
    }
  }

  lemma ShortTail(f: Block -> Block, t: Block, s: Bytes)
    requires |s| < BLOCK
    ensures Sequential(f, t, s) == s
  {
  }

  /** One block of the scalar tail: xor the tweak, AES, xor the tweak. */
  method ScalarStep(f: Block -> Block, tw: Block, buf: array<bv8>, at: nat)
    requires at + BLOCK <= buf.Length
    modifies buf
    ensures buf[at..at + BLOCK] == Sequential(f, tw, old(buf[at..at + BLOCK]))
    ensures forall k :: 0 <= k < buf.Length && !(at <= k < at + BLOCK) ==> buf[k] == old(buf[k])
  {
    hide Sequential, MulAlpha;
    OneBlock(f, tw, buf[at..at + BLOCK]);
    CopyInto(buf, Field(at, Xor(buf[at..at + BLOCK], tw)));
    CopyInto(buf, Field(at, f(buf[at..at + BLOCK])));
    CopyInto(buf, Field(at, Xor(buf[at..at + BLOCK], tw)));
  }

  method EncryptSectorInPlace(c: Cipher, rel: nat, buf: array<bv8>, lo: nat, hi: nat)
    requires lo <= hi <= buf.Length
    modifies buf
    ensures buf[lo..hi] == EncryptSector(c, rel, old(buf[lo..hi]))
    ensures forall k :: 0 <= k < buf.Length && !(lo <= k < hi) ==> buf[k] == old(buf[k])
  {
    hide Sequential, MulAlpha;
    SectorInner(c.encrypt1, FirstTweak(c, rel), buf, lo, hi);
  }

  method DecryptSectorInPlace(c: Cipher, rel: nat, buf: array<bv8>, lo: nat, hi: nat)
    requires lo <= hi <= buf.Length
    modifies buf
    ensures buf[lo..hi] == DecryptSector(c, rel, old(buf[lo..hi]))
    ensures forall k :: 0 <= k < buf.Length && !(lo <= k < hi) ==> buf[k] == old(buf[k])
  {
    hide Sequential, MulAlpha;
    SectorInner(c.decrypt1, FirstTweak(c, rel), buf, lo, hi);
  }

  /** `cur` is `s` with its first `si` chunks, `at` bytes, done. */
  ghost predicate AreaProgress(f: (nat, Bytes) -> Bytes, first: nat, size: nat, s: Bytes, cur: Bytes, si: nat, at: nat)
    requires size > 0
  {
    && |cur| == |s| && at <= |s|
    && cur[at..] == s[at..]
    && Area(f, first, size, s) == cur[..at] + Area(f, first + si, size, s[at..])
  }

  lemma AreaStart(f: (nat, Bytes) -> Bytes, first: nat, size: nat, s: Bytes)
    requires size > 0
    ensures AreaProgress(f, first, size, s, s, 0, 0)
  {
    assert s[0..] == s;
  }

  lemma AreaEnd(f: (nat, Bytes) -> Bytes, first: nat, size: nat, s: Bytes, cur: Bytes, si: nat)
    requires size > 0 && AreaProgress(f, first, size, s, cur, si, |s|)
    ensures cur == Area(f, first, size, s)
  {
    assert s[|s|..] == [] && cur[..|s|] == cur;
  }

  lemma AreaProgressStep(f: (nat, Bytes) -> Bytes, first: nat, size: nat, s: Bytes, cur: Bytes, si: nat, at: nat,
                         end: nat, now: Bytes)
    requires size > 0 && AreaProgress(f, first, size, s, cur, si, at)
    requires at < |s| == |now| && end == (if at + size < |s| then at + size else |s|)
    requires now[at..end] == f(first + si, cur[at..end])
    requires forall k :: 0 <= k < |s| && !(at <= k < end) ==> now[k] == cur[k]
    ensures AreaProgress(f, first, size, s, now, si + 1, end)
  {
    var rest := s[at..];
    AreaStep(f, first + si, size, rest, end - at);
    assert cur[at..end] == cur[at..][..end - at] && rest[end - at..] == s[end..];
    assert now[..end] == cur[..at] + now[at..end];
    assert now[end..] == cur[at..][end - at..];
  }

  /** One chunk: `size` bytes, or what is left of the buffer. */
  lemma AreaStep(f: (nat, Bytes) -> Bytes, first: nat, size: nat, s: Bytes, n: nat)
    requires size > 0 && s != [] && n == if size < |s| then size else |s|
    ensures Area(f, first, size, s) == f(first, s[..n]) + Area(f, first + 1, size, s[n..])
  {
    if n == |s| {
      assert s[..n] == s && s[n..] == [];
    }
  }

  method EncryptAreaInPlace(c: Cipher, buf: array<bv8>, size: nat, first: nat)
    requires size > 0
    modifies buf
    ensures buf[..] == EncryptArea(c, first, size, old(buf[..]))
  {
    hide EncryptSector;
    ghost var s := buf[..];
    var si, at := 0, 0;
    AreaStart(Encryptor(c), first, size, s);
    while at < buf.Length
      invariant AreaProgress(Encryptor(c), first, size, s, buf[..], si, at)
    {
      var end := if at + size < buf.Length then at + size else buf.Length;
      ghost var cur := buf[..];
      EncryptSectorInPlace(c, first + si, buf, at, end);
      AreaProgressStep(Encryptor(c), first, size, s, cur, si, at, end, buf[..]);
      si, at := si + 1, end;
    }
    AreaEnd(Encryptor(c), first, size, s, buf[..], si);
  }

  method DecryptAreaInPlace(c: Cipher, buf: array<bv8>, size: nat, first: nat)
    requires size > 0
    modifies buf
    ensures buf[..] == DecryptArea(c, first, size, old(buf[..]))
  {
    hide DecryptSector;
    ghost var s := buf[..];
    var si, at := 0, 0;
    AreaStart(Decryptor(c), first, size, s);
    while at < buf.Length
      invariant AreaProgress(Decryptor(c), first, size, s, buf[..], si, at)
    {
      var end := if at + size < buf.Length then at + size else buf.Length;
      ghost var cur := buf[..];
      DecryptSectorInPlace(c, first + si, buf, at, end);
      AreaProgressStep(Decryptor(c), first, size, s, cur, si, at, end, buf[..]);
      si, at := si + 1, end;
    }
    AreaEnd(Decryptor(c), first, size, s, buf[..], si);
  }
}
