/** Sectors, the per-sector volume cipher, and the storage medium. */
module Sectors {
  import opened Bytes
  import opened Errors
  import Xts

  type Sector = Bytes

  /** A `VolumeCipher`: a length-preserving permutation of sectors for every relative sector number. */
  datatype SectorCipher = SectorCipher(enc: (nat, Sector) -> Sector, dec: (nat, Sector) -> Sector) {
    ghost predicate Valid() {
      && (forall rel, s :: dec(rel, enc(rel, s)) == s && |enc(rel, s)| == |s|)
      && (forall rel, s :: enc(rel, dec(rel, s)) == s && |dec(rel, s)| == |s|)
    }
  }

  function EncArea(c: SectorCipher, first: nat, buf: seq<Sector>): (r: seq<Sector>)
    ensures |r| == |buf|
  {
    seq(|buf|, i requires 0 <= i < |buf| => c.enc(first + i, buf[i]))
  }

  function DecArea(c: SectorCipher, first: nat, buf: seq<Sector>): (r: seq<Sector>)
    ensures |r| == |buf|
  {
    seq(|buf|, i requires 0 <= i < |buf| => c.dec(first + i, buf[i]))
  }

  /** In-place `encrypt_area` over the first `n` sectors of a buffer. */
  method EncryptArea(c: SectorCipher, buf: array<Sector>, n: nat, first: nat)
    requires n <= buf.Length
    modifies buf
    ensures buf[..] == EncArea(c, first, old(buf[..n])) + old(buf[n..])
  {
    for i := 0 to n
      invariant forall k :: 0 <= k < i ==> buf[k] == c.enc(first + k, old(buf[k]))
      invariant forall k :: i <= k < buf.Length ==> buf[k] == old(buf[k])
    {
      buf[i] := c.enc(first + i, buf[i]);
    }
  }

  /** In-place `decrypt_area` over the first `n` sectors of a buffer. */
  method DecryptArea(c: SectorCipher, buf: array<Sector>, n: nat, first: nat)
    requires n <= buf.Length
    modifies buf
    ensures buf[..] == DecArea(c, first, old(buf[..n])) + old(buf[n..])
  {
    for i := 0 to n
      invariant forall k :: 0 <= k < i ==> buf[k] == c.dec(first + k, old(buf[k]))
      invariant forall k :: i <= k < buf.Length ==> buf[k] == old(buf[k])
    {
      buf[i] := c.dec(first + i, buf[i]);
    }
  }

  // ---- AES-XTS is such a cipher, and its byte-level area is the sector-level one ----

  function XtsVolumeCipher(c: Xts.Cipher): SectorCipher {
    SectorCipher(Xts.Encryptor(c), Xts.Decryptor(c))
  }

  lemma XtsVolumeCipherValid(c: Xts.Cipher)
    requires c.Valid()
    ensures XtsVolumeCipher(c).Valid()
  {
    hide Xts.EncryptSector, Xts.DecryptSector;
    forall rel: nat, s: Sector
      ensures Xts.DecryptSector(c, rel, Xts.EncryptSector(c, rel, s)) == s
      ensures Xts.EncryptSector(c, rel, Xts.DecryptSector(c, rel, s)) == s
      ensures |Xts.EncryptSector(c, rel, s)| == |Xts.DecryptSector(c, rel, s)| == |s|
    {
      Xts.SectorInverse(c, rel, s);
      Xts.SectorLength(c, rel, s);
    }
  }

  function Flatten(buf: seq<Sector>): Bytes {
    if buf == [] then [] else buf[0] + Flatten(buf[1..])
  }

  /** Processing a contiguous byte buffer chunk by chunk is processing its sectors one by one. */
  lemma {:induction false} AreaOfSectors(c: SectorCipher, first: nat, size: nat, buf: seq<Sector>)
    requires size > 0 && forall i :: 0 <= i < |buf| ==> |buf[i]| == size
    ensures Xts.Area(c.enc, first, size, Flatten(buf)) == Flatten(EncArea(c, first, buf))
    ensures Xts.Area(c.dec, first, size, Flatten(buf)) == Flatten(DecArea(c, first, buf))
    decreases |buf|
  {
    if buf != [] {
      AreaOfSectors(c, first + 1, size, buf[1..]);
      assert EncArea(c, first, buf)[1..] == EncArea(c, first + 1, buf[1..]);
      assert DecArea(c, first, buf)[1..] == DecArea(c, first + 1, buf[1..]);
      var s := Flatten(buf);
      assert s[..size] == buf[0] && s[size..] == Flatten(buf[1..]);
      if |buf| == 1 {
        assert s == buf[0];
      } else {
        assert Flatten(buf[1..]) == buf[1] + Flatten(buf[1..][1..]);
      }
    }
  }

  // ---- the medium ----

  /** Raw sectors, with the set of sectors that cannot be read. */
  datatype Medium = Medium(sectors: seq<Sector>, bad: set<nat>) {
    predicate Readable(lba: nat, n: nat) {
      lba + n <= |sectors| && forall k :: lba <= k < lba + n ==> k !in bad
    }

    function Read(lba: nat, n: nat): (r: Option<seq<Sector>>)
      ensures r.Some? ==> |r.value| == n
    {
      if Readable(lba, n) then Some(sectors[lba..lba + n]) else None
    }

    predicate Fits(lba: nat, n: nat) { lba + n <= |sectors| }

    function Write(lba: nat, buf: seq<Sector>): (m: Medium)
      requires Fits(lba, |buf|)
      ensures |m.sectors| == |sectors| && m.bad == bad
      ensures forall k :: 0 <= k < |sectors| ==>
                            m.sectors[k] == if lba <= k < lba + |buf| then buf[k - lba] else sectors[k]
    {
      this.(sectors := sectors[..lba] + buf + sectors[lba + |buf|..])
    }

    /** A write that stopped after `k` sectors; a request beyond the end writes nothing. */
    function WriteUpTo(lba: nat, buf: seq<Sector>, k: nat): (m: Medium)
      ensures |m.sectors| == |sectors| && m.bad == bad
    {
      if k <= |buf| && Fits(lba, |buf|) then Write(lba, buf[..k]) else this
    }
  }

  lemma Slice<T>(s: seq<T>, at: nat, len: nat, rel: nat, n: nat)
    requires rel + n <= len && at + len <= |s|
    ensures s[at..at + len][rel..rel + n] == s[at + rel..at + rel + n]
  {
    var a, b := s[at..at + len][rel..rel + n], s[at + rel..at + rel + n];
    forall k | 0 <= k < n
      ensures a[k] == b[k]
    {
    }
  }

  lemma WriteNothing(m: Medium, lba: nat, buf: seq<Sector>)
    ensures m.WriteUpTo(lba, buf, 0) == m
  {
    if m.Fits(lba, |buf|) {
      assert m.Write(lba, buf[..0]).sectors == m.sectors;
    }
  }

  lemma WriteAll(m: Medium, lba: nat, buf: seq<Sector>)
    requires m.Fits(lba, |buf|)
    ensures m.WriteUpTo(lba, buf, |buf|) == m.Write(lba, buf)
  {
    assert buf[..|buf|] == buf;
  }

  /** What the device does to one write request: all of it, or a failure after `n` sectors if it gets that far. */
  datatype Fate = Goes | FailsAfter(n: nat)

  /** `SectorIo`: single-sector writes are atomic and reach the medium in order, but a request may fail anywhere.
      The device decides that beforehand, for the first request, the second, and so on. */
  class Disk {
    var medium: Medium
    var writes: nat
    const sectorSize: nat
    const fate: nat -> Fate

    constructor (m: Medium, size: nat, fate: nat -> Fate)
      ensures medium == m && sectorSize == size && this.fate == fate && writes == 0
    {
      medium, sectorSize, this.fate, writes := m, size, fate, 0;
    }

    /** No request from now on will fail. */
    ghost predicate NoFaultPending()
      reads this`writes
    {
      forall n: nat :: n >= writes ==> fate(n) == Goes
    }

    method ReadSectors(lba: nat, n: nat) returns (r: Option<seq<Sector>>)
      ensures r == medium.Read(lba, n)
    {
      r := medium.Read(lba, n);
    }

    /** `k` sectors reach the medium, as many as the device lets; the call succeeds exactly when all of them do. */
    method WriteSectors(lba: nat, buf: seq<Sector>) returns (ok: bool, k: nat)
      modifies this
      ensures k <= |buf| && medium == old(medium).WriteUpTo(lba, buf, k) && writes == old(writes) + 1
      ensures ok <==> (k == |buf| && old(medium).Fits(lba, |buf|))
      ensures !old(medium).Fits(lba, |buf|) ==> k == 0
      ensures old(medium).Fits(lba, |buf|) ==>
                match fate(old(writes))
                case Goes => k == |buf|
                case FailsAfter(n) => k == if n < |buf| then n else |buf|
    {
      if medium.Fits(lba, |buf|) {
        match fate(writes)
        case Goes => k := |buf|;
        case FailsAfter(n) => k := if n < |buf| then n else |buf|;
      } else {
        k := 0;
      }
      ok := k == |buf| && medium.Fits(lba, |buf|);
      medium := medium.WriteUpTo(lba, buf, k);
      writes := writes + 1;
    }
  }
}
