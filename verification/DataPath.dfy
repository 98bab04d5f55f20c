/** The two independent data paths over a half-encrypted volume: the driver's prefix arithmetic and the
    boot loader's per-sector branch; and the filter's request routing. */
module DataPath {
  import opened Arith
  import opened Errors
  import opened Sectors

  /** The data region and the ciphertext boundary inside it. */
  datatype Geometry = Geometry(off: nat, total: nat, boundary: nat) {
    predicate Encrypted(rel: nat) { rel < boundary }

    /** Absolute to relative; `None` in a header or footer region. */
    function Relative(lba: nat): Option<nat> {
      if lba < off || lba - off >= total then None else Some(lba - off)
    }
  }

  // ---- driver ----

  function CryptoRange(g: Geometry, firstLba: nat): Option<(nat, nat)> {
    match g.Relative(firstLba)
    case None => None
    case Some(rel) => if g.boundary > 0 && rel < g.boundary then Some((rel, g.boundary)) else None
  }

  function PrefixLength(first: nat, boundary: nat, total: nat): (n: nat)
    ensures n <= total
  {
    if boundary <= first then 0 else if boundary - first < total then boundary - first else total
  }

  function DecryptPrefix(c: SectorCipher, first: nat, boundary: nat, buf: seq<Sector>): seq<Sector> {
    var n := PrefixLength(first, boundary, |buf|);
    DecArea(c, first, buf[..n]) + buf[n..]
  }

  function EncryptPrefix(c: SectorCipher, first: nat, boundary: nat, buf: seq<Sector>): seq<Sector> {
    var n := PrefixLength(first, boundary, |buf|);
    EncArea(c, first, buf[..n]) + buf[n..]
  }

  function DriverDecrypt(c: SectorCipher, g: Geometry, lba: nat, buf: seq<Sector>): seq<Sector> {
    match CryptoRange(g, lba)
    case None => buf
    case Some((first, boundary)) => DecryptPrefix(c, first, boundary, buf)
  }

  function DriverEncrypt(c: SectorCipher, g: Geometry, lba: nat, buf: seq<Sector>): seq<Sector> {
    match CryptoRange(g, lba)
    case None => buf
    case Some((first, boundary)) => EncryptPrefix(c, first, boundary, buf)
  }

  /** `CryptoPipeline::decrypt_read`. */
  method DecryptRead(c: SectorCipher, first: nat, boundary: nat, buf: array<Sector>)
    modifies buf
    ensures buf[..] == DecryptPrefix(c, first, boundary, old(buf[..]))
  {
    var total := buf.Length;
    var n := 0;
    if boundary > first {
      n := if boundary - first < total then boundary - first else total;
    }
    assert buf[..n] == buf[..][..n] && buf[n..] == buf[..][n..];
    if n > 0 {
      DecryptArea(c, buf, n, first);
    }
  }

  /** `CryptoPipeline::encrypt_write`. */
  method EncryptWrite(c: SectorCipher, first: nat, boundary: nat, buf: array<Sector>)
    modifies buf
    ensures buf[..] == EncryptPrefix(c, first, boundary, old(buf[..]))
  {
    var total := buf.Length;
    var n := 0;
    if boundary > first {
      n := if boundary - first < total then boundary - first else total;
    }
    assert buf[..n] == buf[..][..n] && buf[n..] == buf[..][n..];
    if n > 0 {
      EncryptArea(c, buf, n, first);
    }
  }

  // ---- loader ----

  predicate LoaderDecides(g: Geometry, lba: nat) {
    lba >= g.off && lba - g.off < g.total && g.Encrypted(lba - g.off)
  }

  function LoaderDecrypt(c: SectorCipher, g: Geometry, lba: nat, buf: seq<Sector>): (r: seq<Sector>)
    ensures |r| == |buf|
  {
    seq(|buf|, i requires 0 <= i < |buf| =>
        if LoaderDecides(g, lba + i) then c.dec(lba + i - g.off, buf[i]) else buf[i])
  }

  function LoaderEncrypt(c: SectorCipher, g: Geometry, lba: nat, buf: seq<Sector>): (r: seq<Sector>)
    ensures |r| == |buf|
  {
    seq(|buf|, i requires 0 <= i < |buf| =>
        if LoaderDecides(g, lba + i) then c.enc(lba + i - g.off, buf[i]) else buf[i])
  }

  /** `decrypt_after_read`: decides sector by sector, skipping both metadata regions. */
  method DecryptAfterRead(c: SectorCipher, g: Geometry, lba: nat, buf: array<Sector>)
    modifies buf
    ensures buf[..] == LoaderDecrypt(c, g, lba, old(buf[..]))
  {
    for i := 0 to buf.Length
      invariant forall k :: 0 <= k < i ==>
                              buf[k] == if LoaderDecides(g, lba + k) then c.dec(lba + k - g.off, old(buf[k]))
                                  else old(buf[k])
      invariant forall k :: i <= k < buf.Length ==> buf[k] == old(buf[k])
    {
      var abs := lba + i;
      if abs < g.off {
        continue;
      }
      var rel := abs - g.off;
      if rel >= g.total {
        continue;
      }
      if g.Encrypted(rel) {
        buf[i] := c.dec(rel, buf[i]);
      }
    }
  }

  /** `encrypt_before_write`: encrypts a copy, the caller's buffer stays as it is. */
  method EncryptBeforeWrite(c: SectorCipher, g: Geometry, lba: nat, buf: seq<Sector>) returns (out: array<Sector>)
    ensures fresh(out) && out[..] == LoaderEncrypt(c, g, lba, buf)
  {
    out := new Sector[|buf|](i requires 0 <= i < |buf| => buf[i]);
    for i := 0 to out.Length
      invariant forall k :: 0 <= k < i ==>
                              out[k] == if LoaderDecides(g, lba + k) then c.enc(lba + k - g.off, buf[k]) else buf[k]
      invariant forall k :: i <= k < out.Length ==> out[k] == buf[k]
    {
      var abs := lba + i;
      if abs < g.off {
        continue;
      }
      var rel := abs - g.off;
      if rel >= g.total {
        continue;
      }
      if g.Encrypted(rel) {
        out[i] := c.enc(rel, out[i]);
      }
    }
  }

  // ---- agreement ----

  /** Whether the driver's arithmetic transforms sector `i` of a request at `lba`. */
  predicate DriverDecides(g: Geometry, lba: nat, i: nat) {
    g.Relative(lba).Some? && lba + i - g.off < g.boundary
  }

  /** A condition on the request alone: it does not cross into an encrypted region from a header, and a
      boundary beyond the region is not reached through the footer. */
  predicate SameDecisions(g: Geometry, lba: nat, n: nat) {
    && (lba < g.off ==> lba + n <= g.off || g.total == 0 || g.boundary == 0)
    && (g.Relative(lba).Some? && g.boundary > g.total ==> lba + n <= g.off + g.total)
  }

  lemma DecisionsAgree(g: Geometry, lba: nat, n: nat)
    ensures SameDecisions(g, lba, n) <==>
            forall i :: 0 <= i < n ==> (DriverDecides(g, lba, i) <==> LoaderDecides(g, lba + i))
  {
    if !SameDecisions(g, lba, n) {
      var i := if lba < g.off then g.off - lba else g.off + g.total - lba;
      assert 0 <= i < n && DriverDecides(g, lba, i) != LoaderDecides(g, lba + i);
    }
  }

  lemma DriverPointwise(c: SectorCipher, g: Geometry, lba: nat, buf: seq<Sector>)
    ensures |DriverDecrypt(c, g, lba, buf)| == |DriverEncrypt(c, g, lba, buf)| == |buf|
    ensures forall i :: 0 <= i < |buf| ==>
                          DriverDecrypt(c, g, lba, buf)[i] == if DriverDecides(g, lba, i)
                              then c.dec(lba + i - g.off, buf[i]) else buf[i]
    ensures forall i :: 0 <= i < |buf| ==>
                          DriverEncrypt(c, g, lba, buf)[i] == if DriverDecides(g, lba, i)
                              then c.enc(lba + i - g.off, buf[i]) else buf[i]
  {
  }

  /** Both paths give the same bytes, reading and writing, for every request meeting the condition. */
  lemma PathsAgree(c: SectorCipher, g: Geometry, lba: nat, buf: seq<Sector>)
    requires SameDecisions(g, lba, |buf|)
    ensures DriverDecrypt(c, g, lba, buf) == LoaderDecrypt(c, g, lba, buf)
    ensures DriverEncrypt(c, g, lba, buf) == LoaderEncrypt(c, g, lba, buf)
  {
    DriverPointwise(c, g, lba, buf);
    DecisionsAgree(g, lba, |buf|);
  }

  /** With the boundary inside the region, every request that starts at or after the region qualifies,
      also one that straddles the boundary or runs into the footer. */
  lemma AgreeFromDataRegionOn(g: Geometry, lba: nat, n: nat)
    requires g.boundary <= g.total && lba >= g.off
    ensures SameDecisions(g, lba, n)
  {
  }

  /** The condition is exact: for every request that misses it, some cipher makes the two paths differ. */
  lemma PathsDiffer(g: Geometry, lba: nat, buf: seq<Sector>)
    requires !SameDecisions(g, lba, |buf|) && forall i :: 0 <= i < |buf| ==> buf[i] != []
    ensures Complement().Valid()
    ensures DriverDecrypt(Complement(), g, lba, buf) != LoaderDecrypt(Complement(), g, lba, buf)
    ensures DriverEncrypt(Complement(), g, lba, buf) != LoaderEncrypt(Complement(), g, lba, buf)
  {
    hide SameDecisions, DriverDecides, LoaderDecides, DriverDecrypt, DriverEncrypt, Flip;
    DecisionsAgree(g, lba, |buf|);
    var i :| 0 <= i < |buf| && DriverDecides(g, lba, i) != LoaderDecides(g, lba + i);
    DriverPointwise(Complement(), g, lba, buf);
    ComplementChanges(buf[i]);
    ComplementValid();
    assert DriverDecrypt(Complement(), g, lba, buf)[i] != LoaderDecrypt(Complement(), g, lba, buf)[i];
    assert DriverEncrypt(Complement(), g, lba, buf)[i] != LoaderEncrypt(Complement(), g, lba, buf)[i];
  }

  /** A toy permutation that changes every non-empty sector. */
  function Flip(s: Sector): (r: Sector)
    ensures |r| == |s|
  {
    seq(|s|, i requires 0 <= i < |s| => !s[i])
  }

  function Complement(): SectorCipher {
    SectorCipher((rel, s) => Flip(s), (rel, s) => Flip(s))
  }

  lemma ComplementValid()
    ensures Complement().Valid()
  {
    forall s
      ensures Flip(Flip(s)) == s
    {
      forall i | 0 <= i < |s| ensures Flip(Flip(s))[i] == s[i] { NotNot(s[i]); }
    }
  }

  lemma NotNot(x: bv8)
    ensures !(!x) == x && !x != x
  {
  }

  lemma ComplementChanges(s: Sector)
    requires s != []
    ensures Flip(s) != s
  {
    NotNot(s[0]);
    assert Flip(s)[0] == !s[0];
  }

  /** Encrypting and then decrypting through either path is the identity, for every request. */
  lemma EitherPathRoundTrips(c: SectorCipher, g: Geometry, lba: nat, buf: seq<Sector>)
    requires c.Valid()
    ensures DriverDecrypt(c, g, lba, DriverEncrypt(c, g, lba, buf)) == buf
    ensures LoaderDecrypt(c, g, lba, LoaderEncrypt(c, g, lba, buf)) == buf
  {
    var d := DriverEncrypt(c, g, lba, buf);
    DriverPointwise(c, g, lba, buf);
    DriverPointwise(c, g, lba, d);
  }

  // ---- routing (READ/WRITE arms of the filter) ----

  datatype Route = Denied | Queued(firstLba: nat, count: nat)

  /** Shift by the header size, refuse user requests that start in a metadata region, queue the rest. */
  function RouteRequest(g: Geometry, sectorSize: nat, byteOffset: nat, length: nat, userMode: bool): Route
    requires sectorSize > 0
  {
    var shifted := byteOffset + g.off * sectorSize;
    if g.Relative(shifted / sectorSize).None? && userMode then Denied
    else Queued(shifted / sectorSize, length / sectorSize)
  }

  lemma ShiftDivides(off: nat, size: nat, x: nat)
    requires size > 0
    ensures (x + off * size) / size == off + x / size
  {
    Distribute(off, x / size, size);
    Quotient(x + off * size, size, off + x / size, x % size);
  }

  lemma FloorsInside(x: nat, y: nat, total: nat, size: nat)
    requires size > 0 && y > 0 && x + y <= total * size
    ensures x / size < total && x / size + y / size <= total
  {
    QuotientBounds(x, total, size);
    Distribute(x / size, y / size, size);
    Cancel(x / size + y / size, total, size);
  }

  /** Only user requests that start behind the data region are refused; all others go to the data region, shifted
      past the header. */
  lemma RouteExactly(g: Geometry, sectorSize: nat, byteOffset: nat, length: nat, userMode: bool)
    requires sectorSize > 0
    ensures var r := RouteRequest(g, sectorSize, byteOffset, length, userMode);
            && (r == Denied <==> userMode && g.total <= byteOffset / sectorSize)
            && (r != Denied ==> r == Queued(g.off + byteOffset / sectorSize, length / sectorSize))
  {
    ShiftDivides(g.off, sectorSize, byteOffset);
  }

  /** A request inside the size the volume reports is never refused and stays inside the data region. */
  lemma RequestInsideReportedSize(g: Geometry, sectorSize: nat, byteOffset: nat, length: nat, userMode: bool)
    requires sectorSize > 0 && length > 0 && byteOffset + length <= g.total * sectorSize
    ensures RouteRequest(g, sectorSize, byteOffset, length, userMode)
            == Queued(g.off + byteOffset / sectorSize, length / sectorSize)
    ensures byteOffset / sectorSize + length / sectorSize <= g.total
  {
    ShiftDivides(g.off, sectorSize, byteOffset);
    FloorsInside(byteOffset, length, g.total, sectorSize);
  }
}
