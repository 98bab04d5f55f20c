/** The on-disk formats octet by octet, as the standards and the source write them: every tweak, key, label, field
    and chaining value spelled out, without the functions that compute them elsewhere. */
module Standards {
  import opened Bytes
  import opened Errors
  import opened Metadata
  import opened Sectors
  import opened Store
  import opened Sweep
  import Gf128
  import Xts

  // ---- XTS (IEEE Std 1619-2007, sections 5.3 and 5.4) ----

  /** `n` is `rel` as a 128-bit little-endian number. */
  predicate LittleEndian128(n: Block, rel: nat) {
    forall k :: 0 <= k < 16 ==> n[k] as nat == rel / Pow256(k) % 256
  }

  /** Block `j` of sector `rel`: `after` is `before` whitened on both sides by E2(rel) times x^j. */
  ghost predicate XtsBlock(e1: Block -> Block, e2: Block -> Block, rel: nat, j: nat, before: Block, after: Block) {
    exists n: Block, t: Block ::
      && LittleEndian128(n, rel)
      && Gf128.Coefficients(t) == Gf128.TimesXTimes(Gf128.Coefficients(e2(n)), j)
      && after == Xor(e1(Xor(before, t)), t)
  }

  lemma {:induction false} SequentialAt(f: Block -> Block, t: Block, s: Bytes, j: nat)
    requires 16 * j + 16 <= |s|
    ensures var u := Xts.Advance(t, j);
            Get(Xts.Sequential(f, t, s), 16 * j, 16) == Xor(f(Xor(Get(s, 16 * j, 16), u)), u)
    decreases j
  {
    hide Gf128.MulAlpha, Xor;
    var r := Xts.Sequential(f, t, s);
    if j == 0 {
      assert s[..16] == Get(s, 0, 16) && r[..16] == Get(r, 0, 16);
    } else {
      SequentialAt(f, Gf128.MulAlpha(t), s[16..], j - 1);
      Xts.AdvanceAdds(t, 1, j - 1);
      assert Xts.Advance(t, 1) == Gf128.MulAlpha(t);
      Shifted(s, j);
      Shifted(r, j);
      assert r[16..] == Xts.Sequential(f, Gf128.MulAlpha(t), s[16..]);
    }
  }

  lemma Shifted(s: Bytes, j: nat)
    requires j > 0 && 16 * j + 16 <= |s|
    ensures Get(s[16..], 16 * (j - 1), 16) == Get(s, 16 * j, 16)
  {
  }

  /** Octets after the last whole block stay as they are. */
  lemma {:induction false} SequentialRest(f: Block -> Block, t: Block, s: Bytes)
    ensures Xts.Sequential(f, t, s)[|s| / 16 * 16..] == s[|s| / 16 * 16..]
    decreases |s|
  {
    hide Gf128.MulAlpha, Xts.Whiten;
    if |s| >= 16 {
      SequentialRest(f, Gf128.MulAlpha(t), s[16..]);
      var r := Xts.Sequential(f, t, s);
      assert |s[16..]| / 16 * 16 == |s| / 16 * 16 - 16;
      assert r[16..] == Xts.Sequential(f, Gf128.MulAlpha(t), s[16..]);
    }
  }

  lemma {:induction false} AdvanceIsPower(t: Block, j: nat)
    ensures Gf128.Coefficients(Xts.Advance(t, j)) == Gf128.TimesXTimes(Gf128.Coefficients(t), j)
    decreases j
  {
    hide Gf128.MulAlpha, Gf128.Coefficients, Gf128.TimesXMod;
    if j > 0 {
      AdvanceIsPower(t, j - 1);
      Gf128.AlphaIsX(Xts.Advance(t, j - 1));
    }
  }

  /** Every block of an enciphered or deciphered sector, for every sector number below 2^128. */
  lemma SectorBlocks(c: Xts.Cipher, rel: nat, s: Bytes, j: nat)
    requires rel < Pow256(16) && 16 * j + 16 <= |s|
    ensures |Xts.EncryptSector(c, rel, s)| == |Xts.DecryptSector(c, rel, s)| == |s|
    ensures XtsBlock(c.encrypt1, c.encrypt2, rel, j, Get(s, 16 * j, 16), Get(Xts.EncryptSector(c, rel, s), 16 * j, 16))
    ensures XtsBlock(c.decrypt1, c.encrypt2, rel, j, Get(s, 16 * j, 16), Get(Xts.DecryptSector(c, rel, s), 16 * j, 16))
    ensures var whole := |s| / 16 * 16;
            Xts.EncryptSector(c, rel, s)[whole..] == Xts.DecryptSector(c, rel, s)[whole..] == s[whole..]
  {
    hide Xts.Sequential, Xts.Advance, Gf128.Coefficients, Gf128.TimesXTimes, Xor, LeBytes, Pow256;
    var n: Block := LeBytes(rel, 16);
    forall k | 0 <= k < 16
      ensures n[k] as nat == rel / Pow256(k) % 256
    {
      LeBytesAt(rel, 16, k);
    }
    var t := Xts.Advance(c.encrypt2(n), j);
    AdvanceIsPower(c.encrypt2(n), j);
    SequentialAt(c.encrypt1, c.encrypt2(n), s, j);
    SequentialAt(c.decrypt1, c.encrypt2(n), s, j);
    SequentialRest(c.encrypt1, c.encrypt2(n), s);
    SequentialRest(c.decrypt1, c.encrypt2(n), s);
    assert LittleEndian128(n, rel);
  }

  /** The data cipher of the default suite: AES under the first key on the data, under the second on the number. */
  lemma StandardSector(p: Primitives, vmk: Bytes, k: Secrets, rel: nat, s: Sector, j: nat)
    requires rel < Pow256(16) && 16 * j + 16 <= |s|
    ensures var c := StandardConfig(p, vmk).suite(k);
            && |c.enc(rel, s)| == |c.dec(rel, s)| == |s|
            && XtsBlock(b => p.aesEncrypt(k.fvekKey1, b), b => p.aesEncrypt(k.fvekKey2, b), rel, j,
                        Get(s, 16 * j, 16), Get(c.enc(rel, s), 16 * j, 16))
            && XtsBlock(b => p.aesDecrypt(k.fvekKey1, b), b => p.aesEncrypt(k.fvekKey2, b), rel, j,
                        Get(s, 16 * j, 16), Get(c.dec(rel, s), 16 * j, 16))
  {
    hide Xts.EncryptSector, Xts.DecryptSector, Xor, Gf128.Coefficients, Gf128.TimesXTimes;
    SectorBlocks(AesXts(p, k), rel, s, j);
  }

  // ---- HKDF (sections 2.2 and 2.3 of RFC 5869) ----

  /** Octets 32i to 32i+32 of the output: HMAC over the previous 32, the info and the octet i + 1. */
  predicate ExpandedAt(p: Primitives, prk: Key, info: Bytes, out: Bytes, i: nat)
    requires i < 255 && 32 * i + 32 <= |out|
  {
    out[32 * i..32 * i + 32]
    == p.hmac(prk, (if i == 0 then [] else out[32 * i - 32..32 * i]) + info + [(i + 1) as bv8])
  }

  lemma {:induction false} OkmAt(p: Primitives, prk: Key, info: Bytes, n: nat, i: nat)
    requires i < n && i < 255
    ensures Okm(p, prk, info, n)[32 * i..32 * i + 32] == HkdfT(p, prk, info, i + 1)
    decreases n
  {
    hide HkdfT;
    var o := Okm(p, prk, info, n);
    if i < n - 1 {
      OkmAt(p, prk, info, n - 1, i);
      assert o[32 * i..32 * i + 32] == Okm(p, prk, info, n - 1)[32 * i..32 * i + 32];
    }
  }

  lemma ExpandSlice(p: Primitives, prk: Key, info: Bytes, length: nat, i: nat)
    requires i < 255 && 32 * i + 32 <= length
    ensures Expand(p, prk, info, length)[32 * i..32 * i + 32] == HkdfT(p, prk, info, i + 1)
  {
    hide Okm, HkdfT;
    var n := (length + 31) / 32;
    OkmAt(p, prk, info, n, i);
    SliceOfPrefix(Okm(p, prk, info, n), length, 32 * i, 32 * i + 32);
  }

  lemma SliceOfPrefix(s: Bytes, n: nat, a: nat, b: nat)
    requires a <= b <= n <= |s|
    ensures s[..n][a..b] == s[a..b]
  {
  }

  lemma ExpandAt(p: Primitives, prk: Key, info: Bytes, length: nat, i: nat)
    requires i < 255 && 32 * i + 32 <= length
    ensures ExpandedAt(p, prk, info, Expand(p, prk, info, length), i)
  {
    hide Expand, Counter;
    ExpandSlice(p, prk, info, length, i);
    if i > 0 {
      ExpandSlice(p, prk, info, length, i - 1);
    }
    CounterOctet(i + 1);
  }

  lemma CounterOctet(n: nat)
    requires n < 256
    ensures Counter(n) == n as bv8
  {
  }

  // "EncryptedMetadata:MAC", "EncryptedMetadata:ENC" and "EncryptedMetadata:IV" in ASCII
  const LABEL_MAC: Bytes := [0x45, 0x6E, 0x63, 0x72, 0x79, 0x70, 0x74, 0x65, 0x64, 0x4D, 0x65, 0x74, 0x61, 0x64, 0x61,
                             0x74, 0x61, 0x3A, 0x4D, 0x41, 0x43]
  const LABEL_ENC: Bytes := [0x45, 0x6E, 0x63, 0x72, 0x79, 0x70, 0x74, 0x65, 0x64, 0x4D, 0x65, 0x74, 0x61, 0x64, 0x61,
                             0x74, 0x61, 0x3A, 0x45, 0x4E, 0x43]
  const LABEL_IV: Bytes := [0x45, 0x6E, 0x63, 0x72, 0x79, 0x70, 0x74, 0x65, 0x64, 0x4D, 0x65, 0x74, 0x61, 0x64, 0x61,
                            0x74, 0x61, 0x3A, 0x49, 0x56]

  /** The three keys of a block: HKDF with the volume id and the salt as salt and the VMK as key material. */
  lemma KeysOfBlock(p: Primitives, volumeId: Block, salt: Block, vmk: Bytes)
    ensures var k, prk := DeriveKeys(p, volumeId, salt, vmk), p.hmac(volumeId + salt, vmk);
            && k.mac == p.hmac(prk, LABEL_MAC + [1])
            && k.enc == p.hmac(prk, LABEL_ENC + [1])
            && k.iv == p.hmac(prk, LABEL_IV + [1])[..16]
  {
    hide Expand;
    var prk := p.hmac(volumeId + salt, vmk);
    FirstOctets(p, prk, INFO_MAC, 32);
    FirstOctets(p, prk, INFO_ENC, 32);
    FirstOctets(p, prk, INFO_IV, 16);
    assert INFO_MAC == LABEL_MAC && INFO_ENC == LABEL_ENC && INFO_IV == LABEL_IV;
  }

  lemma FirstOctets(p: Primitives, prk: Key, info: Bytes, n: nat)
    requires n <= 32
    ensures Expand(p, prk, info, n) == p.hmac(prk, info + [1])[..n]
  {
    hide Expand;
    ExpandAt(p, prk, info, 32, 0);
    ExpandPrefix(p, prk, info, n, 32);
    var e := Expand(p, prk, info, 32);
    assert e[0..32] == e && [] + info + [1] == info + [1];
  }

  // ---- CBC (section 6.2 of NIST SP 800-38A) ----

  /** Ciphertext block i is the cipher of plaintext block i xored with ciphertext block i - 1, or with the IV. */
  lemma {:induction false} CbcAt(p: Primitives, key: Key, iv: Block, s: Bytes, i: nat)
    requires 16 * i + 16 <= |s|
    ensures var c := CbcEncrypt(p, key, iv, s);
            Get(c, 16 * i, 16) == p.aesEncrypt(key,
                Xor(Get(s, 16 * i, 16), if i == 0 then iv else Get(c, 16 * i - 16, 16)))
    decreases i
  {
    hide Xor;
    var c := CbcEncrypt(p, key, iv, s);
    var first := p.aesEncrypt(key, Xor(s[..16], iv));
    assert c[16..] == CbcEncrypt(p, key, first, s[16..]) && Get(c, 0, 16) == first && Get(s, 0, 16) == s[..16];
    if i > 0 {
      CbcAt(p, key, first, s[16..], i - 1);
      Shifted(s, i);
      Shifted(c, i);
      if i > 1 { Shifted(c, i - 1); }
    }
  }

  /** Plaintext block i is the deciphered ciphertext block i xored with ciphertext block i - 1, or with the IV. */
  lemma {:induction false} CbcPlainAt(p: Primitives, key: Key, iv: Block, s: Bytes, i: nat)
    requires 16 * i + 16 <= |s|
    ensures Get(CbcDecrypt(p, key, iv, s), 16 * i, 16)
            == Xor(p.aesDecrypt(key, Get(s, 16 * i, 16)), if i == 0 then iv else Get(s, 16 * i - 16, 16))
    decreases i
  {
    hide Xor;
    var d := CbcDecrypt(p, key, iv, s);
    assert d[16..] == CbcDecrypt(p, key, s[..16], s[16..]) && Get(s, 0, 16) == s[..16];
    if i == 0 {
      assert Get(d, 0, 16) == d[..16];
    } else {
      CbcPlainAt(p, key, s[..16], s[16..], i - 1);
      Shifted(s, i);
      Shifted(d, i);
      if i > 1 { Shifted(s, i - 1); }
    }
  }

  // ---- the metadata block ----

  /** The header area of an encoded block, octet range by octet range. */
  predicate HeaderOctets(b: Bytes, h: Header, salt: Block)
    requires |b| == 512
  {
    && b[0..4] == [0x4A, 0x56, 0x43, 0x4B]   // "JVCK"
    && b[4..12] == LeBytes(h.vendorId, 8) && b[12..14] == LeBytes(h.metadataVersion, 2)
    && b[14..16] == LeBytes(h.vendorVersion, 2) && b[16..20] == LeBytes(h.metadataSize, 4)
    && b[20..24] == LeBytes(h.sectorSize, 4)
    && b[24..25] == LeBytes(h.headerReplicas, 1) && b[25..26] == LeBytes(h.footerReplicas, 1)
    && b[26..32] == Zeros(6) && b[32..48] == h.volumeId && b[48..64] == salt
    && b[224..304] == Zeros(80) && b[304..496] == h.vendorReserved && b[496..508] == Zeros(12)
  }

  predicate PayloadOctets(b: Bytes, u: Unsealed)
    requires |b| == 128
  {
    && b[0..4] == [0x4A, 0x56, 0x43, 0x4B] && b[4..16] == Zeros(12)
    && b[16..24] == LeBytes(u.offset, 8) && b[24..26] == LeBytes(if u.state.Decrypt? then 1 else 0, 2)
    && b[26..32] == Zeros(6) && b[32..64] == u.secrets.fvekKey1 && b[64..96] == u.secrets.fvekKey2
    && b[96..128] == Zeros(32)
  }

  lemma PayloadLayout(u: Unsealed)
    ensures PayloadOctets(Payload(u), u)
  {
    hide LeBytes, PutAll;
    PayloadFieldsApart(u);
    var z, fs := Zeros(128), PayloadFields(u);
    GetField(z, fs, 0);
    GetField(z, fs, 1);
    GetField(z, fs, 2);
    GetField(z, fs, 3);
    GetField(z, fs, 4);
    GetUntouched(z, fs, 4, 12);
    GetUntouched(z, fs, 26, 6);
    GetUntouched(z, fs, 96, 32);
  }

  lemma HeaderLayout(p: Primitives, h: Header, u: Unsealed, salt: Block, vmk: Bytes)
    ensures HeaderOctets(Encode(p, h, u, salt, vmk), h, salt)
  {
    hide LeBytes, Encode, BodyFields, PutAll;
    var b := Encode(p, h, u, salt, vmk);
    forall i | 0 <= i < 11
      ensures var f := HeaderFields(h, salt)[i]; f.End() <= CRC_END && Get(b, f.off, |f.bytes|) == f.bytes
    {
      HeaderField(p, h, u, salt, vmk, i);
    }
    var fs := HeaderFields(h, salt);
    assert fs[0].off == 0 && fs[1].off == 4 && fs[2].off == 12 && fs[3].off == 14 && fs[4].off == 16 && fs[5].off == 20;
    assert fs[6].off == 24 && fs[7].off == 25 && fs[8].off == 32 && fs[9].off == 48 && fs[10].off == 304;
    ReservedZeros(p, h, u, salt, vmk);
  }

  lemma ReservedZeros(p: Primitives, h: Header, u: Unsealed, salt: Block, vmk: Bytes)
    ensures var b := Encode(p, h, u, salt, vmk);
            b[26..32] == Zeros(6) && b[224..304] == Zeros(80) && b[496..508] == Zeros(12)
  {
    hide LeBytes, Encode, PutAll, DeriveKeys, SealedPayload;
    BodyFieldsApart(p, h, u, salt, vmk);
    EncodeKeepsBody(p, h, u, salt, vmk);
    var z, fs, b := Zeros(512), BodyFields(p, h, u, salt, vmk), Encode(p, h, u, salt, vmk);
    GetUntouched(z, fs, 26, 6);
    GetUntouched(z, fs, 224, 80);
    GetUntouched(z, fs, 496, 12);
    assert Get(b, 26, 6) == Zeros(6) && Get(b, 224, 80) == Zeros(80) && Get(b, 496, 12) == Zeros(12);
  }

  /** The sealed area: the payload in CBC under the derived key and IV, its HMAC, and the checksum. */
  ghost predicate SealedOctets(p: Primitives, b: Bytes, u: Unsealed, volumeId: Block, salt: Block, vmk: Bytes)
    requires |b| == 512
  {
    var prk := p.hmac(volumeId + salt, vmk);
    var mac, enc := p.hmac(prk, LABEL_MAC + [1]), p.hmac(prk, LABEL_ENC + [1]);
    && (exists plain: Bytes :: |plain| == 128 && PayloadOctets(plain, u)
          && Chained(p, enc, p.hmac(prk, LABEL_IV + [1])[..16], plain, b[64..192]))
    && b[192..224] == p.hmac(mac, b[64..192])
    && b[508..512] == LeBytes(p.crc32(b[..508]), 4)
  }

  predicate Chained(p: Primitives, key: Key, iv: Block, plain: Bytes, sealed: Bytes)
    requires |plain| == |sealed| == 128
  {
    forall i :: 0 <= i < 8 ==>
      Get(sealed, 16 * i, 16)
      == p.aesEncrypt(key, Xor(Get(plain, 16 * i, 16), if i == 0 then iv else Get(sealed, 16 * i - 16, 16)))
  }

  lemma CbcChained(p: Primitives, key: Key, iv: Block, plain: Bytes)
    requires |plain| == 128
    ensures Chained(p, key, iv, plain, CbcEncrypt(p, key, iv, plain))
  {
    hide CbcEncrypt, Xor;
    forall i | 0 <= i < 8
      ensures var c := CbcEncrypt(p, key, iv, plain);
              Get(c, 16 * i, 16)
              == p.aesEncrypt(key, Xor(Get(plain, 16 * i, 16), if i == 0 then iv else Get(c, 16 * i - 16, 16)))
    {
      CbcAt(p, key, iv, plain, i);
    }
  }

  /** Every octet of an encoded block. */
  lemma BlockLayout(p: Primitives, h: Header, u: Unsealed, salt: Block, vmk: Bytes)
    ensures var b := Encode(p, h, u, salt, vmk);
            HeaderOctets(b, h, salt) && SealedOctets(p, b, u, h.volumeId, salt, vmk)
  {
    hide LeBytes, Encode, BodyFields, PutAll, DeriveKeys, CbcEncrypt, Payload, PayloadOctets, HeaderOctets, Chained;
    var b, k := Encode(p, h, u, salt, vmk), DeriveKeys(p, h.volumeId, salt, vmk);
    HeaderLayout(p, h, u, salt, vmk);
    KeysOfBlock(p, h.volumeId, salt, vmk);
    PayloadLayout(u);
    CbcChained(p, k.enc, k.iv, Payload(u));
    SealedFields(p, h, u, salt, vmk);
  }

  lemma SealedFields(p: Primitives, h: Header, u: Unsealed, salt: Block, vmk: Bytes)
    ensures var b, k := Encode(p, h, u, salt, vmk), DeriveKeys(p, h.volumeId, salt, vmk);
            && b[64..192] == CbcEncrypt(p, k.enc, k.iv, Payload(u))
            && b[192..224] == p.hmac(k.mac, b[64..192])
            && b[508..512] == LeBytes(p.crc32(b[..508]), 4)
  {
    hide LeBytes, Encode, Body, PutAll, DeriveKeys, CbcEncrypt, Payload, HeaderFields;
    BodyField(p, h, u, salt, vmk, 11);
    BodyField(p, h, u, salt, vmk, 12);
    EncodeKeepsBody(p, h, u, salt, vmk);
    assert BodyFields(p, h, u, salt, vmk)[11].off == 64 && BodyFields(p, h, u, salt, vmk)[12].off == 192;
  }

  // ---- what is accepted ----

  /** Signature and checksum of a block that may be read at all. */
  predicate Checked(p: Primitives, b: Bytes) {
    |b| >= 512 && b[0..4] == [0x4A, 0x56, 0x43, 0x4B] && p.crc32(b[..508]) == LeNat(b[508..512])
  }

  /** The header is read from exactly the blocks whose signature and checksum are right, and other blocks are
      refused for their size, their signature or their checksum, in this order. */
  lemma ParseAccepts(p: Primitives, b: Bytes)
    ensures VerifyCrc(p, b).Ok? <==> Checked(p, b)
    ensures Parse(p, b).Ok? <==> Checked(p, b)
    ensures |b| < 512 ==> VerifyCrc(p, b) == Err(SizeMismatch(512, |b|))
    ensures |b| >= 512 && b[0..4] != [0x4A, 0x56, 0x43, 0x4B] ==> VerifyCrc(p, b) == Err(SignatureMismatch)
    ensures |b| >= 512 && b[0..4] == [0x4A, 0x56, 0x43, 0x4B] && !Checked(p, b) ==>
              VerifyCrc(p, b) == Err(ChecksumMismatch)
    ensures Checked(p, b) ==>
              var h := Parse(p, b).value;
              && h.vendorId == LeNat(b[4..12]) && h.metadataVersion == LeNat(b[12..14])
                 && h.vendorVersion == LeNat(b[14..16])
              && h.metadataSize == LeNat(b[16..20]) && h.sectorSize == LeNat(b[20..24])
              && h.headerReplicas == LeNat(b[24..25]) && h.footerReplicas == LeNat(b[25..26])
              && h.volumeId == b[32..48] && h.vendorReserved == b[304..496]
  {
    hide LeNat;
  }

  /** The payload is opened from exactly those of them whose HMAC under the derived key is right and whose plaintext
      starts with the signature and twelve zeros; then it is read off that plaintext. */
  lemma UnsealAccepts(p: Primitives, b: Bytes, vmk: Bytes)
    requires Checked(p, b)
    ensures var prk := p.hmac(b[32..48] + b[48..64], vmk);
            var plain := CbcDecrypt(p, p.hmac(prk, LABEL_ENC + [1]), p.hmac(prk, LABEL_IV + [1])[..16], b[64..192]);
            && (DecryptPayload(p, b, vmk).Ok? <==>
                  && p.hmac(p.hmac(prk, LABEL_MAC + [1]), b[64..192]) == b[192..224]
                  && plain[0..4] == [0x4A, 0x56, 0x43, 0x4B] && plain[4..16] == Zeros(12))
            && (DecryptPayload(p, b, vmk).Ok? ==>
                  var u := DecryptPayload(p, b, vmk).value;
                  && u.offset == LeNat(plain[16..24]) && (u.state == Decrypt <==> LeNat(plain[24..26]) == 1)
                  && u.secrets == Secrets(plain[32..64], plain[64..96]))
  {
    hide LeNat, DeriveKeys, CbcDecrypt;
    KeysOfBlock(p, b[32..48], b[48..64], vmk);
    ParseAccepts(p, b);
  }

  // ---- the sector around the block ----

  /** A replica's sector is its block and then zeros. */
  lemma SectorLayout(f: Format, st: StoreState, salt: Block)
    requires f.Lawful() && st.size >= 512
    ensures var s := SealedSector(f, st, salt);
            && |s| == st.size && s[..512] == f.seal(st.header, Unsealed(st.offset, st.state, st.secrets), salt)
            && s[512..] == Zeros(st.size - 512)
  {
    assert f.SealsWell(st.header, st.Sealable(), salt);
  }
}
