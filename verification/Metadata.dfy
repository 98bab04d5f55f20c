/** The 512-byte JVCK Metadata block: layout, key derivation, sealing and unsealing. */
module Metadata {
  import opened Bytes
  import opened Errors

  // ---- primitives, all abstract ----

  type Key = b: Bytes | |b| == 32 witness Zeros(32)
  type Reserved = b: Bytes | |b| == 192 witness Zeros(192)
  type Word8 = x: nat | x < 0x100
  type Word16 = x: nat | x < 0x1_0000
  type Word32 = x: nat | x < 0x1_0000_0000
  type Word64 = x: nat | x < 0x1_0000_0000_0000_0000

  /** AES-256, HMAC-SHA256 and CRC-32 as arbitrary functions of the right shape. */
  datatype Primitives = Primitives(aesEncrypt: (Key, Block) -> Block, aesDecrypt: (Key, Block) -> Block,
                                   hmac: (Bytes, Bytes) -> Key, crc32: Bytes -> Word32)
  {
    ghost predicate Valid() {
      forall k: Key, b: Block :: aesDecrypt(k, aesEncrypt(k, b)) == b
    }
  }

  const SIGNATURE: Bytes := [0x4A, 0x56, 0x43, 0x4B]
  const INFO_PREFIX: Bytes := [0x45, 0x6E, 0x63, 0x72, 0x79, 0x70, 0x74, 0x65, 0x64,
                               0x4D, 0x65, 0x74, 0x61, 0x64, 0x61, 0x74, 0x61, 0x3A]
  const INFO_MAC: Bytes := INFO_PREFIX + [0x4D, 0x41, 0x43]
  const INFO_ENC: Bytes := INFO_PREFIX + [0x45, 0x4E, 0x43]
  const INFO_IV: Bytes := INFO_PREFIX + [0x49, 0x56]

  const BLOCK_SIZE := 512
  const PAYLOAD_SIZE := 128
  const CRC_END := 508

  // ---- CBC (section 6.2 of NIST SP 800-38A) ----

  function CbcEncrypt(p: Primitives, key: Key, iv: Block, s: Bytes): (r: Bytes)
    ensures |r| == |s|
    decreases |s|
  {
    if |s| < 16 then s
    else
      var c := p.aesEncrypt(key, Xor(s[..16], iv));
      c + CbcEncrypt(p, key, c, s[16..])
  }

  function CbcDecrypt(p: Primitives, key: Key, iv: Block, s: Bytes): (r: Bytes)
    ensures |r| == |s|
    decreases |s|
  {
    if |s| < 16 then s
    else Xor(p.aesDecrypt(key, s[..16]), iv) + CbcDecrypt(p, key, s[..16], s[16..])
  }

  lemma {:induction false} CbcInverse(p: Primitives, key: Key, iv: Block, s: Bytes)
    requires p.Valid()
    ensures CbcDecrypt(p, key, iv, CbcEncrypt(p, key, iv, s)) == s
    decreases |s|
  {
    if |s| >= 16 {
      var c := p.aesEncrypt(key, Xor(s[..16], iv));
      var r := CbcEncrypt(p, key, iv, s);
      assert r[..16] == c && r[16..] == CbcEncrypt(p, key, c, s[16..]);
      XorCancels(s[..16], iv);
      CbcInverse(p, key, c, s[16..]);
    }
  }

  // ---- HKDF (sections 2.2 and 2.3 of RFC 5869) ----

  function Extract(p: Primitives, salt: Bytes, ikm: Bytes): Key {
    p.hmac(salt, ikm)
  }

  /** The counter octet wraps at 256; the RFC only goes up to 255. */
  function Counter(n: nat): bv8 {
    (n % 256) as bv8
  }

  lemma CounterWraps(n: nat)
    ensures Counter(n % 256) == Counter(n)
  {
  }

  /** T(n) of the expand step. */
  function HkdfT(p: Primitives, prk: Key, info: Bytes, n: nat): Bytes {
    if n == 0 then [] else p.hmac(prk, HkdfT(p, prk, info, n - 1) + info + [Counter(n)])
  }

  function Okm(p: Primitives, prk: Key, info: Bytes, n: nat): (r: Bytes)
    ensures |r| == 32 * n
  {
    if n == 0 then [] else Okm(p, prk, info, n - 1) + HkdfT(p, prk, info, n)
  }

  function Expand(p: Primitives, prk: Key, info: Bytes, length: nat): (r: Bytes)
    ensures |r| == length
  {
    Okm(p, prk, info, (length + 31) / 32)[..length]
  }

  lemma {:induction false} OkmPrefix(p: Primitives, prk: Key, info: Bytes, m: nat, n: nat)
    requires m <= n
    ensures Okm(p, prk, info, m) <= Okm(p, prk, info, n)
    decreases n
  {
    if m < n {
      OkmPrefix(p, prk, info, m, n - 1);
    }
  }

  /** Asking for fewer octets gives a prefix of asking for more. */
  lemma ExpandPrefix(p: Primitives, prk: Key, info: Bytes, a: nat, b: nat)
    requires a <= b
    ensures Expand(p, prk, info, a) == Expand(p, prk, info, b)[..a]
  {
    OkmPrefix(p, prk, info, (a + 31) / 32, (b + 31) / 32);
  }

  datatype DerivedKeys = DerivedKeys(mac: Key, enc: Key, iv: Block)

  function DeriveKeys(p: Primitives, volumeId: Block, salt: Block, vmk: Bytes): DerivedKeys {
    var prk := Extract(p, volumeId + salt, vmk);
    DerivedKeys(Expand(p, prk, INFO_MAC, 32), Expand(p, prk, INFO_ENC, 32), Expand(p, prk, INFO_IV, 16))
  }

  // ---- the block ----

  datatype VolumeState = Encrypt | Decrypt {
    function AsWord(): Word16 { if Encrypt? then 0 else 1 }

    /** Unknown values fall back to `Encrypt`. */
    static function FromWord(v: Word16): VolumeState { if v == 1 then Decrypt else Encrypt }
  }

  datatype Header = Header(vendorId: Word64, metadataVersion: Word16, vendorVersion: Word16, metadataSize: Word32,
                           sectorSize: Word32, headerReplicas: Word8, footerReplicas: Word8,
                           volumeId: Block, vendorReserved: Reserved)

  datatype Secrets = Secrets(fvekKey1: Key, fvekKey2: Key)

  datatype Unsealed = Unsealed(offset: Word64, state: VolumeState, secrets: Secrets)

  function HeaderFields(h: Header, salt: Block): (fs: seq<Field>)
    ensures |fs| == 11
  {
    [Field(0, SIGNATURE), Field(4, LeBytes(h.vendorId, 8)), Field(12, LeBytes(h.metadataVersion, 2)),
     Field(14, LeBytes(h.vendorVersion, 2)), Field(16, LeBytes(h.metadataSize, 4)), Field(20, LeBytes(h.sectorSize, 4)),
     Field(24, LeBytes(h.headerReplicas, 1)), Field(25, LeBytes(h.footerReplicas, 1)), Field(32, h.volumeId),
     Field(48, salt), Field(304, h.vendorReserved)]
  }

  function PayloadFields(u: Unsealed): seq<Field> {
    [Field(0, SIGNATURE), Field(16, LeBytes(u.offset, 8)), Field(24, LeBytes(u.state.AsWord(), 2)),
     Field(32, u.secrets.fvekKey1), Field(64, u.secrets.fvekKey2)]
  }

  lemma HeaderFieldsApart(h: Header, salt: Block)
    ensures Fit(HeaderFields(h, salt), CRC_END) && Disjoint(HeaderFields(h, salt))
    ensures forall i :: 0 <= i < 11 ==> HeaderFields(h, salt)[i].Apart(64, 160)
  {
  }

  lemma PayloadFieldsApart(u: Unsealed)
    ensures Fit(PayloadFields(u), PAYLOAD_SIZE) && Disjoint(PayloadFields(u))
    ensures forall i :: 0 <= i < 5 ==> PayloadFields(u)[i].Apart(4, 12)
  {
  }

  function Payload(u: Unsealed): (b: Bytes)
    ensures |b| == PAYLOAD_SIZE
  {
    PayloadFieldsApart(u);
    PutAll(Zeros(PAYLOAD_SIZE), PayloadFields(u))
  }

  function SealedPayload(p: Primitives, k: DerivedKeys, u: Unsealed): (b: Bytes)
    ensures |b| == PAYLOAD_SIZE
  {
    CbcEncrypt(p, k.enc, k.iv, Payload(u))
  }

  /** Every field but the checksum. */
  function BodyFields(p: Primitives, h: Header, u: Unsealed, salt: Block, vmk: Bytes): (fs: seq<Field>)
    ensures |fs| == 13
  {
    var k := DeriveKeys(p, h.volumeId, salt, vmk);
    var enc := SealedPayload(p, k, u);
    HeaderFields(h, salt) + [Field(64, enc), Field(192, p.hmac(k.mac, enc))]
  }

  lemma BodyFieldsApart(p: Primitives, h: Header, u: Unsealed, salt: Block, vmk: Bytes)
    ensures Fit(BodyFields(p, h, u, salt, vmk), CRC_END) && Disjoint(BodyFields(p, h, u, salt, vmk))
  {
    hide HeaderFields, DeriveKeys, SealedPayload;
    HeaderFieldsApart(h, salt);
  }

  function Body(p: Primitives, h: Header, u: Unsealed, salt: Block, vmk: Bytes): (b: Bytes)
    ensures |b| == BLOCK_SIZE
  {
    BodyFieldsApart(p, h, u, salt, vmk);
    PutAll(Zeros(BLOCK_SIZE), BodyFields(p, h, u, salt, vmk))
  }

  /** `JvckHeader::encode`: the body and the checksum over its first 508 bytes. */
  function Encode(p: Primitives, h: Header, u: Unsealed, salt: Block, vmk: Bytes): (b: Bytes)
    ensures |b| == BLOCK_SIZE
  {
    var b := Body(p, h, u, salt, vmk);
    Put(b, Field(CRC_END, LeBytes(p.crc32(b[..CRC_END]), 4)))
  }

  function VerifyCrc(p: Primitives, b: Bytes): Result<()> {
    if |b| < BLOCK_SIZE then Err(SizeMismatch(BLOCK_SIZE, |b|))
    else if Get(b, 0, 4) != SIGNATURE then Err(SignatureMismatch)
    else if p.crc32(b[..CRC_END]) != LeNat(Get(b, CRC_END, 4)) then Err(ChecksumMismatch)
    else Ok(())
  }

  function Word(b: Bytes, off: nat, n: nat): (x: nat)
    requires off + n <= |b|
    ensures x < Pow256(n)
  {
    LeNatBound(Get(b, off, n));
    LeNat(Get(b, off, n))
  }

  lemma {:induction false} LeNatBound(s: Bytes)
    ensures LeNat(s) < Pow256(|s|)
  {
    if s != [] {
      LeNatBound(s[1..]);
    }
  }

  function Parse(p: Primitives, b: Bytes): Result<Header> {
    match VerifyCrc(p, b)
    case Err(e) => Err(e)
    case Ok(_) =>
      Widths();
      Ok(Header(Word(b, 4, 8), Word(b, 12, 2), Word(b, 14, 2), Word(b, 16, 4), Word(b, 20, 4), Word(b, 24, 1),
                Word(b, 25, 1), Get(b, 32, 16), Get(b, 304, 192)))
  }

  /** Authenticate, decrypt and check the inner signature and zero field. */
  function DecryptPayload(p: Primitives, b: Bytes, vmk: Bytes): Result<Unsealed> {
    match VerifyCrc(p, b)
    case Err(e) => Err(e)
    case Ok(_) =>
      var k := DeriveKeys(p, Get(b, 32, 16), Get(b, 48, 16), vmk);
      var enc := Get(b, 64, PAYLOAD_SIZE);
      if p.hmac(k.mac, enc) != Get(b, 192, 32) then Err(ValidationFailed)
      else OpenPayload(CbcDecrypt(p, k.enc, k.iv, enc))
  }

  function OpenPayload(plain: Bytes): Result<Unsealed>
    requires |plain| == PAYLOAD_SIZE
  {
    if Get(plain, 0, 4) != SIGNATURE then Err(ValidationFailed)
    else if Get(plain, 4, 12) != Zeros(12) then Err(ValidationFailed)
    else
      Widths();
      Ok(Unsealed(Word(plain, 16, 8), VolumeState.FromWord(Word(plain, 24, 2)),
                  Secrets(Get(plain, 32, 32), Get(plain, 64, 32))))
  }

  // ---- round trips ----

  /** The checksum field changes nothing below byte 508. */
  lemma EncodeKeepsBody(p: Primitives, h: Header, u: Unsealed, salt: Block, vmk: Bytes)
    ensures var b, e := Body(p, h, u, salt, vmk), Encode(p, h, u, salt, vmk);
            && e[..CRC_END] == b[..CRC_END]
            && Get(e, CRC_END, 4) == LeBytes(p.crc32(b[..CRC_END]), 4)
            && forall off: nat, n: nat :: off + n <= CRC_END ==> Get(e, off, n) == Get(b, off, n)
  {
    hide Body, LeBytes;
    var b, e := Body(p, h, u, salt, vmk), Encode(p, h, u, salt, vmk);
    forall off: nat, n: nat | off + n <= CRC_END
      ensures Get(e, off, n) == Get(b, off, n)
    {
      assert forall k :: off <= k < off + n ==> e[k] == b[k];
    }
  }

  lemma BodyField(p: Primitives, h: Header, u: Unsealed, salt: Block, vmk: Bytes, i: nat)
    requires i < 13
    ensures var f := BodyFields(p, h, u, salt, vmk)[i];
            f.End() <= CRC_END && Get(Encode(p, h, u, salt, vmk), f.off, |f.bytes|) == f.bytes
  {
    hide Encode, BodyFields, PutAll;
    BodyFieldsApart(p, h, u, salt, vmk);
    EncodeKeepsBody(p, h, u, salt, vmk);
    GetField(Zeros(BLOCK_SIZE), BodyFields(p, h, u, salt, vmk), i);
  }

  /** A field of the header region, read back from the encoded block. */
  lemma HeaderField(p: Primitives, h: Header, u: Unsealed, salt: Block, vmk: Bytes, i: nat)
    requires i < 11
    ensures var f := HeaderFields(h, salt)[i];
            f.End() <= CRC_END && Get(Encode(p, h, u, salt, vmk), f.off, |f.bytes|) == f.bytes
  {
    hide Encode, HeaderFields, SealedPayload, DeriveKeys;
    BodyField(p, h, u, salt, vmk, i);
    assert BodyFields(p, h, u, salt, vmk)[i] == HeaderFields(h, salt)[i];
  }

  lemma EncodedCrc(p: Primitives, h: Header, u: Unsealed, salt: Block, vmk: Bytes)
    ensures VerifyCrc(p, Encode(p, h, u, salt, vmk)) == Ok(())
  {
    hide Encode, Body;
    EncodeKeepsBody(p, h, u, salt, vmk);
    HeaderField(p, h, u, salt, vmk, 0);
    Widths();
    LeRoundTrip(p.crc32(Body(p, h, u, salt, vmk)[..CRC_END]), 4);
  }

  lemma FieldWord(b: Bytes, off: nat, n: nat, x: nat)
    requires off + n <= |b| && x < Pow256(n) && Get(b, off, n) == LeBytes(x, n)
    ensures Word(b, off, n) == x
  {
    LeRoundTrip(x, n);
  }

  lemma EncodedNumbers(p: Primitives, h: Header, u: Unsealed, salt: Block, vmk: Bytes)
    ensures var b := Encode(p, h, u, salt, vmk);
            && Word(b, 4, 8) == h.vendorId && Word(b, 12, 2) == h.metadataVersion && Word(b, 14, 2) == h.vendorVersion
            && Word(b, 16, 4) == h.metadataSize && Word(b, 20, 4) == h.sectorSize
            && Word(b, 24, 1) == h.headerReplicas && Word(b, 25, 1) == h.footerReplicas
  {
    hide Encode, LeBytes, Word, Get;
    var b := Encode(p, h, u, salt, vmk);
    Widths();
    forall i | 1 <= i < 8
      ensures var f := HeaderFields(h, salt)[i]; f.End() <= CRC_END && Get(b, f.off, |f.bytes|) == f.bytes
    {
      HeaderField(p, h, u, salt, vmk, i);
    }
    var fs := HeaderFields(h, salt);
    assert fs[1].off == 4 && fs[2].off == 12 && fs[3].off == 14 && fs[4].off == 16;
    FieldWord(b, 4, 8, h.vendorId);
    FieldWord(b, 12, 2, h.metadataVersion);
    FieldWord(b, 14, 2, h.vendorVersion);
    FieldWord(b, 16, 4, h.metadataSize);
    assert fs[5].off == 20 && fs[6].off == 24 && fs[7].off == 25;
    FieldWord(b, 20, 4, h.sectorSize);
    FieldWord(b, 24, 1, h.headerReplicas);
    FieldWord(b, 25, 1, h.footerReplicas);
  }

  /** `parse` recovers every header field from `encode`, whatever was sealed and under whatever salt. */
  lemma ParseInvertsEncode(p: Primitives, h: Header, u: Unsealed, salt: Block, vmk: Bytes)
    ensures Parse(p, Encode(p, h, u, salt, vmk)) == Ok(h)
  {
    hide Encode, Word;
    EncodedCrc(p, h, u, salt, vmk);
    EncodedNumbers(p, h, u, salt, vmk);
    HeaderField(p, h, u, salt, vmk, 8);
    HeaderField(p, h, u, salt, vmk, 10);
  }

  lemma OpenInvertsPayload(u: Unsealed)
    ensures OpenPayload(Payload(u)) == Ok(u)
  {
    hide LeBytes, Word;
    PayloadFieldsApart(u);
    Widths();
    var b, fs, z := Payload(u), PayloadFields(u), Zeros(PAYLOAD_SIZE);
    GetField(z, fs, 0);
    GetUntouched(z, fs, 4, 12);
    GetField(z, fs, 1);
    FieldWord(b, 16, 8, u.offset);
    GetField(z, fs, 2);
    FieldWord(b, 24, 2, u.state.AsWord());
    GetField(z, fs, 3);
    GetField(z, fs, 4);
  }

  /** `decrypt_payload` recovers offset, direction and keys from `encode` under the same VMK. */
  lemma DecryptInvertsEncode(p: Primitives, h: Header, u: Unsealed, salt: Block, vmk: Bytes)
    requires p.Valid()
    ensures DecryptPayload(p, Encode(p, h, u, salt, vmk), vmk) == Ok(u)
  {
    hide Encode, OpenPayload, Payload, DeriveKeys, CbcEncrypt, CbcDecrypt, VerifyCrc;
    var k := DeriveKeys(p, h.volumeId, salt, vmk);
    EncodedCrc(p, h, u, salt, vmk);
    HeaderField(p, h, u, salt, vmk, 8);
    HeaderField(p, h, u, salt, vmk, 9);
    BodyField(p, h, u, salt, vmk, 11);
    BodyField(p, h, u, salt, vmk, 12);
    CbcInverse(p, k.enc, k.iv, Payload(u));
    OpenInvertsPayload(u);
  }

  // ---- the in-place encoder ----

  method Fill(out: array<bv8>)
    modifies out
    ensures out[..] == Zeros(out.Length)
  {
    for i := 0 to out.Length
      invariant forall k :: 0 <= k < i ==> out[k] == 0
    {
      out[i] := 0;
    }
  }

  /** Copy one more field; `fs` records the fields written so far. */
  method Write(out: array<bv8>, f: Field, ghost fs: seq<Field>) returns (ghost now: seq<Field>)
    requires f.End() <= out.Length && Fit(fs, out.Length) && out[..] == PutAll(Zeros(out.Length), fs)
    modifies out
    ensures now == fs + [f] && Fit(now, out.Length)
    ensures out[..] == PutAll(Zeros(out.Length), now)
  {
    hide PutAll;
    PutAllSnoc(Zeros(out.Length), fs, f);
    CopyInto(out, f);
    now := fs + [f];
  }

  method WriteHeader(h: Header, salt: Block, out: array<bv8>)
    requires out.Length == BLOCK_SIZE
    modifies out
    ensures Fit(HeaderFields(h, salt), BLOCK_SIZE) && out[..] == PutAll(Zeros(BLOCK_SIZE), HeaderFields(h, salt))
  {
    hide PutAll, LeBytes;
    Fill(out);
    ghost var fs := [];
    PutNothing(Zeros(BLOCK_SIZE));
    fs := Write(out, Field(0, SIGNATURE), fs);
    fs := Write(out, Field(4, LeBytes(h.vendorId, 8)), fs);
    fs := Write(out, Field(12, LeBytes(h.metadataVersion, 2)), fs);
    fs := Write(out, Field(14, LeBytes(h.vendorVersion, 2)), fs);
    fs := Write(out, Field(16, LeBytes(h.metadataSize, 4)), fs);
    fs := Write(out, Field(20, LeBytes(h.sectorSize, 4)), fs);
    fs := Write(out, Field(24, LeBytes(h.headerReplicas, 1)), fs);
    fs := Write(out, Field(25, LeBytes(h.footerReplicas, 1)), fs);
    fs := Write(out, Field(32, h.volumeId), fs);
    fs := Write(out, Field(48, salt), fs);
    fs := Write(out, Field(304, h.vendorReserved), fs);
    assert fs == HeaderFields(h, salt);
  }

  lemma PutNothing(b: Bytes)
    ensures PutAll(b, []) == b
  {
  }

  method WritePayload(u: Unsealed, out: array<bv8>)
    requires out.Length == PAYLOAD_SIZE
    modifies out
    ensures out[..] == Payload(u)
  {
    hide PutAll, LeBytes;
    Fill(out);
    ghost var fs := [];
    PutNothing(Zeros(PAYLOAD_SIZE));
    fs := Write(out, Field(0, SIGNATURE), fs);
    fs := Write(out, Field(16, LeBytes(u.offset, 8)), fs);
    fs := Write(out, Field(24, LeBytes(u.state.AsWord(), 2)), fs);
    fs := Write(out, Field(32, u.secrets.fvekKey1), fs);
    fs := Write(out, Field(64, u.secrets.fvekKey2), fs);
    assert fs == PayloadFields(u);
  }

  /** Seal, authenticate and checksum a block whose header is already in place. */
  method Finish(p: Primitives, h: Header, u: Unsealed, salt: Block, vmk: Bytes, k: DerivedKeys, enc: Bytes,
                out: array<bv8>)
    requires out.Length == BLOCK_SIZE && k == DeriveKeys(p, h.volumeId, salt, vmk) && enc == SealedPayload(p, k, u)
    requires Fit(HeaderFields(h, salt), BLOCK_SIZE) && out[..] == PutAll(Zeros(BLOCK_SIZE), HeaderFields(h, salt))
    modifies out
    ensures out[..] == Encode(p, h, u, salt, vmk)
  {
    hide PutAll, LeBytes, HeaderFields, DeriveKeys, SealedPayload;
    ghost var fs := Write(out, Field(64, enc), HeaderFields(h, salt));
    fs := Write(out, Field(192, p.hmac(k.mac, enc)), fs);
    assert fs == BodyFields(p, h, u, salt, vmk);
    assert out[..CRC_END] == out[..][..CRC_END];
    CopyInto(out, Field(CRC_END, LeBytes(p.crc32(out[..CRC_END]), 4)));
  }

  /** `JvckHeader::encode` filling the caller's buffer. */
  method EncodeInto(p: Primitives, h: Header, u: Unsealed, salt: Block, vmk: Bytes, out: array<bv8>)
    requires out.Length == BLOCK_SIZE
    modifies out
    ensures out[..] == Encode(p, h, u, salt, vmk)
  {
    hide Encode, DeriveKeys, CbcEncrypt;
    WriteHeader(h, salt, out);
    var plain := new bv8[PAYLOAD_SIZE];
    WritePayload(u, plain);
    var k := DeriveKeys(p, h.volumeId, salt, vmk);
    var enc := CbcEncrypt(p, k.enc, k.iv, plain[..]);
    Finish(p, h, u, salt, vmk, k, enc, out);
  }
}
