/** The Go SDK's own encoder, key derivation and sector cipher, proved equal to the Rust forms. */
module GoSdk {
  import opened Bytes
  import opened Metadata
  import opened Standards
  import Xts
  import Gf128

  /** `hkdfExpand`: whole HMAC blocks until enough, then cut; the counter octet wraps. */
  method HkdfExpand(p: Primitives, prk: Key, info: Bytes, length: nat) returns (out: Bytes)
    ensures out == Expand(p, prk, info, length)
    ensures forall i :: 0 <= i < 255 && 32 * i + 32 <= length ==> ExpandedAt(p, prk, info, out, i)
  {
    hide Counter, ExpandedAt, Okm, HkdfT, Expand;
    OkmStarts(p, prk, info);
    out := [];
    var prev: Bytes := [];
    var counter := 1;
    ghost var n := 0;
    while |out| < length
      invariant counter == (n + 1) % 256
      invariant out == Okm(p, prk, info, n) && prev == HkdfT(p, prk, info, n)
      invariant n > 0 ==> 32 * (n - 1) < length
      decreases length + 32 - |out|
    {
      CounterWraps(n + 1);
      OkmGrows(p, prk, info, n);
      prev := p.hmac(prk, prev + info + [Counter(counter)]);
      out := out + prev;
      counter := (counter + 1) % 256;
      n := n + 1;
    }
    assert n == (length + 31) / 32;
    Cut(p, prk, info, length);
    out := out[..length];
    ExpandedThroughout(p, prk, info, length);
  }

  lemma OkmStarts(p: Primitives, prk: Key, info: Bytes)
    ensures Okm(p, prk, info, 0) == [] == HkdfT(p, prk, info, 0)
  {
  }

  lemma OkmGrows(p: Primitives, prk: Key, info: Bytes, n: nat)
    ensures |Okm(p, prk, info, n + 1)| == 32 * (n + 1)
    ensures HkdfT(p, prk, info, n + 1) == p.hmac(prk, HkdfT(p, prk, info, n) + info + [Counter(n + 1)])
    ensures Okm(p, prk, info, n + 1) == Okm(p, prk, info, n) + HkdfT(p, prk, info, n + 1)
  {
    hide Counter;
  }

  lemma Cut(p: Primitives, prk: Key, info: Bytes, length: nat)
    ensures length <= |Okm(p, prk, info, (length + 31) / 32)|
    ensures Expand(p, prk, info, length) == Okm(p, prk, info, (length + 31) / 32)[..length]
  {
    hide Counter, HkdfT;
  }

  lemma ExpandedThroughout(p: Primitives, prk: Key, info: Bytes, length: nat)
    ensures forall i :: 0 <= i < 255 && 32 * i + 32 <= length ==>
                          ExpandedAt(p, prk, info, Expand(p, prk, info, length), i)
  {
    hide Expand, ExpandedAt;
    forall i | 0 <= i < 255 && 32 * i + 32 <= length
      ensures ExpandedAt(p, prk, info, Expand(p, prk, info, length), i)
    {
      ExpandAt(p, prk, info, length, i);
    }
  }

  method GoDeriveKeys(p: Primitives, volumeId: Block, salt: Block, vmk: Bytes) returns (k: DerivedKeys)
    ensures k == DeriveKeys(p, volumeId, salt, vmk)
  {
    hide Expand;
    var prk := p.hmac(volumeId + salt, vmk);
    var mac := HkdfExpand(p, prk, INFO_MAC, 32);
    var enc := HkdfExpand(p, prk, INFO_ENC, 32);
    var iv := HkdfExpand(p, prk, INFO_IV, 16);
    k := DerivedKeys(mac, enc, iv);
  }

  /** The SDK's payload has no state field: bytes 24..26 keep their initial zeros. */
  method GoPayload(fvek1: Key, fvek2: Key, offset: Word64, plain: array<bv8>)
    requires plain.Length == PAYLOAD_SIZE
    modifies plain
    ensures plain[..] == Payload(Unsealed(offset, Encrypt, Secrets(fvek1, fvek2)))
  {
    hide PutAll, LeBytes;
    Fill(plain);
    ghost var fs := [];
    PutNothing(Zeros(PAYLOAD_SIZE));
    fs := Write(plain, Field(0, SIGNATURE), fs);
    fs := Write(plain, Field(16, LeBytes(offset, 8)), fs);
    LeZero(2);
    StateAlreadyZero(fs);
    fs := fs + [Field(24, LeBytes(0, 2))];
    fs := Write(plain, Field(32, fvek1), fs);
    fs := Write(plain, Field(64, fvek2), fs);
    assert fs == PayloadFields(Unsealed(offset, Encrypt, Secrets(fvek1, fvek2)));
  }

  lemma StateAlreadyZero(fs: seq<Field>)
    requires |fs| == 2 && fs[0].off == 0 && |fs[0].bytes| == 4 && fs[1].off == 16 && |fs[1].bytes| == 8
    ensures Fit(fs, PAYLOAD_SIZE) && Fit(fs + [Field(24, Zeros(2))], PAYLOAD_SIZE)
    ensures PutAll(Zeros(PAYLOAD_SIZE), fs + [Field(24, Zeros(2))]) == PutAll(Zeros(PAYLOAD_SIZE), fs)
  {
    hide PutAll;
    var z, f := Zeros(PAYLOAD_SIZE), Field(24, Zeros(2));
    PutAllSnoc(z, fs, f);
    GetUntouched(z, fs, 24, 2);
    var b := PutAll(z, fs);
    assert b[24..26] == Get(b, 24, 2) == Zeros(2);
    assert Put(b, f) == b[..24] + b[24..26] + b[26..] == b;
  }

  /** Ciphertext, then the HMAC over what is now in the block, then the checksum over its first 508 bytes. */
  method GoSeal(p: Primitives, h: Header, u: Unsealed, salt: Block, vmk: Bytes, k: DerivedKeys, enc: Bytes,
                out: array<bv8>)
    requires out.Length == BLOCK_SIZE && k == DeriveKeys(p, h.volumeId, salt, vmk) && enc == SealedPayload(p, k, u)
    requires Fit(HeaderFields(h, salt), BLOCK_SIZE) && out[..] == PutAll(Zeros(BLOCK_SIZE), HeaderFields(h, salt))
    modifies out
    ensures out[..] == Encode(p, h, u, salt, vmk)
  {
    hide PutAll, LeBytes, HeaderFields, DeriveKeys, SealedPayload;
    ghost var fs := Write(out, Field(64, enc), HeaderFields(h, salt));
    LastField(Zeros(BLOCK_SIZE), HeaderFields(h, salt), Field(64, enc));
    assert out[64..192] == Get(out[..], 64, 128);
    fs := Write(out, Field(192, p.hmac(k.mac, out[64..192])), fs);
    assert fs == BodyFields(p, h, u, salt, vmk);
    assert out[..CRC_END] == out[..][..CRC_END];
    CopyInto(out, Field(CRC_END, LeBytes(p.crc32(out[..CRC_END]), 4)));
  }

  lemma LastField(b: Bytes, fs: seq<Field>, f: Field)
    requires Fit(fs + [f], |b|)
    ensures f.End() <= |b| && Get(PutAll(b, fs + [f]), f.off, |f.bytes|) == f.bytes
  {
    hide PutAll;
    assert (fs + [f])[|fs|] == f;
    forall i | 0 <= i < |fs|
      ensures fs[i].End() <= |b|
    {
      assert (fs + [f])[i] == fs[i];
    }
    PutAllSnoc(b, fs, f);
    PutGet(PutAll(b, fs), f);
  }

  lemma PutGet(b: Bytes, f: Field)
    requires f.End() <= |b|
    ensures Get(Put(b, f), f.off, |f.bytes|) == f.bytes
  {
  }

  /** `EncodeMetadataBlock` writes the same 512 bytes as the Rust encoder in the Encrypt state. Both languages write
      the plaintext header field by field at the same offsets in the same order, so `WriteHeader` serves both and
      that part agrees by construction; key derivation, payload and sealing are the SDK's own. */
  method EncodeMetadataBlock(p: Primitives, h: Header, fvek1: Key, fvek2: Key, offset: Word64, salt: Block, vmk: Bytes)
    returns (out: array<bv8>)
    ensures fresh(out) && out[..] == Encode(p, h, Unsealed(offset, Encrypt, Secrets(fvek1, fvek2)), salt, vmk)
  {
    hide Encode, CbcEncrypt, DeriveKeys, Payload;
    out := new bv8[BLOCK_SIZE];
    WriteHeader(h, salt, out);
    var plain := new bv8[PAYLOAD_SIZE];
    GoPayload(fvek1, fvek2, offset, plain);
    var k := GoDeriveKeys(p, h.volumeId, salt, vmk);
    var enc := CbcEncrypt(p, k.enc, k.iv, plain[..]);
    GoSeal(p, h, Unsealed(offset, Encrypt, Secrets(fvek1, fvek2)), salt, vmk, k, enc, out);
  }

  /** `EncryptSector`: one block at a time, the tweak advanced in place byte by byte. */
  method EncryptSector(c: Xts.Cipher, sectorNumber: nat, sector: array<bv8>) returns (ok: bool)
    modifies sector
    ensures ok <==> sector.Length > 0 && sector.Length % 16 == 0
    ensures sector[..] == if ok then Xts.EncryptSector(c, sectorNumber, old(sector[..])) else old(sector[..])
    ensures ok && sectorNumber < Pow256(16) ==>
              forall j :: 0 <= j < sector.Length / 16 ==>
                XtsBlock(c.encrypt1, c.encrypt2, sectorNumber, j, Get(old(sector[..]), 16 * j, 16),
                    Get(sector[..], 16 * j, 16))
  {
    hide XtsBlock, Xts.Sequential, Gf128.MulAlpha, Xts.Progress;
    if sector.Length == 0 || sector.Length % 16 != 0 {
      return false;
    }
    ok := true;
    ghost var s := sector[..];
    ghost var first := Xts.FirstTweak(c, sectorNumber);
    var tweak := new bv8[16];
    CopyInto(tweak, Field(0, c.encrypt2(LeBytes(sectorNumber, 16))));
    var i := 0;
    Xts.ProgressStart(c.encrypt1, first, s);
    assert tweak[..] == first;
    while i < sector.Length
      invariant i % 16 == 0 && i <= sector.Length
      invariant Xts.Progress(c.encrypt1, first, s, tweak[..], sector[..], i / 16)
      modifies sector, tweak
    {
      assert sector[0..sector.Length] == sector[..];
      ghost var next := Xts.TailStep(c.encrypt1, first, s, tweak[..], sector, 0, sector.Length, i / 16);
      assert sector[0..sector.Length] == sector[..];
      Gf128.XtsGfMul(tweak);
      assert tweak[..] == next;
      i := i + 16;
    }
    Xts.ProgressEnd(c.encrypt1, first, s, tweak[..], sector[..], i / 16);
    if sectorNumber < Pow256(16) {
      forall j | 0 <= j < sector.Length / 16
        ensures XtsBlock(c.encrypt1, c.encrypt2, sectorNumber, j, Get(s, 16 * j, 16), Get(sector[..], 16 * j, 16))
      {
        SectorBlocks(c, sectorNumber, s, j);
      }
    }
  }
}
