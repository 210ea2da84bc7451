/** Receipt keys: the length-prefixed pre-image and what an equal key says about two jobs. */
module Receipts {
  import opened Common
  import opened Fingerprints

  // ---- length-prefixed encoding

  /** n in big-endian order, `width` bytes. */
  function BigEndian(n: nat, width: nat): (bytes: Bytes)
    ensures |bytes| == width
  {
    if width == 0 then [] else BigEndian(n / 256, width - 1) + [n % 256]
  }

  function FromBigEndian(bytes: Bytes): nat {
    if bytes == [] then 0 else 256 * FromBigEndian(bytes[..|bytes| - 1]) + bytes[|bytes| - 1]
  }

  function Power256(width: nat): nat {
    if width == 0 then 1 else 256 * Power256(width - 1)
  }

  lemma {:induction false} BigEndianRoundTrip(n: nat, width: nat)
    requires n < Power256(width)
    ensures FromBigEndian(BigEndian(n, width)) == n
  {
    if width > 0 {
      BigEndianRoundTrip(n / 256, width - 1);
      assert BigEndian(n, width)[..width - 1] == BigEndian(n / 256, width - 1);
    }
  }

  /** A Rust string: its byte length fits isize, so the u64 conversion of hash_part never falls back. */
  predicate IsText(bytes: Bytes) {
    |bytes| <= I64_MAX
  }

  /** hash_part */
  function HashPart(part: Bytes): Bytes {
    BigEndian(if |part| <= U64_MAX then |part| else U64_MAX, 8) + part
  }

  function Encode(parts: seq<Bytes>): Bytes {
    if parts == [] then [] else HashPart(parts[0]) + Encode(parts[1..])
  }

  function Decode(bytes: Bytes): Option<seq<Bytes>>
    decreases |bytes|
  {
    if bytes == [] then Some([])
    else if |bytes| < 8 then None
    else
      var n := FromBigEndian(bytes[..8]);
      if |bytes| < 8 + n then None
      else
        var rest := Decode(bytes[8 + n..]);
        if rest.None? then None else Some([bytes[8..8 + n]] + rest.value)
  }

  lemma LengthFits(n: nat)
    requires n <= I64_MAX
    ensures FromBigEndian(BigEndian(n, 8)) == n
  {
    assert Power256(4) == 0x1_0000_0000;
    assert Power256(8) == U64_MAX + 1;
    BigEndianRoundTrip(n, 8);
  }

  /** Length-prefixed parts read back uniquely, for any number of arbitrary strings. */
  lemma {:induction false} DecodeInvertsEncode(parts: seq<Bytes>)
    requires forall i :: 0 <= i < |parts| ==> IsText(parts[i])
    ensures Decode(Encode(parts)) == Some(parts)
  {
    if parts != [] {
      var part, rest := parts[0], Encode(parts[1..]);
      DecodeInvertsEncode(parts[1..]);
      LengthFits(|part|);
      hide BigEndian, Power256, FromBigEndian;
      var bytes := Encode(parts);
      assert bytes[..8] == BigEndian(|part|, 8);
      assert bytes[8..8 + |part|] == part && bytes[8 + |part|..] == rest;
      assert parts == [part] + parts[1..];
    }
  }

  // ---- receipt keys

  datatype Job = Job(tenant: Bytes, application: Bytes, idempotencyKey: Bytes, provider: ProviderKind, target: Target)

  predicate TextualJob(job: Job) {
    IsText(job.tenant) && IsText(job.application) && IsText(job.idempotencyKey)
  }

  const KEY_DOMAIN: Bytes := Ascii("fanwaave-delivery-receipt-v1") + NUL

  const RECEIPT_KEY_PREFIX: Bytes := Ascii("receipt:v1:")

  predicate Digests(digest: Digest, job: Job) {
    |digest(Preimage(job.target))| == 32
  }

  function KeyParts(digest: Digest, job: Job): seq<Bytes>
    requires Digests(digest, job)
  {
    [job.tenant, job.application, job.idempotencyKey, ProviderName(job.provider), Fingerprint(digest, job.target)]
  }

  function KeyPreimage(digest: Digest, job: Job): Bytes
    requires Digests(digest, job)
  {
    KEY_DOMAIN + Encode(KeyParts(digest, job))
  }

  function ReceiptKey(digest: Digest, job: Job): Bytes
    requires Digests(digest, job)
  {
    RECEIPT_KEY_PREFIX + Hex(digest(KeyPreimage(digest, job)))
  }

  predicate SameScope(digest: Digest, a: Job, b: Job)
    requires Digests(digest, a) && Digests(digest, b)
  {
    && a.tenant == b.tenant
    && a.application == b.application
    && a.idempotencyKey == b.idempotencyKey
    && a.provider == b.provider
    && Fingerprint(digest, a.target) == Fingerprint(digest, b.target)
  }

  lemma ProviderNamesDiffer(a: ProviderKind, b: ProviderKind)
    requires ProviderName(a) == ProviderName(b)
    ensures a == b
  {
    assert ProviderName(FcmKind)[0] == 102 && ProviderName(ApnsKind)[0] == 97;
    assert ProviderName(ExpoKind)[0] == 101 && ProviderName(WebPushKind)[0] == 119;
  }

  lemma PreimagesTellScopesApart(digest: Digest, a: Job, b: Job)
    requires Digests(digest, a) && Digests(digest, b) && TextualJob(a) && TextualJob(b)
    requires KeyPreimage(digest, a) == KeyPreimage(digest, b)
    ensures SameScope(digest, a, b)
  {
    hide Fingerprint;
    var x, y := KeyParts(digest, a), KeyParts(digest, b);
    assert KeyPreimage(digest, a)[|KEY_DOMAIN|..] == Encode(x);
    assert KeyPreimage(digest, b)[|KEY_DOMAIN|..] == Encode(y);
    FingerprintIsText(digest, a.target);
    FingerprintIsText(digest, b.target);
    DecodeInvertsEncode(x);
    DecodeInvertsEncode(y);
    assert x[0] == y[0] && x[1] == y[1] && x[2] == y[2] && x[3] == y[3] && x[4] == y[4];
    ProviderNamesDiffer(a.provider, b.provider);
  }

  /** The scope is hashed in this order, each part readable from the bytes behind the domain. */
  lemma KeyPreimageReadsBack(digest: Digest, job: Job)
    requires Digests(digest, job) && TextualJob(job)
    ensures KEY_DOMAIN <= KeyPreimage(digest, job)
    ensures Decode(KeyPreimage(digest, job)[|KEY_DOMAIN|..])
         == Some([job.tenant, job.application, job.idempotencyKey, ProviderName(job.provider),
                  Fingerprint(digest, job.target)])
  {
    hide Fingerprint;
    FingerprintIsText(digest, job.target);
    hide ProviderName;
    ProviderNameIsText(job.provider);
    DecodeInvertsEncode(KeyParts(digest, job));
  }

  lemma ProviderNameIsText(kind: ProviderKind)
    ensures IsText(ProviderName(kind))
  {
  }

  lemma FingerprintIsText(digest: Digest, target: Target)
    requires |digest(Preimage(target))| == 32
    ensures IsText(Fingerprint(digest, target))
    ensures forall kind :: IsText(ProviderName(kind))
  {
  }

  /** If the digest does not collide on the two pre-images, equal receipt keys mean exactly equal scopes. */
  lemma KeysIdentifyScopes(digest: Digest, a: Job, b: Job)
    requires Digests(digest, a) && Digests(digest, b) && TextualJob(a) && TextualJob(b)
    requires digest(KeyPreimage(digest, a)) == digest(KeyPreimage(digest, b)) ==> KeyPreimage(digest, a) == KeyPreimage(digest, b)
    ensures ReceiptKey(digest, a) == ReceiptKey(digest, b) <==> SameScope(digest, a, b)
  {
    hide KeyPreimage, Fingerprint, SameScope, Hex;
    var x, y := digest(KeyPreimage(digest, a)), digest(KeyPreimage(digest, b));
    if ReceiptKey(digest, a) == ReceiptKey(digest, b) {
      assert ReceiptKey(digest, a)[|RECEIPT_KEY_PREFIX|..] == Hex(x);
      assert ReceiptKey(digest, b)[|RECEIPT_KEY_PREFIX|..] == Hex(y);
      HexIsInjective(x, y);
      PreimagesTellScopesApart(digest, a, b);
    }
    if SameScope(digest, a, b) {
      ScopeDeterminesPreimage(digest, a, b);
    }
  }

  lemma ScopeDeterminesPreimage(digest: Digest, a: Job, b: Job)
    requires Digests(digest, a) && Digests(digest, b) && SameScope(digest, a, b)
    ensures KeyPreimage(digest, a) == KeyPreimage(digest, b)
  {
  }
}
