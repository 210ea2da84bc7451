/** Target fingerprints: the NUL-delimited pre-image of a target, and the text derived from its digest. */
module Fingerprints {
  import opened Common

  type Byte = b: int | 0 <= b < 256

  type Bytes = seq<Byte>

  predicate IsAscii(s: string) {
    forall i :: 0 <= i < |s| ==> s[i] < 128 as char
  }

  function Ascii(s: string): (bytes: Bytes)
    requires IsAscii(s)
    ensures |bytes| == |s|
  {
    seq(|s|, i requires 0 <= i < |s| => s[i] as int)
  }

  datatype ProviderKind = FcmKind | ApnsKind | ExpoKind | WebPushKind

  datatype Environment = Production | Sandbox

  datatype Target =
    | Fcm(token: Bytes)
    | Apns(token: Bytes, environment: Environment)
    | Expo(token: Bytes)
    | WebPush(endpoint: Bytes, p256dh: Bytes, auth: Bytes)

  function ProviderName(kind: ProviderKind): Bytes {
    match kind
    case FcmKind => Ascii("fcm")
    case ApnsKind => Ascii("apns")
    case ExpoKind => Ascii("expo")
    case WebPushKind => Ascii("web_push")
  }

  function ProviderOf(target: Target): ProviderKind {
    match target
    case Fcm(_) => FcmKind
    case Apns(_, _) => ApnsKind
    case Expo(_) => ExpoKind
    case WebPush(_, _, _) => WebPushKind
  }

  function EnvironmentName(environment: Environment): Bytes {
    match environment
    case Production => Ascii("production")
    case Sandbox => Ascii("sandbox")
  }

  /** The names as they are hashed, byte by byte. */
  lemma NamesAreSpelled()
    ensures ProviderName(FcmKind) == [102, 99, 109] && ProviderName(ApnsKind) == [97, 112, 110, 115]
    ensures ProviderName(ExpoKind) == [101, 120, 112, 111]
    ensures ProviderName(WebPushKind) == [119, 101, 98, 95, 112, 117, 115, 104]
    ensures EnvironmentName(Production) == [112, 114, 111, 100, 117, 99, 116, 105, 111, 110]
    ensures EnvironmentName(Sandbox) == [115, 97, 110, 100, 98, 111, 120]
  {
  }

  /** fingerprint_material: the parts that follow the provider name. */
  function Parts(target: Target): seq<Bytes> {
    match target
    case Fcm(token) => [token]
    case Apns(token, environment) => [EnvironmentName(environment), token]
    case Expo(token) => [token]
    case WebPush(endpoint, p256dh, auth) => [endpoint, p256dh, auth]
  }

  const NUL: Bytes := [0]

  const DOMAIN: Bytes := Ascii("push-target-v1") + NUL

  /** The fold over the parts: each is absorbed after a NUL. */
  function Absorb(hashed: Bytes, parts: seq<Bytes>): Bytes
    decreases |parts|
  {
    if parts == [] then hashed else Absorb(hashed + NUL + parts[0], parts[1..])
  }

  function Preimage(target: Target): Bytes {
    Absorb(DOMAIN + ProviderName(ProviderOf(target)), Parts(target))
  }

  // ---- reading a pre-image back

  predicate NulFree(s: Bytes) {
    0 !in s
  }

  /** What validation grants for Web Push subscription keys; the endpoint may hold anything. */
  predicate KeysNulFree(target: Target) {
    target.WebPush? ==> NulFree(target.p256dh) && NulFree(target.auth)
  }

  function LastNul(s: Bytes): Option<nat> {
    if s == [] then None
    else if s[|s| - 1] == 0 then Some(|s| - 1)
    else LastNul(s[..|s| - 1])
  }

  lemma {:induction false} LastNulSplits(s: Bytes)
    ensures LastNul(s).None? ==> NulFree(s)
    ensures LastNul(s).Some? ==>
      && LastNul(s).value < |s| && s[LastNul(s).value] == 0
      && NulFree(s[LastNul(s).value + 1..])
      && (forall i :: LastNul(s).value < i < |s| ==> s[i] != 0)
      && s == s[..LastNul(s).value] + NUL + s[LastNul(s).value + 1..]
  {
    if s != [] && s[|s| - 1] != 0 {
      var front := s[..|s| - 1];
      LastNulSplits(front);
      if LastNul(front).Some? {
        var k := LastNul(front).value;
        assert s[k + 1..] == front[k + 1..] + [s[|s| - 1]];
      }
    }
  }

  lemma {:induction false} LastNulOf(front: Bytes, back: Bytes)
    requires NulFree(back)
    ensures LastNul(front + NUL + back) == Some(|front|)
    decreases |back|
  {
    var s := front + NUL + back;
    if back != [] {
      assert s[..|s| - 1] == front + NUL + back[..|back| - 1];
      LastNulOf(front, back[..|back| - 1]);
    }
  }

  /** The Web Push parts, parsed from the right. */
  function DecodeWebPush(body: Bytes): Option<Target> {
    LastNulSplits(body);
    match LastNul(body)
    case None => None
    case Some(k) =>
      LastNulSplits(body[..k]);
      match LastNul(body[..k])
      case None => None
      case Some(j) => Some(WebPush(body[..j], body[j + 1..k], body[k + 1..]))
  }

  function Header(kind: ProviderKind): Bytes {
    DOMAIN + ProviderName(kind) + NUL
  }

  function ApnsHeader(environment: Environment): Bytes {
    Header(ApnsKind) + EnvironmentName(environment) + NUL
  }

  function Decode(preimage: Bytes): Option<Target> {
    if Header(FcmKind) <= preimage then Some(Fcm(preimage[|Header(FcmKind)|..]))
    else if ApnsHeader(Production) <= preimage then Some(Apns(preimage[|ApnsHeader(Production)|..], Production))
    else if ApnsHeader(Sandbox) <= preimage then Some(Apns(preimage[|ApnsHeader(Sandbox)|..], Sandbox))
    else if Header(ExpoKind) <= preimage then Some(Expo(preimage[|Header(ExpoKind)|..]))
    else if Header(WebPushKind) <= preimage then DecodeWebPush(preimage[|Header(WebPushKind)|..])
    else None
  }

  /** The pre-image, written out. */
  lemma PreimageShape(target: Target)
    ensures match target
      case Fcm(token) => Preimage(target) == Header(FcmKind) + token
      case Apns(token, environment) => Preimage(target) == ApnsHeader(environment) + token
      case Expo(token) => Preimage(target) == Header(ExpoKind) + token
      case WebPush(endpoint, p256dh, auth) =>
        Preimage(target) == Header(WebPushKind) + (endpoint + NUL + p256dh + NUL + auth)
  {
    var start := DOMAIN + ProviderName(ProviderOf(target));
    var parts := Parts(target);
    match target
    case Fcm(token) => AbsorbOne(start, token);
    case Apns(token, environment) =>
      AbsorbTwo(start, EnvironmentName(environment), token);
    case Expo(token) => AbsorbOne(start, token);
    case WebPush(endpoint, p256dh, auth) =>
      AbsorbThree(start, endpoint, p256dh, auth);
  }

  lemma AbsorbOne(start: Bytes, a: Bytes)
    ensures Absorb(start, [a]) == start + NUL + a
  {
    assert [a][1..] == [];
  }

  lemma AbsorbTwo(start: Bytes, a: Bytes, b: Bytes)
    ensures Absorb(start, [a, b]) == start + NUL + a + NUL + b
  {
    assert [a, b][1..] == [b];
    AbsorbOne(start + NUL + a, b);
  }

  lemma AbsorbThree(start: Bytes, a: Bytes, b: Bytes, c: Bytes)
    ensures Absorb(start, [a, b, c]) == start + NUL + (a + NUL + b + NUL + c)
  {
    assert [a, b, c][1..] == [b, c];
    AbsorbTwo(start + NUL + a, b, c);
    assert start + NUL + (a + NUL + b + NUL + c) == start + NUL + a + NUL + b + NUL + c;
  }

  lemma HeadersDiffer(kind: ProviderKind, other: ProviderKind, rest: Bytes)
    requires kind != other
    ensures !(Header(kind) <= Header(other) + rest)
  {
    assert Header(kind)[|DOMAIN|] == ProviderName(kind)[0];
    assert (Header(other) + rest)[|DOMAIN|] == ProviderName(other)[0];
  }

  lemma ApnsHeadersDiffer(rest: Bytes)
    ensures !(ApnsHeader(Production) <= ApnsHeader(Sandbox) + rest)
  {
    assert ApnsHeader(Production)[|Header(ApnsKind)|] == EnvironmentName(Production)[0];
    assert (ApnsHeader(Sandbox) + rest)[|Header(ApnsKind)|] == EnvironmentName(Sandbox)[0];
  }

  lemma HeadersOf(kind: ProviderKind, rest: Bytes)
    ensures Header(kind) <= Header(kind) + rest && (Header(kind) + rest)[|Header(kind)|..] == rest
    ensures forall other :: other != kind ==> !(Header(other) <= Header(kind) + rest)
    ensures kind != ApnsKind ==>
      forall environment :: !(ApnsHeader(environment) <= Header(kind) + rest)
  {
    forall other | other != kind
      ensures !(Header(other) <= Header(kind) + rest)
    {
      HeadersDiffer(other, kind, rest);
    }
    if kind != ApnsKind {
      forall environment
        ensures !(ApnsHeader(environment) <= Header(kind) + rest)
      {
        assert Header(ApnsKind) <= ApnsHeader(environment);
      }
    }
  }

  lemma ApnsHeadersOf(environment: Environment, rest: Bytes)
    ensures ApnsHeader(environment) <= ApnsHeader(environment) + rest
    ensures (ApnsHeader(environment) + rest)[|ApnsHeader(environment)|..] == rest
    ensures !(Header(FcmKind) <= ApnsHeader(environment) + rest)
    ensures environment.Sandbox? ==> !(ApnsHeader(Production) <= ApnsHeader(environment) + rest)
  {
    var tail := EnvironmentName(environment) + NUL + rest;
    assert ApnsHeader(environment) + rest == Header(ApnsKind) + tail;
    HeadersDiffer(FcmKind, ApnsKind, tail);
    ApnsHeadersDiffer(rest);
  }

  lemma DecodeWebPushOf(endpoint: Bytes, p256dh: Bytes, auth: Bytes)
    requires NulFree(p256dh) && NulFree(auth)
    ensures DecodeWebPush(endpoint + NUL + p256dh + NUL + auth) == Some(WebPush(endpoint, p256dh, auth))
  {
    var front := endpoint + NUL + p256dh;
    var body := front + NUL + auth;
    LastNulOf(front, auth);
    LastNulOf(endpoint, p256dh);
    assert body[..|front|] == front && body[|front| + 1..] == auth;
    assert body[|endpoint| + 1..|front|] == p256dh && body[..|endpoint|] == endpoint;
  }

  lemma DecodeOfSimple(rest: Bytes)
    ensures Decode(Header(FcmKind) + rest) == Some(Fcm(rest))
    ensures Decode(Header(ExpoKind) + rest) == Some(Expo(rest))
    ensures Decode(Header(WebPushKind) + rest) == DecodeWebPush(rest)
  {
    hide Header, ApnsHeader, DecodeWebPush;
    HeadersOf(FcmKind, rest);
    HeadersOf(ExpoKind, rest);
    HeadersOf(WebPushKind, rest);
  }

  lemma DecodeOfApns(environment: Environment, rest: Bytes)
    ensures Decode(ApnsHeader(environment) + rest) == Some(Apns(rest, environment))
  {
    hide Header, ApnsHeader, DecodeWebPush;
    ApnsHeadersOf(environment, rest);
    assert environment == Production || environment == Sandbox;
  }

  /** Whatever a target holds, its pre-image reads back as a target with NUL-free keys and the same pre-image. */
  lemma DecodeInvertsPreimage(target: Target)
    ensures Decode(Preimage(target)).Some?
    ensures KeysNulFree(Decode(Preimage(target)).value)
    ensures Preimage(Decode(Preimage(target)).value) == Preimage(target)
    ensures KeysNulFree(target) <==> Decode(Preimage(target)) == Some(target)
  {
    hide Header, ApnsHeader, Preimage, DecodeWebPush, NulFree, Decode;
    PreimageShape(target);
    match target
    case Fcm(token) => DecodeOfSimple(token);
    case Apns(token, environment) => DecodeOfApns(environment, token);
    case Expo(token) => DecodeOfSimple(token);
    case WebPush(endpoint, p256dh, auth) =>
      var body := endpoint + NUL + p256dh + NUL + auth;
      DecodeOfSimple(body);
      DecodedWebPush(endpoint, p256dh, auth);
      PreimageShape(DecodeWebPush(body).value);
      if NulFree(p256dh) && NulFree(auth) {
        DecodeWebPushOf(endpoint, p256dh, auth);
      }
  }

  lemma DecodedWebPush(endpoint: Bytes, p256dh: Bytes, auth: Bytes)
    ensures var body := endpoint + NUL + p256dh + NUL + auth;
      var decoded := DecodeWebPush(body);
      && decoded.Some? && decoded.value.WebPush?
      && NulFree(decoded.value.p256dh) && NulFree(decoded.value.auth)
      && decoded.value.endpoint + NUL + decoded.value.p256dh + NUL + decoded.value.auth == body
  {
    var body := endpoint + NUL + p256dh + NUL + auth;
    LastNulSplits(body);
    assert body[|endpoint| + 1 + |p256dh|] == 0;
    var k := LastNul(body).value;
    LastNulSplits(body[..k]);
    assert body[..k][|endpoint|] == 0;
    var j := LastNul(body[..k]).value;
    assert body[..k][j + 1..] == body[j + 1..k] && body[..k][..j] == body[..j];
  }

  /** Among targets with NUL-free keys, equal pre-images mean equal targets. */
  lemma PreimageIsInjective(a: Target, b: Target)
    requires KeysNulFree(a) && KeysNulFree(b) && Preimage(a) == Preimage(b)
    ensures a == b
  {
    DecodeInvertsPreimage(a);
    DecodeInvertsPreimage(b);
  }

  /** A target's pre-image stands for it alone, among the targets that validation admits, exactly when its keys are NUL-free. */
  lemma UnambiguousExactly(target: Target)
    ensures KeysNulFree(target) <==>
      forall other :: KeysNulFree(other) && Preimage(other) == Preimage(target) ==> other == target
  {
    DecodeInvertsPreimage(target);
    if KeysNulFree(target) {
      forall other | KeysNulFree(other) && Preimage(other) == Preimage(target)
        ensures other == target
      {
        PreimageIsInjective(other, target);
      }
    }
  }

  // ---- the fingerprint text

  function HexDigit(n: int): Byte
    requires 0 <= n < 16
  {
    if n < 10 then 48 + n else 87 + n
  }

  function Hex(bytes: Bytes): (text: Bytes)
    ensures |text| == 2 * |bytes|
  {
    if bytes == [] then [] else [HexDigit(bytes[0] / 16), HexDigit(bytes[0] % 16)] + Hex(bytes[1..])
  }

  /** Two lower-case digits a byte, the high half first. */
  lemma {:induction false} HexSpells(bytes: Bytes, i: nat)
    requires i < |bytes|
    ensures Hex(bytes)[2 * i] == "0123456789abcdef"[bytes[i] / 16] as int
    ensures Hex(bytes)[2 * i + 1] == "0123456789abcdef"[bytes[i] % 16] as int
  {
    if i > 0 {
      HexSpells(bytes[1..], i - 1);
    }
  }

  lemma {:induction false} HexIsInjective(a: Bytes, b: Bytes)
    requires Hex(a) == Hex(b)
    ensures a == b
  {
    if a != [] {
      assert Hex(a)[0] == HexDigit(a[0] / 16) && Hex(a)[1] == HexDigit(a[0] % 16);
      assert Hex(b)[0] == HexDigit(b[0] / 16) && Hex(b)[1] == HexDigit(b[0] % 16);
      assert Hex(a)[2..] == Hex(a[1..]) && Hex(b)[2..] == Hex(b[1..]);
      HexIsInjective(a[1..], b[1..]);
      assert a == [a[0]] + a[1..] && b == [b[0]] + b[1..];
    }
  }

  /** A digest function with 32-byte results; which one is not part of this model. */
  type Digest = Bytes -> Bytes

  const FINGERPRINT_HEX_LENGTH := 24

  function Colon(): Bytes {
    [58]
  }

  function Fingerprint(digest: Digest, target: Target): (text: Bytes)
    requires |digest(Preimage(target))| == 32
    ensures |text| == |ProviderName(ProviderOf(target))| + 1 + 24
  {
    ProviderName(ProviderOf(target)) + Colon() + Hex(digest(Preimage(target)))[..FINGERPRINT_HEX_LENGTH]
  }

  /** If the first 12 digest bytes of the two pre-images collide only when the pre-images are equal, fingerprints identify targets. */
  lemma FingerprintsIdentifyTargets(digest: Digest, a: Target, b: Target)
    requires |digest(Preimage(a))| == |digest(Preimage(b))| == 32
    requires KeysNulFree(a) && KeysNulFree(b)
    requires digest(Preimage(a))[..12] == digest(Preimage(b))[..12] ==> Preimage(a) == Preimage(b)
    ensures Fingerprint(digest, a) == Fingerprint(digest, b) <==> a == b
  {
    if Fingerprint(digest, a) == Fingerprint(digest, b) {
      var x, y := digest(Preimage(a)), digest(Preimage(b));
      HexPrefix(x, 12);
      HexPrefix(y, 12);
      var f, g := Fingerprint(digest, a), Fingerprint(digest, b);
      assert f[|f| - 24..] == Hex(x)[..24] && g[|g| - 24..] == Hex(y)[..24];
      HexIsInjective(x[..12], y[..12]);
      PreimageIsInjective(a, b);
    }
  }

  lemma {:induction false} HexPrefix(bytes: Bytes, n: nat)
    requires n <= |bytes|
    ensures Hex(bytes)[..2 * n] == Hex(bytes[..n])
  {
    if n > 0 {
      HexPrefix(bytes[1..], n - 1);
      assert bytes[..n][1..] == bytes[1..][..n - 1];
    }
  }
}
