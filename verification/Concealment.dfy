/** Concealment and deconcealment of the subscription identifier with ECIES (section C.3
    of 3GPP TS 33.501).  Curves, hash, MAC and cipher are parameters about which only
    the laws in `Lawful` are assumed. */
module Concealment {
  import opened Base
  import opened HexText
  import opened SuciText

  type Bytes = seq<byte>
  type Private = nat

  datatype Curve = Curve(public: Private -> Bytes, agree: (Private, Bytes) -> Option<Bytes>)

  datatype Crypto = Crypto(
    x25519: Curve, p256: Curve,
    compress: Bytes -> Option<Bytes>, decompress: Bytes -> Option<Bytes>,
    sha256: Bytes -> Bytes, hmac: (Bytes, Bytes) -> Bytes, keystream: (Bytes, Bytes, nat) -> Bytes)

  /** Key agreement commutes. */
  ghost predicate Commutes(c: Curve) {
    forall a, b :: c.agree(a, c.public(b)) == c.agree(b, c.public(a))
  }

  /** Output sizes, commutativity, and that decompression undoes point compression. */
  ghost predicate Lawful(c: Crypto) {
    && Commutes(c.x25519) && Commutes(c.p256)
    && (forall a :: |c.x25519.public(a)| == 32)
    && (forall a :: |c.p256.public(a)| == 65 && c.p256.public(a)[0] == 4)
    && (forall a :: CompressionOk(c, c.p256.public(a)))
    && (forall x :: |c.sha256(x)| == 32)
    && (forall x, k :: |c.hmac(x, k)| == 32)
    && (forall k, iv, n :: |c.keystream(k, iv, n)| == n)
  }

  ghost predicate CompressionOk(c: Crypto, point: Bytes) {
    var z := c.compress(point);
    && z.Some? && |z.value| == 33 && (z.value[0] == 2 || z.value[0] == 3)
    && c.decompress(z.value) == Some(point)
  }

  // ---------- key derivation, cipher, MAC ----------

  /** The four octets of a 32-bit counter, the most significant one first. */
  function Counter(n: nat): Bytes { [Octet(n / 0x100_0000), Octet(n / 0x1_0000), Octet(n / 0x100), Octet(n)] }

  function Octet(n: nat): byte { (n % 0x100) as bv8 }

  function Kdf(c: Crypto, shared: Bytes, pub: Bytes, rounds: nat): Bytes {
    if rounds == 0 then [] else Kdf(c, shared, pub, rounds - 1) + c.sha256(shared + Counter(rounds % U32) + pub)
  }

  /** `AnsiX963KDF`: one digest per `hashLen` octets of both keys.  Digests of 32 octets cover
      the keys whenever the caller states no longer ones. */
  method AnsiX963Kdf(c: Crypto, shared: Bytes, pub: Bytes, encKeyLen: nat, macKeyLen: nat, hashLen: nat)
    returns (key: Bytes)
    requires Lawful(c) && hashLen > 0
    ensures key == Kdf(c, shared, pub, (encKeyLen + macKeyLen + hashLen - 1) / hashLen)
    ensures |key| == 32 * ((encKeyLen + macKeyLen + hashLen - 1) / hashLen)
    ensures hashLen <= 32 ==> encKeyLen + macKeyLen <= |key|
  {
    hide Counter, Lawful;
    key := [];
    var rounds := (encKeyLen + macKeyLen + hashLen - 1) / hashLen;
    var counter := 1 % U32;
    for i := 0 to rounds
      invariant counter == (i + 1) % U32
      invariant key == Kdf(c, shared, pub, i)
    {
      key := key + c.sha256(shared + Counter(counter) + pub);
      NextCounter(i + 1);
      counter := (counter + 1) % U32;
    }
    KdfLength(c, shared, pub, rounds);
    RoundsCover(encKeyLen + macKeyLen, hashLen);
  }

  lemma NextCounter(n: nat)
    ensures (n % U32 + 1) % U32 == (n + 1) % U32
  {}

  lemma RoundsCover(len: nat, hashLen: nat)
    requires 0 < hashLen
    ensures hashLen <= 32 ==> len <= 32 * ((len + hashLen - 1) / hashLen)
  {
    var rounds := (len + hashLen - 1) / hashLen;
    assert hashLen * rounds >= len;
    if hashLen <= 32 { assert 32 * rounds >= hashLen * rounds; }
  }

  const ENC_KEY_LEN := 16
  const ICB_LEN := 16
  const MAC_KEY_LEN := 32
  const MAC_LEN := 8

  datatype Keys = Keys(enc: Bytes, icb: Bytes, mac: Bytes)

  lemma {:induction false} KdfLength(c: Crypto, shared: Bytes, pub: Bytes, rounds: nat)
    requires Lawful(c)
    ensures |Kdf(c, shared, pub, rounds)| == 32 * rounds
  {
    hide Counter;
    if rounds > 0 { KdfLength(c, shared, pub, rounds - 1); }
  }

  lemma KdfStep(c: Crypto, shared: Bytes, pub: Bytes, rounds: nat)
    requires 0 < rounds < U32
    ensures Kdf(c, shared, pub, rounds) == Kdf(c, shared, pub, rounds - 1) + c.sha256(shared + Counter(rounds) + pub)
  {
    hide Counter;
  }

  lemma LastBlock(a: Bytes, b: Bytes)
    ensures (a + b)[|a|..|a| + |b|] == b
  {}

  /** Block `i` of the key material is the digest of the secret, the counter `i + 1` and the key. */
  lemma {:induction false} KdfBlock(c: Crypto, shared: Bytes, pub: Bytes, rounds: nat, i: nat)
    requires Lawful(c) && i < rounds < U32
    ensures |Kdf(c, shared, pub, rounds)| == 32 * rounds
    ensures Kdf(c, shared, pub, rounds)[32 * i..32 * i + 32] == c.sha256(shared + Counter(i + 1) + pub)
    decreases rounds
  {
    hide Counter, Kdf;
    KdfLength(c, shared, pub, rounds);
    KdfLength(c, shared, pub, rounds - 1);
    KdfStep(c, shared, pub, rounds);
    var prev, next := Kdf(c, shared, pub, rounds - 1), c.sha256(shared + Counter(rounds) + pub);
    if i < rounds - 1 {
      KdfBlock(c, shared, pub, rounds - 1, i);
      assert (prev + next)[32 * i..32 * i + 32] == prev[32 * i..32 * i + 32];
    } else {
      LastBlock(prev, next);
    }
  }

  /** The key split both sides use. */
  function Derive(c: Crypto, shared: Bytes, pub: Bytes): Keys
    requires Lawful(c)
  {
    KdfLength(c, shared, pub, 2);
    var k := Kdf(c, shared, pub, 2);
    Keys(k[..ENC_KEY_LEN], k[ENC_KEY_LEN..ENC_KEY_LEN + ICB_LEN], k[|k| - MAC_KEY_LEN..])
  }

  function Xor(a: Bytes, b: Bytes): (r: Bytes)
    requires |a| == |b|
    ensures |r| == |a|
  {
    seq(|a|, i requires 0 <= i < |a| => a[i] ^ b[i])
  }

  lemma XorUndoes(a: Bytes, b: Bytes)
    requires |a| == |b|
    ensures Xor(Xor(a, b), b) == a
  {
    forall i | 0 <= i < |a| ensures Xor(Xor(a, b), b)[i] == a[i] { XorByte(a[i], b[i]); }
  }

  lemma XorByte(x: bv8, y: bv8) ensures (x ^ y) ^ y == x {}

  function Ctr(c: Crypto, k: Keys, text: Bytes): (r: Bytes)
    requires Lawful(c)
    ensures |r| == |text|
  {
    Xor(text, c.keystream(k.enc, k.icb, |text|))
  }

  function Mac(c: Crypto, k: Keys, text: Bytes): (r: Bytes)
    requires Lawful(c)
    ensures |r| == MAC_LEN
  {
    c.hmac(text, k.mac)[..MAC_LEN]
  }

  /** Ciphertext followed by its MAC. */
  function Seal(c: Crypto, shared: Bytes, pub: Bytes, plain: Bytes): (r: Bytes)
    requires Lawful(c)
    ensures |r| == |plain| + MAC_LEN
  {
    var k := Derive(c, shared, pub);
    Ctr(c, k, plain) + Mac(c, k, Ctr(c, k, plain))
  }

  /** `decryptWithKdf`. */
  function Open(c: Crypto, shared: Bytes, pub: Bytes, cipher: Bytes, mac: Bytes): Option<Bytes>
    requires Lawful(c)
  {
    var k := Derive(c, shared, pub);
    if Mac(c, k, cipher) != mac then None else Some(Ctr(c, k, cipher))
  }

  lemma OpenUndoesSeal(c: Crypto, shared: Bytes, pub: Bytes, plain: Bytes)
    requires Lawful(c)
    ensures
      var s := Seal(c, shared, pub, plain);
      Open(c, shared, pub, s[..|plain|], s[|plain|..]) == Some(plain)
  {
    hide Derive, Lawful, Xor;
    var k := Derive(c, shared, pub);
    var text := Ctr(c, k, plain);
    var s := Seal(c, shared, pub, plain);
    assert s[..|plain|] == text && s[|plain|..] == Mac(c, k, text);
    XorUndoes(plain, KeystreamOf(c, k, |plain|));
  }

  function KeystreamOf(c: Crypto, k: Keys, n: nat): (r: Bytes)
    requires Lawful(c)
    ensures |r| == n
  {
    c.keystream(k.enc, k.icb, n)
  }

  // ---------- protection schemes ----------

  datatype Outcome<T> = Ok(value: T) | Error | Panic

  /** `profileAEncrypt` with the ephemeral key as an input. */
  function EncryptA(c: Crypto, msin: string, home: Bytes, ephemeral: Private): Outcome<string>
    requires Lawful(c)
  {
    var shared := c.x25519.agree(ephemeral, home);
    if shared.None? then Error
    else if msin == "" then Panic
    else
      var plain := HexDecode(Tbcd(msin));
      var pub := c.x25519.public(ephemeral);
      if plain.None? then Error else Ok(HexEncode(pub + Seal(c, shared.value, pub, plain.value)))
  }

  /** `profileBEncrypt`: the transmitted key is the compressed point. */
  function EncryptB(c: Crypto, msin: string, home: Bytes, ephemeral: Private): Outcome<string>
    requires Lawful(c)
  {
    var shared := c.p256.agree(ephemeral, home);
    var pub := c.compress(c.p256.public(ephemeral));
    if shared.None? || pub.None? then Error
    else if msin == "" then Panic
    else
      var plain := HexDecode(Tbcd(msin));
      if plain.None? then Error
      else Ok(HexEncode(pub.value + Seal(c, shared.value, pub.value, plain.value)))
  }

  /** Text of the deciphered octets; the Go code panics when there are none. */
  function Digitize(plain: Option<Bytes>): Outcome<string> {
    if plain.None? then Error
    else if plain.value == [] then Panic
    else Ok(Tbcd(HexEncode(plain.value)))
  }

  /** `profileADecrypt`. */
  function DecryptA(c: Crypto, input: string, key: Private): Outcome<string>
    requires Lawful(c)
  {
    match HexDecode(input)
    case None => Error
    case Some(s) =>
      if |s| < 32 + MAC_LEN then Error
      else
        var shared := c.x25519.agree(key, s[..32]);
        if shared.None? then Error
        else Digitize(Open(c, shared.value, s[..32], s[32..|s| - MAC_LEN], s[|s| - MAC_LEN..]))
  }

  /** The two encodings of a P-256 point in a SUCI: (point, compressed form for the KDF). */
  function ReadPoint(c: Crypto, sent: Bytes): Option<(Bytes, Bytes)>
    requires sent != []
  {
    if sent[0] == 2 || sent[0] == 3 then
      var point :- c.decompress(sent);
      Some((point, sent))
    else if sent[0] == 4 then
      var z :- c.compress(sent);
      Some((sent, z))
    else None
  }

  /** `profileBDecrypt`: the first octet tells the length of the key. */
  function DecryptB(c: Crypto, input: string, key: Private): Outcome<string>
    requires Lawful(c)
  {
    match HexDecode(input)
    case None => Error
    case Some(s) =>
      if s == [] then Error
      else
        var n := if s[0] == 2 || s[0] == 3 then 33 else if s[0] == 4 then 65 else 0;
        if n == 0 || |s| < n + MAC_LEN then Error
        else
          var point := ReadPoint(c, s[..n]);
          if point.None? then Error
          else
            var shared := c.p256.agree(key, point.value.0);
            if shared.None? then Error
            else Digitize(Open(c, shared.value, point.value.1, s[n..|s| - MAC_LEN], s[|s| - MAC_LEN..]))
  }

  /** Splitting a scheme output at the key length and at the MAC undoes the concatenation. */
  lemma SplitOutput(pub: Bytes, sealed: Bytes, n: nat)
    requires |sealed| == n + MAC_LEN
    ensures
      var s := pub + sealed;
      && s[..|pub|] == pub
      && s[|pub|..|s| - MAC_LEN] == sealed[..n]
      && s[|s| - MAC_LEN..] == sealed[n..]
  {}

  /** Both ends agree on the shared secret. */
  lemma SharedSecret(c: Crypto, home: Private, ephemeral: Private)
    requires Lawful(c)
    ensures c.x25519.agree(home, c.x25519.public(ephemeral)) == c.x25519.agree(ephemeral, c.x25519.public(home))
    ensures c.p256.agree(home, c.p256.public(ephemeral)) == c.p256.agree(ephemeral, c.p256.public(home))
    ensures |c.x25519.public(ephemeral)| == 32
    ensures CompressionOk(c, c.p256.public(ephemeral))
  {}

  /** What the network reads out of the octets that the UE sends. */
  lemma OutputReadBack(c: Crypto, shared: Bytes, pub: Bytes, msin: string)
    requires Lawful(c) && msin != "" && AllDigits(msin)
    ensures
      var plain := HexDecode(Tbcd(msin));
      && plain.Some?
      && var s := pub + Seal(c, shared, pub, plain.value);
      && |s| >= |pub| + MAC_LEN && s[..|pub|] == pub
      && HexDecode(HexEncode(s)) == Some(s) && OutputOk(HexEncode(s))
      && Digitize(Open(c, shared, pub, s[|pub|..|s| - MAC_LEN], s[|s| - MAC_LEN..])) == Ok(msin)
  {
    hide Tbcd, HexDecode, HexEncode, Seal, Open, Lawful, IsHex;
    TbcdRoundTrip(msin);
    var plain := HexDecode(Tbcd(msin)).value;
    var sealed := Seal(c, shared, pub, plain);
    HexDecodeEncode(pub + sealed);
    SplitOutput(pub, sealed, |plain|);
    OpenUndoesSeal(c, shared, pub, plain);
  }

  lemma ProfileARoundTrip(c: Crypto, msin: string, home: Private, ephemeral: Private)
    requires Lawful(c) && msin != "" && AllDigits(msin)
    requires c.x25519.agree(ephemeral, c.x25519.public(home)).Some?
    ensures
      var out := EncryptA(c, msin, c.x25519.public(home), ephemeral);
      out.Ok? && OutputOk(out.value) && DecryptA(c, out.value, home) == Ok(msin)
  {
    hide Tbcd, HexDecode, HexEncode, Seal, Open, Digitize, Lawful, OutputOk;
    SharedSecret(c, home, ephemeral);
    OutputReadBack(c, c.x25519.agree(ephemeral, c.x25519.public(home)).value, c.x25519.public(ephemeral), msin);
  }

  lemma ProfileBRoundTrip(c: Crypto, msin: string, home: Private, ephemeral: Private)
    requires Lawful(c) && msin != "" && AllDigits(msin)
    requires c.p256.agree(ephemeral, c.p256.public(home)).Some?
    ensures
      var out := EncryptB(c, msin, c.p256.public(home), ephemeral);
      out.Ok? && OutputOk(out.value) && DecryptB(c, out.value, home) == Ok(msin)
  {
    hide Tbcd, HexDecode, HexEncode, Seal, Open, Digitize, Lawful, OutputOk;
    SharedSecret(c, home, ephemeral);
    var point := c.p256.public(ephemeral);
    var pub := c.compress(point).value;
    OutputReadBack(c, c.p256.agree(ephemeral, c.p256.public(home)).value, pub, msin);
    var s := pub + Seal(c, c.p256.agree(ephemeral, c.p256.public(home)).value, pub, HexDecode(Tbcd(msin)).value);
    assert s[0] == pub[0];
    assert ReadPoint(c, s[..33]) == Some((point, pub));
  }

  /** The network accepts the uncompressed form of the ephemeral key just as well. */
  lemma UncompressedKeyAccepted(c: Crypto, ephemeral: Private, sealed: Bytes, home: Private)
    requires Lawful(c) && |sealed| >= MAC_LEN
    ensures
      var point := c.p256.public(ephemeral);
      var z := c.compress(point);
      z.Some? && DecryptB(c, HexEncode(point + sealed), home) == DecryptB(c, HexEncode(z.value + sealed), home)
  {
    var point := c.p256.public(ephemeral);
    assert CompressionOk(c, point);
    var z := c.compress(point).value;
    var n := |sealed| - MAC_LEN;
    assert |point| == 65 && point[0] == 4;
    hide HexDecode, HexEncode, Open, Lawful, Digitize;
    HexDecodeEncode(point + sealed);
    HexDecodeEncode(z + sealed);
    SplitOutput(point, sealed, n);
    SplitOutput(z, sealed, n);
  }

  // ---------- the two entry points ----------

  datatype HomePublic = HomePublic(scheme: string, key: Bytes, keyId: string)
  datatype HomePrivate = HomePrivate(scheme: string, key: Private)

  /** `CipherSuci`; `Ok(None)` is the nil SUCI of fields that do not parse. */
  function CipherSuci(c: Crypto, msin: string, mcc: string, mnc: string, routing: string,
                      profile: HomePublic, ephemeral: Private): Outcome<Option<Suci>>
    requires Lawful(c)
  {
    if |msin| + |mcc| + |mnc| < 14 then Error
    else
      var out := if profile.scheme == "0" then Ok(msin)
                 else if profile.scheme == "1" then EncryptA(c, msin, profile.key, ephemeral)
                 else if profile.scheme == "2" then EncryptB(c, msin, profile.key, ephemeral)
                 else Error;
      match out
      case Ok(text) => Ok(ParseSuci(Print(mcc, mnc, routing, profile.scheme, profile.keyId, text)))
      case Error => Error
      case Panic => Panic
  }

  /** The MSIN behind a scheme output. */
  function Revealed(c: Crypto, p: Suci, profiles: seq<HomePrivate>): Outcome<string>
    requires Lawful(c) && KeyIdOk(p.keyId)
  {
    if p.scheme == "0" then Ok(p.output)
    else
      var i := Number(p.keyId);
      if i < 1 || |profiles| < i then Error
      else if profiles[i - 1].scheme != p.scheme then Error
      else if p.scheme == "1" then DecryptA(c, p.output, profiles[i - 1].key)
      else DecryptB(c, p.output, profiles[i - 1].key)
  }

  /** `ToSupi`. */
  function ToSupi(c: Crypto, suci: string, profiles: seq<HomePrivate>): Outcome<string>
    requires Lawful(c)
  {
    match ParseSuci(suci)
    case None => if "imsi-" <= suci || "nai-" <= suci then Ok(suci) else Error
    case Some(p) =>
      if !("0" <= p.supiType) then Error
      else
        assert KeyIdOk(p.keyId);
        match Revealed(c, p, profiles)
        case Ok(msin) => Ok("imsi-" + p.mcc + p.mnc + msin)
        case Error => Error
        case Panic => Panic
  }

  /** The network holds the private key that belongs to the public key the UE uses. */
  ghost predicate Matching(c: Crypto, profile: HomePublic, profiles: seq<HomePrivate>, ephemeral: Private)
    requires KeyIdOk(profile.keyId)
  {
    profile.scheme == "0" ||
    var i := Number(profile.keyId);
    && 1 <= i <= |profiles| && profiles[i - 1].scheme == profile.scheme
    && var curve := if profile.scheme == "1" then c.x25519 else c.p256;
    && profile.key == curve.public(profiles[i - 1].key)
    && curve.agree(ephemeral, profile.key).Some?
  }

  /** DECONCEALMENT UNDOES CONCEALMENT.  For every decimal MSIN, odd or even, every valid
      MCC, MNC, routing indicator and key id, each of the three schemes, every ephemeral
      key and a matching home network key. */
  lemma ToSupiUndoesCipherSuci(c: Crypto, msin: string, mcc: string, mnc: string, routing: string,
                               profile: HomePublic, profiles: seq<HomePrivate>, ephemeral: Private)
    requires Lawful(c)
    requires msin != "" && AllDigits(msin)
    requires Digits(mcc, 3, 3) && Digits(mnc, 2, 3) && Digits(routing, 1, 4)
    requires SchemeOk(profile.scheme) && KeyIdOk(profile.keyId)
    requires Matching(c, profile, profiles, ephemeral)
    ensures
      var r := CipherSuci(c, msin, mcc, mnc, routing, profile, ephemeral);
      if |msin| + |mcc| + |mnc| < 14 then r == Error
      else
        && r.Ok? && r.value.Some?
        && ToSupi(c, r.value.value.raw, profiles) == Ok("imsi-" + mcc + mnc + msin)
  {
    hide EncryptA, EncryptB, DecryptA, DecryptB, ParseSuci, Print, Lawful, Number, IsHex;
    assert profile.scheme == "0" || profile.scheme == "1" || profile.scheme == "2";
    if |msin| + |mcc| + |mnc| >= 14 {
      var out :=
        if profile.scheme == "0" then Ok(msin)
        else if profile.scheme == "1" then EncryptA(c, msin, profile.key, ephemeral)
        else EncryptB(c, msin, profile.key, ephemeral);
      if profile.scheme == "0" {
        DigitsAreHex(msin);
      } else {
        var key := profiles[Number(profile.keyId) - 1].key;
        if profile.scheme == "1" {
          ProfileARoundTrip(c, msin, key, ephemeral);
        } else {
          ProfileBRoundTrip(c, msin, key, ephemeral);
        }
      }
      FieldsHaveNoDash(mcc, mnc, routing, profile.scheme, profile.keyId, out.value);
      PrintParses(mcc, mnc, routing, profile.scheme, profile.keyId, out.value);
    }
  }

  lemma DigitsAreHex(s: string)
    requires s != "" && AllDigits(s)
    ensures OutputOk(s)
  {
    assert forall x: char :: IsDigit(x) ==> IsHex(x);
  }
}
