/** What a concealed identity consists of, and what the network accepts, in terms of the
    primitives alone (section C.3 of 3GPP TS 33.501). */
module SchemeOutput {
  import opened Base
  import opened HexText
  import opened SuciText
  import opened Concealment

  /** The octets `sent` conceal `plain`: the key as transmitted, every plaintext octet xored with
      the AES-CTR key stream, and eight octets of the MAC over these.  Cipher key and initial
      counter block are the two halves of the first digest of the shared secret, the MAC key is
      the second digest; `pub` is the form of the ephemeral key that is hashed. */
  ghost predicate Conceals(c: Crypto, shared: Bytes, pub: Bytes, key: Bytes, plain: Bytes, sent: Bytes)
    requires Lawful(c)
  {
    var k1, k2 := c.sha256(shared + [0, 0, 0, 1] + pub), c.sha256(shared + [0, 0, 0, 2] + pub);
    var n := |key| + |plain|;
    && |sent| == n + 8
    && sent[..|key|] == key
    && (forall i :: 0 <= i < |plain| ==> sent[|key| + i] == plain[i] ^ c.keystream(k1[..16], k1[16..], |plain|)[i])
    && sent[n..] == c.hmac(sent[|key|..n], k2)[..8]
  }

  lemma Counters()
    ensures Counter(1) == [0, 0, 0, 1] && Counter(2) == [0, 0, 0, 2]
  {
    OctetZero();
    OctetOne();
    OctetTwo();
    hide Octet;
  }

  lemma OctetZero() ensures Octet(0) == 0 {}
  lemma OctetOne() ensures Octet(1) == 1 {}
  lemma OctetTwo() ensures Octet(2) == 2 {}

  /** The keys are the two digests. */
  lemma DeriveIs(c: Crypto, shared: Bytes, pub: Bytes)
    requires Lawful(c)
    ensures
      var k1, k2 := c.sha256(shared + [0, 0, 0, 1] + pub), c.sha256(shared + [0, 0, 0, 2] + pub);
      Derive(c, shared, pub) == Keys(k1[..16], k1[16..], k2)
  {
    Counters();
    var k1, k2 := c.sha256(shared + [0, 0, 0, 1] + pub), c.sha256(shared + [0, 0, 0, 2] + pub);
    assert Kdf(c, shared, pub, 0) == [];
    assert Kdf(c, shared, pub, 1) == k1;
    assert Kdf(c, shared, pub, 2) == k1 + k2;
    hide Kdf, Counter;
  }

  lemma SealIs(c: Crypto, shared: Bytes, pub: Bytes, plain: Bytes, text: Bytes, mac: Bytes)
    requires Lawful(c) && text + mac == Seal(c, shared, pub, plain) && |text| == |plain|
    ensures
      var k1, k2 := c.sha256(shared + [0, 0, 0, 1] + pub), c.sha256(shared + [0, 0, 0, 2] + pub);
      && (forall i :: 0 <= i < |plain| ==> text[i] == plain[i] ^ c.keystream(k1[..16], k1[16..], |plain|)[i])
      && mac == c.hmac(text, k2)[..8]
  {
    DeriveIs(c, shared, pub);
    var k := Derive(c, shared, pub);
    hide Derive;
    CtrIs(c, k, plain);
    MacIs(c, k, Ctr(c, k, plain));
    assert Seal(c, shared, pub, plain) == Ctr(c, k, plain) + Mac(c, k, Ctr(c, k, plain));
    hide Seal, Ctr, Mac, Lawful;
    assert text == (text + mac)[..|plain|] && mac == (text + mac)[|plain|..];
  }

  /** Sealing produces the octets that conceal the plaintext, and nothing else does. */
  lemma SealIff(c: Crypto, shared: Bytes, pub: Bytes, key: Bytes, plain: Bytes, sent: Bytes)
    requires Lawful(c)
    ensures sent == key + Seal(c, shared, pub, plain) <==> Conceals(c, shared, pub, key, plain, sent)
  {
    var sealed := Seal(c, shared, pub, plain);
    var text, mac := sealed[..|plain|], sealed[|plain|..];
    assert text + mac == sealed;
    SealIs(c, shared, pub, plain, text, mac);
    hide Seal, Lawful;
    var n := |key| + |plain|;
    if sent == key + sealed {
      assert sent[..|key|] == key && sent[|key|..n] == text && sent[n..] == mac;
    }
    if Conceals(c, shared, pub, key, plain, sent) {
      assert sent[|key|..n] == text;
      assert sent == sent[..|key|] + (sent[|key|..n] + sent[n..]);
    }
  }

  lemma CtrIs(c: Crypto, k: Keys, text: Bytes)
    requires Lawful(c)
    ensures forall i :: 0 <= i < |text| ==> Ctr(c, k, text)[i] == text[i] ^ c.keystream(k.enc, k.icb, |text|)[i]
  {}

  lemma MacIs(c: Crypto, k: Keys, text: Bytes)
    requires Lawful(c)
    ensures Mac(c, k, text) == c.hmac(text, k.mac)[..8]
  {}

  // ---------- what the UE sends ----------

  /** PROFILE A, AS SENT.  Encryption succeeds if and only if the key agreement does and the MSIN
      has digits that can be packed; the output is the ephemeral public key and what conceals
      the packed MSIN. */
  lemma SentA(c: Crypto, msin: string, home: Bytes, ephemeral: Private)
    requires Lawful(c)
    ensures
      var out := EncryptA(c, msin, home, ephemeral);
      var pub, shared := c.x25519.public(ephemeral), c.x25519.agree(ephemeral, home);
      && (out.Ok? <==> shared.Some? && msin != "" && HexDecode(Tbcd(msin)).Some?)
      && (out == Panic <==> shared.Some? && msin == "")
      && (out.Ok? ==>
            && HexDecode(out.value).Some?
            && Conceals(c, shared.value, pub, pub, HexDecode(Tbcd(msin)).value, HexDecode(out.value).value))
  {
    hide Tbcd, HexDecode, HexEncode, Seal, Conceals, Lawful;
    var out := EncryptA(c, msin, home, ephemeral);
    if out.Ok? {
      var pub, shared := c.x25519.public(ephemeral), c.x25519.agree(ephemeral, home).value;
      var plain := HexDecode(Tbcd(msin)).value;
      HexDecodeEncode(pub + Seal(c, shared, pub, plain));
      SealIff(c, shared, pub, pub, plain, pub + Seal(c, shared, pub, plain));
    }
  }

  /** PROFILE B, AS SENT.  The same with the compressed point in both places. */
  lemma SentB(c: Crypto, msin: string, home: Bytes, ephemeral: Private)
    requires Lawful(c)
    ensures
      var out := EncryptB(c, msin, home, ephemeral);
      var z, shared := c.compress(c.p256.public(ephemeral)), c.p256.agree(ephemeral, home);
      && (out.Ok? <==> shared.Some? && z.Some? && msin != "" && HexDecode(Tbcd(msin)).Some?)
      && (out == Panic <==> shared.Some? && z.Some? && msin == "")
      && (out.Ok? ==>
            && HexDecode(out.value).Some?
            && Conceals(c, shared.value, z.value, z.value, HexDecode(Tbcd(msin)).value, HexDecode(out.value).value))
  {
    hide Tbcd, HexDecode, HexEncode, Seal, Conceals, Lawful;
    var out := EncryptB(c, msin, home, ephemeral);
    if out.Ok? {
      var z, shared := c.compress(c.p256.public(ephemeral)).value, c.p256.agree(ephemeral, home).value;
      var plain := HexDecode(Tbcd(msin)).value;
      HexDecodeEncode(z + Seal(c, shared, z, plain));
      SealIff(c, shared, z, z, plain, z + Seal(c, shared, z, plain));
    }
  }

  // ---------- what the network accepts ----------

  /** Opening succeeds exactly on what conceals something, and yields what it conceals. */
  lemma OpenIff(c: Crypto, shared: Bytes, pub: Bytes, key: Bytes, sent: Bytes, plain: Bytes)
    requires Lawful(c) && |sent| >= |key| + 8 && sent[..|key|] == key
    ensures Open(c, shared, pub, sent[|key|..|sent| - 8], sent[|sent| - 8..]) == Some(plain) <==>
            Conceals(c, shared, pub, key, plain, sent)
  {
    var k := Derive(c, shared, pub);
    var cipher, mac := sent[|key|..|sent| - 8], sent[|sent| - 8..];
    hide Derive, Xor, Lawful, Conceals;
    SealIff(c, shared, pub, key, plain, sent);
    assert sent == key + (cipher + mac);
    var ks := KeystreamOf(c, k, |cipher|);
    if Open(c, shared, pub, cipher, mac) == Some(plain) {
      XorUndoes(cipher, ks);
      assert Ctr(c, k, plain) == cipher;
    }
    if sent == key + Seal(c, shared, pub, plain) {
      assert cipher + mac == sent[|key|..] == Seal(c, shared, pub, plain);
      assert cipher == Ctr(c, k, plain) && mac == Mac(c, k, cipher);
      XorUndoes(plain, ks);
    }
  }

  /** The octets are packed digits of the MSIN. */
  predicate Packs(plain: Bytes, msin: string) { plain != [] && msin == Tbcd(HexEncode(plain)) }

  /** The input is the text of octets that conceal `plain` under the secret agreed with their first
      32 octets. */
  ghost predicate CarriesA(c: Crypto, input: string, key: Private, sent: Bytes, plain: Bytes)
    requires Lawful(c)
  {
    && HexDecode(input) == Some(sent) && |sent| >= 40
    && var shared := c.x25519.agree(key, sent[..32]);
    && shared.Some? && Conceals(c, shared.value, sent[..32], sent[..32], plain, sent)
  }

  /** PROFILE A, AS ACCEPTED.  A MSIN comes out if and only if the input carries it: in particular
      only if the last eight octets are the MAC.  An input that carries nothing panics. */
  lemma AcceptedA(c: Crypto, input: string, key: Private, msin: string)
    requires Lawful(c)
    ensures DecryptA(c, input, key) == Ok(msin) <==>
              exists sent, plain :: CarriesA(c, input, key, sent, plain) && Packs(plain, msin)
    ensures DecryptA(c, input, key) == Panic <==> exists sent :: CarriesA(c, input, key, sent, [])
  {
    hide Tbcd, HexDecode, HexEncode, Open, Conceals, Lawful;
    if !DecryptA(c, input, key).Error? {
      var sent := HexDecode(input).value;
      var shared := c.x25519.agree(key, sent[..32]).value;
      var plain := Open(c, shared, sent[..32], sent[32..|sent| - 8], sent[|sent| - 8..]).value;
      OpenIff(c, shared, sent[..32], sent[..32], sent, plain);
      assert CarriesA(c, input, key, sent, plain);
    }
    forall sent, plain | CarriesA(c, input, key, sent, plain)
      ensures DecryptA(c, input, key) == Digitize(Some(plain))
    {
      OpenIff(c, c.x25519.agree(key, sent[..32]).value, sent[..32], sent[..32], sent, plain);
    }
  }

  /** A transmitted P-256 key: its point, and the compressed form that is hashed. */
  ghost predicate KeyRead(c: Crypto, key: Bytes, point: Bytes, z: Bytes) {
    || (|key| == 33 && (key[0] == 2 || key[0] == 3) && c.decompress(key) == Some(point) && z == key)
    || (|key| == 65 && key[0] == 4 && point == key && c.compress(key) == Some(z))
  }

  /** The same with a compressed or an uncompressed point of 33 or 65 octets in front. */
  ghost predicate CarriesB(c: Crypto, input: string, key: Private,
                           sent: Bytes, sentKey: Bytes, point: Bytes, z: Bytes, plain: Bytes)
    requires Lawful(c)
  {
    && HexDecode(input) == Some(sent) && sentKey <= sent && KeyRead(c, sentKey, point, z)
    && var shared := c.p256.agree(key, point);
    && shared.Some? && Conceals(c, shared.value, z, sentKey, plain, sent)
  }

  /** PROFILE B, AS ACCEPTED. */
  lemma AcceptedB(c: Crypto, input: string, key: Private, msin: string)
    requires Lawful(c)
    ensures DecryptB(c, input, key) == Ok(msin) <==>
              exists sent, sentKey, point, z, plain ::
                CarriesB(c, input, key, sent, sentKey, point, z, plain) && Packs(plain, msin)
    ensures DecryptB(c, input, key) == Panic <==>
              exists sent, sentKey, point, z :: CarriesB(c, input, key, sent, sentKey, point, z, [])
  {
    hide Tbcd, HexDecode, HexEncode, Open, Conceals, Lawful, KeyRead, ReadPoint;
    if !DecryptB(c, input, key).Error? {
      var sent := HexDecode(input).value;
      var n := if sent[0] == 4 then 65 else 33;
      var sentKey := sent[..n];
      var (point, z) := ReadPoint(c, sentKey).value;
      KeyReadIff(c, sentKey, point, z);
      var shared := c.p256.agree(key, point).value;
      var plain := Open(c, shared, z, sent[n..|sent| - 8], sent[|sent| - 8..]).value;
      OpenIff(c, shared, z, sentKey, sent, plain);
      assert CarriesB(c, input, key, sent, sentKey, point, z, plain);
    }
    forall sent, sentKey, point, z, plain | CarriesB(c, input, key, sent, sentKey, point, z, plain)
      ensures DecryptB(c, input, key) == Digitize(Some(plain))
    {
      KeyReadIff(c, sentKey, point, z);
      var shared := c.p256.agree(key, point).value;
      ConcealedLength(c, shared, z, sentKey, plain, sent);
      OpenIff(c, shared, z, sentKey, sent, plain);
      assert sent[0] == sentKey[0] && sent[..|sentKey|] == sentKey;
    }
  }

  lemma ConcealedLength(c: Crypto, shared: Bytes, pub: Bytes, key: Bytes, plain: Bytes, sent: Bytes)
    requires Lawful(c) && Conceals(c, shared, pub, key, plain, sent)
    ensures |sent| == |key| + |plain| + 8
  {}

  lemma KeyReadIff(c: Crypto, key: Bytes, point: Bytes, z: Bytes)
    ensures KeyRead(c, key, point, z) <==>
              && key != [] && (if key[0] == 4 then |key| == 65 else |key| == 33 && (key[0] == 2 || key[0] == 3))
              && ReadPoint(c, key) == Some((point, z))
  {}

  // ---------- the two entry points ----------

  /** CONCEALMENT, EXACTLY.  The identity that is sent, for all arguments: the text of the IMSI type
      with the scheme output at its end, which is the MSIN itself in the null scheme and what
      the profiles encrypt it to otherwise. */
  lemma CipherSuciIs(c: Crypto, msin: string, mcc: string, mnc: string, routing: string,
                     profile: HomePublic, ephemeral: Private)
    requires Lawful(c)
    ensures
      var r := CipherSuci(c, msin, mcc, mnc, routing, profile, ephemeral);
      var text := out => "suci-0-" + mcc + "-" + mnc + TailText([routing, profile.scheme, profile.keyId, out]);
      if |msin| + |mcc| + |mnc| < 14 then r == Error
      else match profile.scheme
        case "0" => r == Ok(ParseSuci(text(msin)))
        case "1" =>
          var out := EncryptA(c, msin, profile.key, ephemeral);
          if out.Ok? then r == Ok(ParseSuci(text(out.value))) else r.Error? == out.Error? && r.Panic? == out.Panic?
        case "2" =>
          var out := EncryptB(c, msin, profile.key, ephemeral);
          if out.Ok? then r == Ok(ParseSuci(text(out.value))) else r.Error? == out.Error? && r.Panic? == out.Panic?
        case _ => r == Error
  {
    hide EncryptA, EncryptB, ParseSuci, Lawful, TailText, Print;
    PrintedText(mcc, mnc, routing, profile.scheme, profile.keyId, msin);
    var a, b := EncryptA(c, msin, profile.key, ephemeral), EncryptB(c, msin, profile.key, ephemeral);
    if a.Ok? { PrintedText(mcc, mnc, routing, profile.scheme, profile.keyId, a.value); }
    if b.Ok? { PrintedText(mcc, mnc, routing, profile.scheme, profile.keyId, b.value); }
  }

  lemma PrintedText(mcc: string, mnc: string, routing: string, scheme: string, keyId: string, out: string)
    ensures Print(mcc, mnc, routing, scheme, keyId, out) ==
            "suci-0-" + mcc + "-" + mnc + TailText([routing, scheme, keyId, out])
  {
    hide JoinFields, TailText;
    var tail := [routing, scheme, keyId, out];
    ImsiJoins(mcc, mnc, tail);
    assert ["suci", "0", mcc, mnc] + tail == ["suci", "0", mcc, mnc, routing, scheme, keyId, out];
  }

  /** What the parser says about the type of the identity and the key id. */
  lemma ParsedType(suci: string)
    requires ParseSuci(suci).Some?
    ensures
      var p := ParseSuci(suci).value;
      && (|p.mcc| == 3 <==> "0" <= p.supiType) && KeyIdOk(p.keyId)
      && (p.scheme == "0" || p.scheme == "1" || p.scheme == "2")
  {
    hide Split, JoinFields, KeyIdOk, OutputOk;
    var p := ParseSuci(suci).value;
    var f := Split(suci);
    if f[1] == "0" {
      assert p.supiType[0] == '0' && p.supiType[..1] == "0";
    } else {
      assert p.supiType[0] == '1';
    }
  }

  /** The identity behind the scheme output of a parsed SUCI. */
  ghost predicate Reveals(c: Crypto, p: Suci, profiles: seq<HomePrivate>, msin: string)
    requires Lawful(c)
  {
    if p.scheme == "0" then msin == p.output
    else
      && KeyIdOk(p.keyId)
      && var i := Number(p.keyId);
      && 1 <= i <= |profiles| && profiles[i - 1].scheme == p.scheme
      && var key := profiles[i - 1].key;
      if p.scheme == "1" then exists sent, plain :: CarriesA(c, p.output, key, sent, plain) && Packs(plain, msin)
      else exists sent, sentKey, point, z, plain ::
             CarriesB(c, p.output, key, sent, sentKey, point, z, plain) && Packs(plain, msin)
  }

  /** DECONCEALMENT, EXACTLY.  An identity comes out if and only if the text is one already, or it
      is a SUCI of the IMSI type whose scheme output reveals the MSIN under the home network
      key with the number and the scheme that the SUCI names. */
  lemma ToSupiIff(c: Crypto, suci: string, profiles: seq<HomePrivate>, supi: string)
    requires Lawful(c)
    ensures ToSupi(c, suci, profiles) == Ok(supi) <==>
              match ParseSuci(suci)
              case None => ("imsi-" <= suci || "nai-" <= suci) && supi == suci
              case Some(p) =>
                && |p.mcc| == 3
                && exists msin :: Reveals(c, p, profiles, msin) && supi == "imsi-" + p.mcc + p.mnc + msin
  {
    hide DecryptA, DecryptB, Lawful, ParseSuci, Number, CarriesA, CarriesB;
    var parsed := ParseSuci(suci);
    if parsed.Some? {
      var p := parsed.value;
      ParsedType(suci);
      forall msin ensures Reveals(c, p, profiles, msin) <==> Revealed(c, p, profiles) == Ok(msin) {
        RevealsIff(c, p, profiles, msin);
      }
      hide Reveals;
    }
  }

  lemma RevealsIff(c: Crypto, p: Suci, profiles: seq<HomePrivate>, msin: string)
    requires Lawful(c) && KeyIdOk(p.keyId)
    ensures Reveals(c, p, profiles, msin) <==> Revealed(c, p, profiles) == Ok(msin)
  {
    hide DecryptA, DecryptB, Lawful, Number, CarriesA, CarriesB, Packs;
    var i := Number(p.keyId);
    if 1 <= i <= |profiles| {
      AcceptedA(c, p.output, profiles[i - 1].key, msin);
      AcceptedB(c, p.output, profiles[i - 1].key, msin);
    }
  }
}
