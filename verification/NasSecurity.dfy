/** Protected NAS messages: the UE's `NASEncode`, the network's `Decode`, and the security
    part of the UE's `DispatchNas`.  Both receivers see 8 bits of the sender's 24-bit
    COUNT and reconstruct the rest (section 4.4.3.1 of 3GPP TS 24.501). */
module NasSecurity {
  import opened Base

  type byte = x: int | 0 <= x < 0x100
  type Bytes = seq<byte>

  const COUNT_MAX: nat := 0x100_0000

  /** A 24-bit COUNT: 16 bits of overflow counter, 8 bits of sequence number. */
  type Count = c: nat | c < 0x100_0000

  function Sqn(c: Count): nat { c % 0x100 }
  function Overflow(c: Count): nat { c / 0x100 }

  /** The receiver's estimate from the last COUNT and the 8 bits it sees; the overflow
      counter is 16 bits wide. */
  function Estimate(last: Count, sqn: nat): Count
    requires sqn < 0x100
  {
    var overflow := if Sqn(last) > sqn then (Overflow(last) + 1) % 0x1_0000 else Overflow(last);
    0x100 * overflow + sqn
  }

  /** How far `c` is ahead of `last`, counting modulo 2^24. */
  function Ahead(last: Count, c: Count): nat { (c - last) % COUNT_MAX }

  /** ESTIMATION, EXACTLY.  The estimate is the sender's COUNT if and only if that is 0 to
      255 steps ahead of the last one (2^24 wrap-around included). */
  lemma EstimateIff(last: Count, c: Count)
    ensures Estimate(last, Sqn(c)) == c <==> Ahead(last, c) <= 255
  {
    var e := Estimate(last, Sqn(c));
    EstimateWindow(last, Sqn(c));
    if Ahead(last, c) <= 255 { AheadInjective(last, e, c); }
  }

  lemma EstimateWindow(last: Count, sqn: nat)
    requires sqn < 0x100
    ensures Ahead(last, Estimate(last, sqn)) <= 255 && Sqn(Estimate(last, sqn)) == sqn
  {
    var hi, lo := Overflow(last), Sqn(last);
    assert last == 0x100 * hi + lo;
    if lo > sqn && hi + 1 == 0x1_0000 {
      assert Estimate(last, sqn) - last + COUNT_MAX == 0x100 + sqn - lo;
    }
  }

  lemma AheadIs(last: Count, c: Count)
    ensures Ahead(last, c) == if c < last then c - last + COUNT_MAX else c - last
  {}

  lemma SqnIs(c: Count)
    ensures c == 0x100 * Overflow(c) + Sqn(c)
  {}

  lemma AheadInjective(last: Count, a: Count, b: Count)
    requires Ahead(last, a) <= 255 && Ahead(last, b) <= 255 && Sqn(a) == Sqn(b)
    ensures a == b
  {
    AheadIs(last, a);
    AheadIs(last, b);
    SqnIs(a);
    SqnIs(b);
    hide Ahead, Sqn, Overflow;
    var q := Overflow(a) - Overflow(b) + (if a < last then 0x1_0000 else 0) - (if b < last then 0x1_0000 else 0);
    assert Ahead(last, a) - Ahead(last, b) == 0x100 * q;
    assert q == 0;
  }

  // ---------- protected messages ----------

  /** The keys of a security context as the library functions they induce: `NASEncrypt`,
      `NASMacCalculate`, whether `PlainNasDecode` succeeds, and what `GetSecurityHeaderType`
      makes of a message under two octets (nothing if it panics). */
  datatype Keys = Keys(
    encrypt: (Count, Bytes) -> Bytes, mac: (Count, Bytes) -> Bytes, plainOk: Bytes -> bool,
    shortHeader: Option<byte>)

  /** Ciphering keeps the length and undoes itself; a MAC has four octets. */
  ghost predicate Lawful(k: Keys) {
    && (forall c, b :: |k.encrypt(c, b)| == |b| && k.encrypt(c, k.encrypt(c, b)) == b)
    && (forall c, b :: |k.mac(c, b)| == 4)
  }

  const EPD_5GMM: byte := 0x7e

  /** Security header types. */
  datatype Protection = Integrity | Ciphered | IntegrityNew | CipheredNew

  function TypeOctet(p: Protection): byte {
    match p case Integrity => 1 case Ciphered => 2 case IntegrityNew => 3 case CipheredNew => 4
  }

  function ReadType(o: byte): Option<Protection> {
    var t := o as int % 16;
    if t == 1 then Some(Integrity) else if t == 2 then Some(Ciphered)
    else if t == 3 then Some(IntegrityNew) else if t == 4 then Some(CipheredNew) else None
  }

  predicate IsCiphered(p: Protection) { p.Ciphered? || p.CipheredNew? }
  predicate IsNew(p: Protection) { p.IntegrityNew? || p.CipheredNew? }

  function SqnOctet(c: Count): byte { Sqn(c) }

  /** The part of a message that the MAC covers. */
  function Body(k: Keys, p: Protection, c: Count, plain: Bytes): Bytes
    requires Lawful(k)
  {
    [SqnOctet(c)] + (if IsCiphered(p) then k.encrypt(c, plain) else plain)
  }

  /** A genuine message of COUNT `c`. */
  function Protect(k: Keys, p: Protection, c: Count, plain: Bytes): Bytes
    requires Lawful(k)
  {
    [EPD_5GMM, TypeOctet(p)] + k.mac(c, Body(k, p, c, plain)) + Body(k, p, c, plain)
  }

  /** Sender: counts of the UE, updated by every message. */
  class UeSecurity {
    var ulCount: Count
    var dlCount: Count
    var downKeys: Keys

    constructor (downKeys: Keys)
      ensures ulCount == dlCount == 0 && this.downKeys == downKeys
    {
      ulCount, dlCount := 0, 0;
      this.downKeys := downKeys;
    }

    /** `NASEncode`; without a security context the message goes out as it is. */
    method NasEncode(k: Keys, p: Protection, plain: Bytes, available: bool, newContext: bool) returns (payload: Bytes)
      requires Lawful(k)
      modifies this`ulCount, this`dlCount
      ensures !available ==> payload == plain && ulCount == old(ulCount) && dlCount == old(dlCount)
      ensures available ==>
                var c := if newContext then 0 else old(ulCount);
                && payload == Protect(k, p, c, plain)
                && ulCount == (c + 1) % COUNT_MAX
                && dlCount == if newContext then 0 else old(dlCount)
    {
      if !available { return plain; }
      if newContext { ulCount, dlCount := 0, 0; }
      var sqn := SqnOctet(ulCount);
      payload := plain;
      if p != Integrity && p != IntegrityNew { payload := k.encrypt(ulCount, payload); }
      payload := [sqn] + payload;
      var mac := k.mac(ulCount, payload);
      payload := mac + payload;
      payload := [EPD_5GMM, TypeOctet(p)] + payload;
      assert payload == Protect(k, p, ulCount, plain);
      ulCount := (ulCount + 1) % COUNT_MAX;
    }

    /** The security part of `DispatchNas`: COUNT and keys change before the MAC is checked.
        `x` is what the payload decodes to. */
    method DispatchNas(message: Bytes, x: Content) returns (r: Dispatched)
      requires Lawful(downKeys) && LawfulContent(x)
      modifies this`dlCount, this`downKeys
      ensures (Downlink(downKeys, dlCount), r) == Dispatch(old(Downlink(downKeys, dlCount)), message, x)
    {
      hide Estimate;
      var header := if |message| < 2 then downKeys.shortHeader else Some(message[1]);
      if header.None? { return Panics; }
      if header.value % 16 == 0 { return Accepted(message); }
      if |message| < 7 { return Panics; }
      var kind := ReadType(message[1]);
      if kind == Some(CipheredNew) { return Dropped; }
      var payload := message[7..];
      dlCount := TrackCount(dlCount, message[6]);
      if kind == Some(Ciphered) { payload := downKeys.encrypt(dlCount, payload); }
      if kind == Some(IntegrityNew) {
        if x.NoHeader? { return Panics; }
        if x.Other? { return Dropped; }
        dlCount, downKeys := 0, x.keys;
      }
      if downKeys.mac(dlCount, message[6..]) != message[2..6] { return Dropped; }
      return Accepted(payload);
    }
  }

  /** The overflow and sequence-number updates both receivers perform. */
  method TrackCount(last: Count, sqn: nat) returns (c: Count)
    requires sqn < 0x100
    ensures c == Estimate(last, sqn)
  {
    c := last;
    if Sqn(c) > sqn { c := 0x100 * ((Overflow(c) + 1) % 0x1_0000) + Sqn(c); }
    c := 0x100 * Overflow(c) + sqn;
  }

  predicate IsPlain(m: Bytes)
    requires |m| >= 2
  {
    m[1] as int % 16 == 0
  }

  /** What the UE does with a downlink message.  A protected message without a sequence
      number octet is indexed out of range, and what is read of a shorter one is up to the
      library. */
  datatype Dispatched = Dropped | Accepted(plain: Bytes) | Panics

  /** What a payload decodes to: a SECURITY MODE COMMAND with the keys its algorithms select,
      another message, or nothing that has a message type. */
  datatype Content = Command(keys: Keys) | Other | NoHeader

  ghost predicate LawfulContent(x: Content) { x.Command? ==> Lawful(x.keys) }

  /** The downlink security state of the UE. */
  datatype Downlink = Downlink(keys: Keys, dl: Count)

  /** Specification of the downlink side; header types above 4 count as integrity only. */
  function Dispatch(u: Downlink, m: Bytes, x: Content): (Downlink, Dispatched)
    requires Lawful(u.keys) && LawfulContent(x)
  {
    var short := u.keys.shortHeader;
    if |m| < 2 then (u, if short.Some? && short.value % 16 == 0 then Accepted(m) else Panics)
    else if IsPlain(m) then (u, Accepted(m))
    else if |m| < 7 then (u, Panics)
    else if ReadType(m[1]) == Some(CipheredNew) then (u, Dropped)
    else
      var est := Estimate(u.dl, m[6]);
      if ReadType(m[1]) == Some(IntegrityNew) then
        match x
        case NoHeader => (u.(dl := est), Panics)
        case Other => (u.(dl := est), Dropped)
        case Command(keys) => Verify(Downlink(keys, 0), m, m[7..])
      else
        Verify(u.(dl := est), m, if ReadType(m[1]) == Some(Ciphered) then u.keys.encrypt(est, m[7..]) else m[7..])
  }

  function Verify(u: Downlink, m: Bytes, payload: Bytes): (Downlink, Dispatched)
    requires |m| >= 7
  {
    (u, if u.keys.mac(u.dl, m[6..]) == m[2..6] then Accepted(payload) else Dropped)
  }

  // ---------- the network's receiver ----------

  datatype Decoded = Rejected | Decoded(plain: Bytes, genuine: bool)

  /** Specification of `Decode`: the committed COUNT and the message. */
  function DecodeSpec(k: Keys, ul: Count, m: Bytes): (Count, Decoded)
    requires Lawful(k)
  {
    if |m| < 10 then (ul, Rejected)
    else match ReadType(m[1])
      case None => (ul, Rejected)
      case Some(p) =>
        var est := Estimate(if IsNew(p) then 0 else ul, m[6]);
        var genuine := k.mac(est, m[6..]) == m[2..6];
        if IsCiphered(p) && !genuine then (ul, Rejected)
        else
          var plain := if IsCiphered(p) then k.encrypt(est, m[7..]) else m[7..];
          if !k.plainOk(plain) then (ul, Rejected)
          else (if genuine then est else ul, Decoded(plain, genuine))
  }

  class CoreUe {
    var ulCount: Count

    /** `Decode`: works on a copy of the COUNT and commits it only with a valid MAC. */
    method Decode(k: Keys, message: Bytes) returns (r: Decoded)
      requires Lawful(k)
      modifies this
      ensures (ulCount, r) == DecodeSpec(k, old(ulCount), message)
    {
      hide Estimate;
      if |message| < 2 { return Rejected; }
      var ulCountNew := ulCount;
      if |message| < 1 + 1 + 4 + 1 + 3 { return Rejected; }
      var sqn := message[6];
      var received := message[2..6];
      var payload := message[6..];
      var kind := ReadType(message[1]);
      if kind.None? { return Rejected; }
      var ciphered := IsCiphered(kind.value);
      if IsNew(kind.value) { ulCountNew := 0; }
      ulCountNew := TrackCount(ulCountNew, sqn);
      var genuine := k.mac(ulCountNew, payload) == received;
      payload := payload[1..];
      assert payload == message[7..];
      if ciphered {
        if !genuine { return Rejected; }
        payload := k.encrypt(ulCountNew, payload);
      }
      if !k.plainOk(payload) { return Rejected; }
      if genuine { ulCount := ulCountNew; }
      return Decoded(payload, genuine);
    }
  }

  // ---------- one genuine message ----------

  lemma ReadTypeOctet(p: Protection) ensures ReadType(TypeOctet(p)) == Some(p) {}

  lemma ProtectedIsNotPlain(m: Bytes)
    requires |m| >= 2 && ReadType(m[1]).Some?
    ensures !IsPlain(m)
  {}

  lemma Layout(k: Keys, p: Protection, c: Count, plain: Bytes)
    requires Lawful(k)
    ensures
      var m := Protect(k, p, c, plain);
      && |m| == 7 + |plain| && ReadType(m[1]) == Some(p)
      && m[6] == Sqn(c)
      && m[2..6] == k.mac(c, m[6..])
      && (if IsCiphered(p) then k.encrypt(c, m[7..]) else m[7..]) == plain
  {
    ReadTypeOctet(p);
    hide ReadType, TypeOctet;
    var mac, body := k.mac(c, Body(k, p, c, plain)), Body(k, p, c, plain);
    Slices([EPD_5GMM, TypeOctet(p)], mac, body);
  }

  lemma Slices(head: Bytes, mac: Bytes, body: Bytes)
    requires |head| == 2 && |mac| == 4 && |body| >= 1
    ensures
      var m := head + mac + body;
      m[1] == head[1] && m[2..6] == mac && m[6..] == body && m[6] == body[0] && m[7..] == body[1..]
  {}

  /** THE OCTETS OF A PROTECTED MESSAGE: discriminator, header type 1 to 4, the MAC of what follows it,
      the low octet of the COUNT, and the plaintext, ciphered for the types 2 and 4. */
  lemma ProtectedOctets(k: Keys, p: Protection, c: Count, plain: Bytes)
    requires Lawful(k)
    ensures
      var m := Protect(k, p, c, plain);
      && |m| == 7 + |plain| && m[0] == 0x7e
      && m[1] == (match p case Integrity => 1 case Ciphered => 2 case IntegrityNew => 3 case CipheredNew => 4)
      && m[2..6] == k.mac(c, m[6..]) && m[6] == c % 256
      && m[7..] == if p.Ciphered? || p.CipheredNew? then k.encrypt(c, plain) else plain
  {
    Slices([EPD_5GMM, TypeOctet(p)], k.mac(c, Body(k, p, c, plain)), Body(k, p, c, plain));
  }

  /** WHAT THE NETWORK DOES, by the octets of any message.  Too short, or of a header type other
      than 1 to 4: rejected.  Else the COUNT is estimated, from zero for the types 3 and 4; the
      types 2 and 4 need a valid MAC and are deciphered; what does not decode is rejected; and
      the COUNT is committed exactly if the message decodes and the MAC is valid. */
  lemma DecodeIs(k: Keys, ul: Count, m: Bytes)
    requires Lawful(k)
    ensures |m| < 10 || !(1 <= m[1] % 16 <= 4) ==> DecodeSpec(k, ul, m) == (ul, Rejected)
    ensures |m| >= 10 && 1 <= m[1] % 16 <= 4 ==>
              var t := m[1] % 16;
              var est := Estimate(if t == 3 || t == 4 then 0 else ul, m[6]);
              var genuine := m[2..6] == k.mac(est, m[6..]);
              var ciphered := t == 2 || t == 4;
              var plain := if ciphered then k.encrypt(est, m[7..]) else m[7..];
              var (count, r) := DecodeSpec(k, ul, m);
              && (r == Rejected <==> !k.plainOk(plain) || (ciphered && !genuine))
              && (r != Rejected ==> r == Decoded(plain, genuine))
              && count == if r != Rejected && genuine then est else ul
  {
    hide Estimate, Lawful;
  }

  /** A genuine uplink message within the window: the network recovers the COUNT, accepts
      the MAC, commits the COUNT, and returns the plaintext. */
  lemma DecodeUndoesEncode(k: Keys, ul: Count, p: Protection, c: Count, plain: Bytes)
    requires Lawful(k) && |plain| >= 3 && k.plainOk(plain)
    requires Ahead(if IsNew(p) then 0 else ul, c) <= 255
    ensures DecodeSpec(k, ul, Protect(k, p, c, plain)) == (c, Decoded(plain, true))
  {
    hide Protect, Estimate, Ahead, ReadType;
    Layout(k, p, c, plain);
    EstimateIff(if IsNew(p) then 0 else ul, c);
  }

  /** The octets carry the MAC that the keys give for the COUNT the network estimates. */
  predicate MacOk(k: Keys, ul: Count, m: Bytes) {
    && |m| >= 10 && ReadType(m[1]).Some?
    && m[2..6] == k.mac(Estimate(if IsNew(ReadType(m[1]).value) then 0 else ul, m[6]), m[6..])
  }

  /** A message whose MAC does not verify never moves the network's COUNT, and is never
      passed on as genuine or deciphered. */
  lemma WrongMacKeepsCount(k: Keys, ul: Count, m: Bytes)
    requires Lawful(k) && !MacOk(k, ul, m)
    ensures DecodeSpec(k, ul, m).0 == ul
    ensures DecodeSpec(k, ul, m).1 == Rejected || (|m| >= 10 && DecodeSpec(k, ul, m).1 == Decoded(m[7..], false))
  {
    hide Estimate;
  }

  /** ACCEPTANCE, EXACTLY.  A genuine message passes the MAC check if and only if its COUNT is
      0 to 255 steps ahead, or its MAC happens to be the same under the wrong COUNT. */
  lemma GenuineAcceptedIff(k: Keys, ul: Count, p: Protection, c: Count, plain: Bytes)
    requires Lawful(k) && |plain| >= 3
    ensures
      var m := Protect(k, p, c, plain);
      var last := if IsNew(p) then 0 else ul;
      && |m| >= 7
      && (MacOk(k, ul, m) <==>
            Ahead(last, c) <= 255 || k.mac(Estimate(last, Sqn(c)), m[6..]) == k.mac(c, m[6..]))
  {
    hide Protect, Estimate, Ahead, ReadType;
    Layout(k, p, c, plain);
    EstimateIff(if IsNew(p) then 0 else ul, c);
  }

  // ---------- uplink runs ----------

  /** What arrives: a genuine message of some COUNT, or anything that fails the MAC. */
  datatype Delivery = Genuine(p: Protection, count: Count, plain: Bytes) | Forged(message: Bytes)

  /** COUNT of the last genuine delivery, whether it is new or a copy of an earlier one. */
  function LastCount(start: Count, ds: seq<Delivery>): Count {
    if ds == [] then start
    else
      var d := ds[|ds| - 1];
      if d.Genuine? then d.count else LastCount(start, ds[..|ds| - 1])
  }

  /** Every genuine COUNT is at most 255 ahead of the previous genuine one (or of zero for
      a message that opens a new context); forgeries fail the MAC where they arrive. */
  ghost predicate Plausible(k: Keys, start: Count, ds: seq<Delivery>)
    requires Lawful(k)
    decreases |ds|
  {
    ds == [] ||
    var prefix, d := ds[..|ds| - 1], ds[|ds| - 1];
    && Plausible(k, start, prefix)
    && match d
       case Genuine(p, c, plain) =>
         && |plain| >= 3 && k.plainOk(plain)
         && Ahead(if IsNew(p) then 0 else LastCount(start, prefix), c) <= 255
       case Forged(m) => !MacOk(k, LastCount(start, prefix), m)
  }

  function Message(k: Keys, d: Delivery): Bytes
    requires Lawful(k)
  {
    match d case Genuine(p, c, plain) => Protect(k, p, c, plain) case Forged(m) => m
  }

  function Receive(k: Keys, start: Count, ds: seq<Delivery>): Count
    requires Lawful(k)
    decreases |ds|
  {
    if ds == [] then start
    else DecodeSpec(k, Receive(k, start, ds[..|ds| - 1]), Message(k, ds[|ds| - 1])).0
  }

  /** In every plausible run, from every COUNT and across its wrap-around, with forgeries
      anywhere in between, the network holds the COUNT of the last genuine delivery and has
      decoded it.  The sender may be further: see `ReplayLaw`. */
  lemma {:induction false} ReceiverStaysInSync(k: Keys, start: Count, ds: seq<Delivery>)
    requires Lawful(k) && Plausible(k, start, ds)
    ensures Receive(k, start, ds) == LastCount(start, ds)
    ensures ds != [] && ds[|ds| - 1].Genuine? ==>
              var d := ds[|ds| - 1];
              DecodeSpec(k, Receive(k, start, ds[..|ds| - 1]), Message(k, d)) == (d.count, Decoded(d.plain, true))
    decreases |ds|
  {
    hide DecodeSpec, Protect, Ahead, MacOk;
    if ds != [] {
      var prefix, d := ds[..|ds| - 1], ds[|ds| - 1];
      ReceiverStaysInSync(k, start, prefix);
      var ul := LastCount(start, prefix);
      match d
      case Genuine(p, c, plain) => DecodeUndoesEncode(k, ul, p, c, plain);
      case Forged(m) => WrongMacKeepsCount(k, ul, m);
    }
  }

  // ---------- copies of the sender's messages ----------

  /** A message of the UE; the `j`-th one of a security context has COUNT `j`. */
  datatype Sent = Sent(p: Protection, plain: Bytes)

  /** All messages of a context: each decodes, and the COUNT does not come round. */
  ghost predicate Context(k: Keys, msgs: seq<Sent>) {
    && |msgs| + 255 <= COUNT_MAX
    && forall j :: 0 <= j < |msgs| ==> |msgs[j].plain| >= 3 && k.plainOk(msgs[j].plain)
  }

  function Octets(k: Keys, msgs: seq<Sent>, j: nat): Bytes
    requires Lawful(k) && j < |msgs| <= COUNT_MAX
  {
    Protect(k, msgs[j].p, j, msgs[j].plain)
  }

  /** What the network takes for the last COUNT when a message arrives. */
  function MeasuredFrom(msgs: seq<Sent>, last: Count, j: nat): Count
    requires j < |msgs|
  {
    if IsNew(msgs[j].p) then 0 else last
  }

  /** The MAC of a message happens to be the same under the wrong COUNT that is estimated. */
  ghost predicate Coincides(k: Keys, msgs: seq<Sent>, last: Count, j: nat)
    requires Lawful(k) && j < |msgs| <= COUNT_MAX
  {
    var e := Estimate(MeasuredFrom(msgs, last, j), Sqn(j));
    var body := Body(k, msgs[j].p, j, msgs[j].plain);
    e != j && k.mac(e, body) == k.mac(j, body)
  }

  /** The COUNTs that are estimated right; a message for a new context is measured from zero
      whenever it arrives. */
  predicate InWindow(msgs: seq<Sent>, last: Count, j: nat)
    requires j < |msgs|
  {
    if IsNew(msgs[j].p) then j <= 255 else last <= j <= last + 255
  }

  lemma AheadInOrder(last: Count, j: Count)
    requires last + 255 < COUNT_MAX && j + 255 < COUNT_MAX
    ensures Ahead(last, j) <= 255 <==> last <= j <= last + 255
  {
    if j < last { assert Ahead(last, j) == j - last + COUNT_MAX; } else { assert Ahead(last, j) == j - last; }
  }

  /** One message of the context, first or repeated, at any COUNT of the network. */
  lemma CopyIs(k: Keys, msgs: seq<Sent>, last: Count, j: nat)
    requires Lawful(k) && Context(k, msgs) && last + 255 < COUNT_MAX && j < |msgs|
    ensures
      var m := Octets(k, msgs, j);
      && (MacOk(k, last, m) <==> InWindow(msgs, last, j) || Coincides(k, msgs, last, j))
      && (InWindow(msgs, last, j) ==> DecodeSpec(k, last, m) == (j, Decoded(msgs[j].plain, true)))
      && (!InWindow(msgs, last, j) && !Coincides(k, msgs, last, j) ==> DecodeSpec(k, last, m).0 == last)
  {
    hide Protect, Body, Estimate, Ahead, DecodeSpec, MacOk;
    var b := MeasuredFrom(msgs, last, j);
    AheadInOrder(b, j);
    EstimateIff(b, j);
    GenuineAcceptedIff(k, last, msgs[j].p, j, msgs[j].plain);
    ProtectedBody(k, msgs[j].p, j, msgs[j].plain);
    if InWindow(msgs, last, j) { DecodeUndoesEncode(k, last, msgs[j].p, j, msgs[j].plain); }
    if !MacOk(k, last, Octets(k, msgs, j)) { WrongMacKeepsCount(k, last, Octets(k, msgs, j)); }
  }

  /** What reaches the network, in any order and any number of times: copies of messages of
      the context, and anything else. */
  datatype Arrival = Copy(j: nat) | Junk(message: Bytes)

  /** COUNT of the network after the arrivals. */
  function CountAfter(k: Keys, msgs: seq<Sent>, start: Count, arrivals: seq<Arrival>): Count
    requires Lawful(k) && |msgs| <= COUNT_MAX
    requires forall i :: 0 <= i < |arrivals| && arrivals[i].Copy? ==> arrivals[i].j < |msgs|
    decreases |arrivals|
  {
    if arrivals == [] then start
    else
      var last := CountAfter(k, msgs, start, arrivals[..|arrivals| - 1]);
      var a := arrivals[|arrivals| - 1];
      DecodeSpec(k, last, match a case Copy(j) => Octets(k, msgs, j) case Junk(m) => m).0
  }

  ghost predicate Copies(msgs: seq<Sent>, arrivals: seq<Arrival>) {
    forall i :: 0 <= i < |arrivals| && arrivals[i].Copy? ==> arrivals[i].j < |msgs|
  }

  /** No MAC verifies by chance: neither that of junk nor that of a copy at a wrong COUNT. */
  ghost predicate NoChance(k: Keys, msgs: seq<Sent>, start: Count, arrivals: seq<Arrival>)
    requires Lawful(k) && |msgs| <= COUNT_MAX && Copies(msgs, arrivals)
    decreases |arrivals|
  {
    arrivals == [] ||
    var prefix, a := arrivals[..|arrivals| - 1], arrivals[|arrivals| - 1];
    var last := CountAfter(k, msgs, start, prefix);
    && NoChance(k, msgs, start, prefix)
    && match a
       case Copy(j) => !Coincides(k, msgs, last, j)
       case Junk(m) => !MacOk(k, last, m)
  }

  /** COUNT of the network by arithmetic alone. */
  function Track(msgs: seq<Sent>, start: Count, arrivals: seq<Arrival>): Count
    requires |msgs| <= COUNT_MAX
    requires forall i :: 0 <= i < |arrivals| && arrivals[i].Copy? ==> arrivals[i].j < |msgs|
    decreases |arrivals|
  {
    if arrivals == [] then start
    else
      var last := Track(msgs, start, arrivals[..|arrivals| - 1]);
      var a := arrivals[|arrivals| - 1];
      if a.Copy? && InWindow(msgs, last, a.j) then a.j else last
  }

  /** UPLINK RUNS.  Whatever copies and junk arrive in whatever order, the network's COUNT is
      the one the windows give. */
  lemma {:induction false} CountIsTracked(k: Keys, msgs: seq<Sent>, start: Count, arrivals: seq<Arrival>)
    requires Lawful(k) && Context(k, msgs) && Copies(msgs, arrivals) && start + 255 < COUNT_MAX
    requires NoChance(k, msgs, start, arrivals)
    ensures CountAfter(k, msgs, start, arrivals) == Track(msgs, start, arrivals)
    ensures Track(msgs, start, arrivals) + 255 < COUNT_MAX
    decreases |arrivals|
  {
    hide DecodeSpec, Octets, InWindow, Coincides, MacOk;
    if arrivals != [] {
      var n := |arrivals| - 1;
      var prefix := arrivals[..n];
      CountIsTracked(k, msgs, start, prefix);
      var last := Track(msgs, start, prefix);
      match arrivals[n]
      case Copy(j) => CopyIs(k, msgs, last, j);
      case Junk(m) => WrongMacKeepsCount(k, last, m);
    }
  }

  /** The message with COUNT `j` has been accepted during the run. */
  predicate WasAccepted(msgs: seq<Sent>, start: Count, arrivals: seq<Arrival>, j: nat)
    requires |msgs| <= COUNT_MAX
    requires forall i :: 0 <= i < |arrivals| && arrivals[i].Copy? ==> arrivals[i].j < |msgs|
    decreases |arrivals|
  {
    arrivals != [] &&
    var prefix, a := arrivals[..|arrivals| - 1], arrivals[|arrivals| - 1];
    WasAccepted(msgs, start, prefix, j) || (a == Copy(j) && InWindow(msgs, Track(msgs, start, prefix), j))
  }

  /** No message for a new context is accepted after a newer message of the same context. */
  ghost predicate NoRollback(msgs: seq<Sent>, start: Count, arrivals: seq<Arrival>)
    requires |msgs| <= COUNT_MAX && Copies(msgs, arrivals)
    decreases |arrivals|
  {
    arrivals == [] ||
    var prefix, a := arrivals[..|arrivals| - 1], arrivals[|arrivals| - 1];
    && NoRollback(msgs, start, prefix)
    && (a.Copy? && IsNew(msgs[a.j].p) && InWindow(msgs, Track(msgs, start, prefix), a.j) ==>
          forall h: nat :: WasAccepted(msgs, start, prefix, h) ==> h <= a.j)
  }

  /** SYNCHRONISATION.  Without such a message the network holds the newest of the sender's COUNTs
      it has accepted; so from the first one on its COUNT never moves back. */
  lemma {:induction false} HoldsNewest(msgs: seq<Sent>, start: Count, arrivals: seq<Arrival>, j: nat)
    requires |msgs| <= COUNT_MAX && Copies(msgs, arrivals) && NoRollback(msgs, start, arrivals)
    requires WasAccepted(msgs, start, arrivals, j)
    ensures j <= Track(msgs, start, arrivals) && WasAccepted(msgs, start, arrivals, Track(msgs, start, arrivals))
    ensures j < |msgs| && (IsNew(msgs[j].p) ==> j <= 255)
    decreases |arrivals|
  {
    var prefix := arrivals[..|arrivals| - 1];
    if WasAccepted(msgs, start, prefix, j) { HoldsNewest(msgs, start, prefix, j); }
  }

  /** REPLAY, EXACTLY.  After every run without rollback, a message that was accepted before
      passes again if and only if its COUNT is the last one, or it is for a new context and
      its COUNT at most 255, or its MAC coincides; and it moves the COUNT, always back, if
      and only if it is for a new context and below the last COUNT. */
  lemma ReplayLaw(k: Keys, msgs: seq<Sent>, start: Count, arrivals: seq<Arrival>, j: nat)
    requires Lawful(k) && Context(k, msgs) && Copies(msgs, arrivals) && start + 255 < COUNT_MAX
    requires NoChance(k, msgs, start, arrivals) && NoRollback(msgs, start, arrivals)
    requires j < |msgs| && WasAccepted(msgs, start, arrivals, j)
    ensures
      var last := CountAfter(k, msgs, start, arrivals);
      var m := Octets(k, msgs, j);
      var anew := IsNew(msgs[j].p) && j <= 255;
      && j <= last
      && (MacOk(k, last, m) <==> j == last || anew || Coincides(k, msgs, last, j))
      && (!Coincides(k, msgs, last, j) ==>
            && (DecodeSpec(k, last, m).0 != last <==> anew && j < last)
            && DecodeSpec(k, last, m).0 == if anew then j else last)
  {
    hide DecodeSpec, Octets, Coincides, MacOk, CountAfter, NoChance, NoRollback, WasAccepted, Track;
    CountIsTracked(k, msgs, start, arrivals);
    HoldsNewest(msgs, start, arrivals, j);
    CopyIs(k, msgs, Track(msgs, start, arrivals), j);
  }

  /** ANY RUN.  With rollbacks or without, a message of the context passes after a run if and only
      if it is in the window of the COUNT the run has led to, or its MAC coincides. */
  lemma PassesIff(k: Keys, msgs: seq<Sent>, start: Count, arrivals: seq<Arrival>, j: nat)
    requires Lawful(k) && Context(k, msgs) && Copies(msgs, arrivals) && start + 255 < COUNT_MAX
    requires NoChance(k, msgs, start, arrivals) && j < |msgs|
    ensures
      var last := CountAfter(k, msgs, start, arrivals);
      var m := Octets(k, msgs, j);
      && last == Track(msgs, start, arrivals)
      && (MacOk(k, last, m) <==> InWindow(msgs, last, j) || Coincides(k, msgs, last, j))
      && (InWindow(msgs, last, j) ==> DecodeSpec(k, last, m) == (j, Decoded(msgs[j].plain, true)))
  {
    hide DecodeSpec, Octets, Coincides, MacOk, InWindow, CountAfter, NoChance, Track;
    CountIsTracked(k, msgs, start, arrivals);
    CopyIs(k, msgs, Track(msgs, start, arrivals), j);
  }

  /** Witness: the message that opened the context arrives again after the one with COUNT 200.
      The network is back at COUNT 0, and the next message of the sender, which it would have
      accepted before, is dropped. */
  lemma RollbackDropsNext(k: Keys, msgs: seq<Sent>, start: Count)
    requires Lawful(k) && Context(k, msgs) && |msgs| > 300 && start + 255 < COUNT_MAX
    requires msgs[0].p == CipheredNew && msgs[200].p == Ciphered && msgs[300].p == Ciphered
    requires !Coincides(k, msgs, 0, 300)
    ensures
      var run := [Copy(0), Copy(200)];
      && Copies(msgs, run) && NoChance(k, msgs, start, run) && NoRollback(msgs, start, run)
      && WasAccepted(msgs, start, run, 0) && CountAfter(k, msgs, start, run) == 200
    ensures MacOk(k, 200, Octets(k, msgs, 300))
    ensures CountAfter(k, msgs, start, [Copy(0), Copy(200), Copy(0)]) == 0
    ensures !MacOk(k, 0, Octets(k, msgs, 300)) && DecodeSpec(k, 0, Octets(k, msgs, 300)).0 == 0
  {
    hide DecodeSpec, Octets, Coincides, MacOk;
    CopyIs(k, msgs, start, 0);
    CopyIs(k, msgs, 0, 200);
    CopyIs(k, msgs, 200, 0);
    CopyIs(k, msgs, 200, 300);
    CopyIs(k, msgs, 0, 300);
    var a, b, c := [Copy(0)], [Copy(0), Copy(200)], [Copy(0), Copy(200), Copy(0)];
    assert a[..0] == [] && b[..1] == a && c[..2] == b;
    assert CountAfter(k, msgs, start, []) == start;
    assert CountAfter(k, msgs, start, a) == 0;
    assert CountAfter(k, msgs, start, b) == 200;
    OrderlyStart(k, msgs, start);
  }

  /** Witness: after the rollback an ordinary message passes a second time. */
  lemma RollbackReplays(k: Keys, msgs: seq<Sent>, start: Count)
    requires Lawful(k) && Context(k, msgs) && |msgs| > 100 && start + 255 < COUNT_MAX
    requires IsNew(msgs[0].p) && msgs[100].p == Ciphered
    ensures CountAfter(k, msgs, start, [Copy(0), Copy(100), Copy(0)]) == 0
    ensures DecodeSpec(k, 0, Octets(k, msgs, 100)) == (100, Decoded(msgs[100].plain, true))
  {
    hide DecodeSpec, Octets, Coincides, MacOk;
    CopyIs(k, msgs, start, 0);
    CopyIs(k, msgs, 0, 100);
    CopyIs(k, msgs, 100, 0);
    var a, b, c := [Copy(0)], [Copy(0), Copy(100)], [Copy(0), Copy(100), Copy(0)];
    assert a[..0] == [] && b[..1] == a && c[..2] == b;
    assert CountAfter(k, msgs, start, []) == start;
    assert CountAfter(k, msgs, start, a) == 0;
    assert CountAfter(k, msgs, start, b) == 100;
  }

  /** The first two deliveries are a run without chance and without rollback. */
  lemma OrderlyStart(k: Keys, msgs: seq<Sent>, start: Count)
    requires Lawful(k) && Context(k, msgs) && |msgs| > 200 && start + 255 < COUNT_MAX
    requires IsNew(msgs[0].p) && msgs[200].p == Ciphered
    ensures
      var run := [Copy(0), Copy(200)];
      && Copies(msgs, run) && NoChance(k, msgs, start, run) && NoRollback(msgs, start, run)
      && WasAccepted(msgs, start, run, 0)
  {
    hide DecodeSpec, Octets, MacOk, Body;
    var a, b := [Copy(0)], [Copy(0), Copy(200)];
    assert b[..0] == [] && b[..1] == a && a[..0] == [];
    CopyIs(k, msgs, start, 0);
    assert CountAfter(k, msgs, start, []) == start && CountAfter(k, msgs, start, a) == 0;
    assert Track(msgs, start, []) == start && Track(msgs, start, a) == 0;
    assert !Coincides(k, msgs, start, 0) && !Coincides(k, msgs, 0, 200);
  }

  lemma ProtectedBody(k: Keys, p: Protection, c: Count, plain: Bytes)
    requires Lawful(k)
    ensures |Protect(k, p, c, plain)| >= 7 && Protect(k, p, c, plain)[6..] == Body(k, p, c, plain)
  {
    Slices([EPD_5GMM, TypeOctet(p)], k.mac(c, Body(k, p, c, plain)), Body(k, p, c, plain));
  }
}
