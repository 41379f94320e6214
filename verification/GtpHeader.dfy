/** GTP-U headers: the writer `gtp5g_push_header` and the reader in
    `gtp1u_udp_encap_recv` (sections 5.1 and 5.2 of 3GPP TS 29.281). */
module GtpHeader {
  import opened Base

  type byte = x: int | 0 <= x < 256
  type u16 = x: int | 0 <= x < 0x1_0000
  type u32 = x: int | 0 <= x < 0x1_0000_0000

  const UDP_LEN := 8
  const HDR_LEN := 8
  const OPT_LEN := 4
  const PDU_SESSION_CONTAINER: byte := 0x85
  const TPDU: byte := 255
  const END_MARKER: byte := 254
  const ECHO_REQUEST: byte := 1

  function Be16(x: u16): (r: seq<byte>)
    ensures |r| == 2 && FromBe16(r) == x
  {
    [x / 0x100, x % 0x100]
  }

  function FromBe16(b: seq<byte>): u16
    requires |b| == 2
  {
    0x100 * (b[0] as int) + b[1]
  }

  function Be32(x: u32): (r: seq<byte>)
    ensures |r| == 4 && FromBe32(r) == x
  {
    var r := Be16(x / 0x1_0000) + Be16(x % 0x1_0000);
    assert r[..2] == Be16(x / 0x1_0000) && r[2..] == Be16(x % 0x1_0000);
    r
  }

  function FromBe32(b: seq<byte>): u32
    requires |b| == 4
  {
    0x1_0000 * (FromBe16(b[..2]) as int) + FromBe16(b[2..])
  }

  // ---------- chains of extension headers ----------

  /** An extension header: its type, and its content without length and next-type octet. */
  datatype Ext = Ext(kind: byte, content: seq<byte>)

  /** Its length is a positive multiple of 4 octets, counted in one octet. */
  predicate ValidExt(e: Ext) {
    e.kind != 0 && (|e.content| + 2) % 4 == 0 && (|e.content| + 2) / 4 <= 255
  }

  ghost predicate ValidChain(es: seq<Ext>) { forall i :: 0 <= i < |es| ==> ValidExt(es[i]) }

  /** The type octet that announces a chain. */
  function FirstKind(es: seq<Ext>): byte { if es == [] then 0 else es[0].kind }

  /** The octets of a chain, each header ending with the type of the next one. */
  function Encode(es: seq<Ext>): seq<byte>
    requires ValidChain(es)
  {
    if es == [] then []
    else [(|es[0].content| + 2) / 4] + es[0].content + [FirstKind(es[1..])] + Encode(es[1..])
  }

  /** The extension-header walk from `h`, where octet `h - 1` announces what follows. */
  function Walk(pkt: seq<byte>, h: nat): (r: Option<nat>)
    requires 1 <= h <= |pkt|
    ensures r.Some? ==> h <= r.value <= |pkt| && pkt[r.value - 1] == 0
    decreases |pkt| - h
  {
    if pkt[h - 1] == 0 then Some(h)
    else if |pkt| < h + 1 then None
    else
      var len := 4 * (pkt[h] as int);
      if len == 0 || |pkt| < h + len then None else Walk(pkt, h + len)
  }

  /** One turn of the walk over a header of `n` times four octets. */
  lemma WalkTurn(pkt: seq<byte>, h: nat, n: nat)
    requires 1 <= h < |pkt| && pkt[h - 1] != 0 && pkt[h] == n && n > 0 && h + 4 * n <= |pkt|
    ensures Walk(pkt, h) == Walk(pkt, h + 4 * n)
  {}

  lemma WalkEnd(pkt: seq<byte>, h: nat)
    requires ChainAt(pkt, h, [])
    ensures Walk(pkt, h) == Some(h + |Encode([])|)
  {}

  /** The chain of `es` lies at `h`. */
  ghost predicate ChainAt(pkt: seq<byte>, h: nat, es: seq<Ext>) {
    && ValidChain(es) && 1 <= h && h + |Encode(es)| <= |pkt|
    && pkt[h - 1] == FirstKind(es) && pkt[h..h + |Encode(es)|] == Encode(es)
  }

  /** Behind its first header lies the rest of the chain. */
  lemma ChainTail(pkt: seq<byte>, h: nat, e: Ext, rest: seq<Ext>)
    requires ChainAt(pkt, h, [e] + rest)
    ensures
      var n := (|e.content| + 2) / 4;
      && 1 <= h && 0 < n && h + 4 * n <= |pkt| && pkt[h - 1] == e.kind != 0 && pkt[h] == n
      && |Encode([e] + rest)| == 4 * n + |Encode(rest)|
      && ChainAt(pkt, h + 4 * n, rest)
  {
    var es := [e] + rest;
    assert es[0] == e && es[1..] == rest;
    EncodeCons(e, rest);
    var enc, n := Encode(es), (|e.content| + 2) / 4;
    assert |e.content| == 4 * n - 2;
    assert enc[4 * n - 1] == FirstKind(rest) && enc[4 * n..] == Encode(rest) && enc[0] == n;
    hide Encode;
    assert pkt[h + 4 * n - 1] == pkt[h..h + |enc|][4 * n - 1];
    assert pkt[h + 4 * n..h + |enc|] == pkt[h..h + |enc|][4 * n..];
  }

  /** The walk steps over every well-formed chain and stops right behind it. */
  lemma {:induction false} WalkSkips(pkt: seq<byte>, h: nat, es: seq<Ext>)
    requires ChainAt(pkt, h, es)
    ensures Walk(pkt, h) == Some(h + |Encode(es)|)
    decreases |es|
  {
    hide ChainAt, Walk, Encode;
    if es == [] {
      WalkEnd(pkt, h);
    } else {
      var e, rest := es[0], es[1..];
      assert es == [e] + rest;
      var n := (|e.content| + 2) / 4;
      ChainTail(pkt, h, e, rest);
      WalkTurn(pkt, h, n);
      WalkSkips(pkt, h + 4 * n, rest);
    }
  }

  /** Whatever the walk steps over is a well-formed chain. */
  lemma {:induction false} WalkFindsChain(pkt: seq<byte>, h: nat) returns (es: seq<Ext>)
    requires 1 <= h <= |pkt| && Walk(pkt, h).Some?
    ensures ValidChain(es)
    ensures pkt[h - 1] == FirstKind(es) && pkt[h..Walk(pkt, h).value] == Encode(es)
    decreases |pkt| - h
  {
    hide Walk, Encode;
    WalkCases(pkt, h);
    if pkt[h - 1] == 0 {
      es := [];
      assert Encode([]) == [] by { EncodeNil(); }
    } else {
      var len := 4 * (pkt[h] as int);
      var rest := WalkFindsChain(pkt, h + len);
      var e := Ext(pkt[h - 1], pkt[h + 1..h + len - 1]);
      es := [e] + rest;
      SliceHeader(pkt, h, len, Walk(pkt, h).value);
      EncodeCons(e, rest);
    }
  }

  lemma EncodeNil() ensures Encode([]) == [] {}

  /** What a successful walk did first. */
  lemma WalkCases(pkt: seq<byte>, h: nat)
    requires 1 <= h <= |pkt| && Walk(pkt, h).Some?
    ensures
      if pkt[h - 1] == 0 then Walk(pkt, h) == Some(h)
      else
        && h < |pkt| && pkt[h] > 0 && h + 4 * (pkt[h] as int) <= |pkt|
        && Walk(pkt, h) == Walk(pkt, h + 4 * (pkt[h] as int))
  {}

  lemma SliceHeader(pkt: seq<byte>, h: nat, len: nat, end: nat)
    requires 2 <= len && h + len <= end <= |pkt|
    ensures pkt[h..end] == [pkt[h]] + pkt[h + 1..h + len - 1] + [pkt[h + len - 1]] + pkt[h + len..end]
  {}

  lemma EncodeCons(e: Ext, rest: seq<Ext>)
    requires ValidExt(e) && ValidChain(rest)
    ensures ValidChain([e] + rest)
    ensures Encode([e] + rest) == [(|e.content| + 2) / 4] + e.content + [FirstKind(rest)] + Encode(rest)
  {
    var es := [e] + rest;
    assert es[1..] == rest && es[0] == e;
    EncodeCases(es);
    hide Encode, FirstKind;
  }

  lemma EncodeCases(es: seq<Ext>)
    requires ValidChain(es) && es != []
    ensures Encode(es) == [(|es[0].content| + 2) / 4] + es[0].content + [FirstKind(es[1..])] + Encode(es[1..])
  {}

  /** EXACTNESS OF THE WALK.  It ends at `end` if and only if a well-formed chain of
      extension headers lies between `h` and `end`. */
  lemma WalkIff(pkt: seq<byte>, h: nat, end: nat)
    requires 1 <= h <= end <= |pkt|
    ensures Walk(pkt, h) == Some(end) <==>
              exists es :: ValidChain(es) && pkt[h - 1] == FirstKind(es) && pkt[h..end] == Encode(es)
  {
    hide Walk, Encode, FirstKind;
    if Walk(pkt, h) == Some(end) {
      var es := WalkFindsChain(pkt, h);
    }
    if es :| ValidChain(es) && pkt[h - 1] == FirstKind(es) && pkt[h..end] == Encode(es) {
      assert |Encode(es)| == end - h;
      WalkSkips(pkt, h, es);
    }
  }

  // ---------- reading ----------

  datatype Parsed = Dropped | ToApplication | EchoRequest | Message(kind: byte, teid: u32, hdrlen: nat)

  /** What the reader makes of a datagram (UDP header included). */
  function ParseSpec(pkt: seq<byte>): Parsed {
    if |pkt| < UDP_LEN + HDR_LEN then Dropped
    else
      var flags, kind := pkt[8], pkt[9];
      var teid := FromBe32(pkt[12..16]);
      if flags / 32 != 1 then ToApplication
      else if kind == ECHO_REQUEST then EchoRequest
      else if kind != TPDU && kind != END_MARKER then ToApplication
      else if flags % 8 == 0 then Message(kind, teid, 16)
      else if |pkt| < 20 then Dropped
      else match Walk(pkt, 20)
        case None => Dropped
        case Some(h) => Message(kind, teid, h)
  }

  /** The reader: every access is to octets that were checked to be present. */
  method Parse(pkt: seq<byte>) returns (r: Parsed)
    ensures r == ParseSpec(pkt)
    ensures r.Message? ==> 16 <= r.hdrlen <= |pkt|
  {
    var hdrlen := UDP_LEN + HDR_LEN;
    if |pkt| < hdrlen { return Dropped; }
    var flags := pkt[8];
    if flags / 32 != 1 { return ToApplication; }
    var kind, teid := pkt[9], FromBe32(pkt[12..16]);
    if kind == ECHO_REQUEST { return EchoRequest; }
    if kind != TPDU && kind != END_MARKER { return ToApplication; }
    if flags % 8 != 0 {
      hdrlen := hdrlen + OPT_LEN;
      if |pkt| < hdrlen { return Dropped; }
      while pkt[hdrlen - 1] != 0
        invariant 20 <= hdrlen <= |pkt|
        invariant Walk(pkt, 20) == Walk(pkt, hdrlen)
        decreases |pkt| - hdrlen
      {
        if |pkt| < hdrlen + 1 { return Dropped; }
        var extlen := 4 * (pkt[hdrlen] as int);
        if extlen == 0 { return Dropped; }
        hdrlen := hdrlen + extlen;
        if |pkt| < hdrlen { return Dropped; }
      }
    }
    return Message(kind, teid, hdrlen);
  }

  // ---------- writing ----------

  /** Header parameters; `sequencing` is the module-wide switch. */
  datatype Info = Info(teid: u32, qfi: byte, uplink: bool, sequencing: bool, seqNumber: u16)

  function Container(i: Info): Ext { Ext(PDU_SESSION_CONTAINER, [if i.uplink then 0x10 else 0, i.qfi]) }

  function Chain(i: Info): seq<Ext> { if i.qfi > 0 then [Container(i)] else [] }

  predicate HasOptions(i: Info) { i.qfi > 0 || i.sequencing }

  /** The value written into the length field. */
  function LengthField(i: Info, payloadLen: nat): u16 {
    (payloadLen + (if HasOptions(i) then 8 else 0)) % 0x1_0000
  }

  function Mandatory(i: Info, payloadLen: nat): (r: seq<byte>)
    ensures |r| == HDR_LEN
  {
    [0x30 + (if i.qfi > 0 then 4 else 0) + (if i.sequencing then 2 else 0), TPDU]
      + Be16(LengthField(i, payloadLen)) + Be32(i.teid)
  }

  function Options(i: Info): seq<byte> {
    if !HasOptions(i) then []
    else Be16(if i.sequencing then i.seqNumber else 0) + [0] + [FirstKind(Chain(i))]
  }

  function Header(i: Info, payloadLen: nat): seq<byte> {
    assert ValidChain(Chain(i));
    Mandatory(i, payloadLen) + Options(i) + Encode(Chain(i))
  }

  lemma ContainerOctets(i: Info)
    ensures ValidChain(Chain(i))
    ensures Encode(Chain(i)) == if i.qfi > 0 then [1, if i.uplink then 0x10 else 0, i.qfi, 0] else []
  {
    if i.qfi > 0 {
      EncodeCons(Container(i), []);
      assert [Container(i)] + [] == Chain(i);
    }
  }

  /** Three pushes in front of a payload are one. */
  lemma Concat4(a: seq<byte>, b: seq<byte>, c: seq<byte>, d: seq<byte>)
    ensures a + (b + (c + d)) == a + b + c + d
  {}

  /** The pushed optional part, octet by octet. */
  lemma OptionOctets(i: Info)
    requires HasOptions(i)
    ensures Options(i) == Be16(if i.sequencing then i.seqNumber else 0)
                            + [0, if i.qfi > 0 then PDU_SESSION_CONTAINER else 0]
  {
    hide Be16;
    assert [0] + [FirstKind(Chain(i))] == [0, FirstKind(Chain(i))];
  }

  /** `gtp5g_push_header`: prepend container, optional part and mandatory part. */
  method PushHeader(payload: seq<byte>, i: Info) returns (skb: seq<byte>)
    ensures skb == Header(i, |payload|) + payload
  {
    ContainerOctets(i);
    if HasOptions(i) { OptionOctets(i); }
    hide Encode, Be16, Be32, Chain;
    var payloadLen := |payload|;
    var seqNumber: u16 := 0;
    var next: byte := 0;
    var extFlag, optFlag := false, false;
    var container: seq<byte> := [];
    if i.qfi > 0 {
      extFlag, optFlag := true, true;
      container := [1, if i.uplink then 0x10 else 0, i.qfi, 0];
      next := PDU_SESSION_CONTAINER;
    }
    skb := container + payload;
    if i.sequencing {
      optFlag := true;
      seqNumber := i.seqNumber;
    }
    var options: seq<byte> := [];
    if optFlag {
      options := Be16(seqNumber) + [0, next];
      payloadLen := payloadLen + 4 + 4;
    }
    skb := options + skb;
    var flags: byte := 0x30;
    if extFlag { flags := flags + 4; }
    if i.sequencing { flags := flags + 2; }
    var mandatory := [flags, TPDU] + Be16(payloadLen % 0x1_0000) + Be32(i.teid);
    skb := mandatory + skb;
    Concat4(mandatory, options, container, payload);
  }

  /** ROUND TRIP.  For every payload and all parameters, reading what was written (behind
      any UDP header) yields a T-PDU with the TEID and exactly the payload. */
  lemma ParseInvertsPush(udp: seq<byte>, i: Info, payload: seq<byte>)
    requires |udp| == UDP_LEN
    ensures
      var pkt := udp + Header(i, |payload|) + payload;
      var h := UDP_LEN + |Header(i, |payload|)|;
      ParseSpec(pkt) == Message(TPDU, i.teid, h) && pkt[h..] == payload
  {
    var pkt := udp + Header(i, |payload|) + payload;
    PushedFields(udp, i, payload);
    if HasOptions(i) {
      PushedWalk(udp, i, payload);
    } else {
      assert Header(i, |payload|) == Mandatory(i, |payload|);
    }
    hide Header, Walk, FromBe32, Be32;
  }

  /** The mandatory fields as the reader sees them. */
  lemma PushedFields(udp: seq<byte>, i: Info, payload: seq<byte>)
    requires |udp| == UDP_LEN
    ensures
      var pkt := udp + Header(i, |payload|) + payload;
      && |pkt| >= 16 && pkt[8] / 32 == 1 && pkt[9] == TPDU
      && (pkt[8] % 8 == 0 <==> !HasOptions(i))
      && FromBe32(pkt[12..16]) == i.teid
  {
    hide FromBe32, Be32, Be16, Encode;
    var m := Mandatory(i, |payload|);
    var pkt := udp + Header(i, |payload|) + payload;
    assert pkt[8..16] == m;
    assert pkt[8] == m[0] && pkt[9] == m[1];
    assert pkt[12..16] == m[4..8] == Be32(i.teid);
  }

  lemma PushedWalk(udp: seq<byte>, i: Info, payload: seq<byte>)
    requires |udp| == UDP_LEN && HasOptions(i)
    ensures
      var pkt := udp + Header(i, |payload|) + payload;
      |pkt| >= 20 && Walk(pkt, 20) == Some(UDP_LEN + |Header(i, |payload|)|)
  {
    hide FromBe32, Be32, Be16, Encode, Walk;
    var m, o, c := Mandatory(i, |payload|), Options(i), Encode(Chain(i));
    var pkt := udp + Header(i, |payload|) + payload;
    assert pkt == udp + m + o + c + payload;
    assert pkt[19] == o[3] == FirstKind(Chain(i));
    assert pkt[20..20 + |c|] == c;
    WalkSkips(pkt, 20, Chain(i));
  }

  /** THE OCTETS OF A HEADER.  Version 1, protocol type GTP, extension bit exactly with a QFI,
      sequence-number bit exactly with sequence numbers, no N-PDU number; T-PDU; length and
      TEID, the most significant octet first.  With one of the two: the sequence number, no
      N-PDU number, and the type of what follows.  With a QFI: one container of four octets
      with the PDU type and the QFI, and nothing behind it. */
  lemma HeaderOctets(i: Info, payloadLen: nat)
    ensures
      var h := Header(i, payloadLen);
      && |h| == 8 + (if i.qfi > 0 || i.sequencing then 4 else 0) + (if i.qfi > 0 then 4 else 0)
      && h[0] / 32 == 1 && h[0] / 16 % 2 == 1 && h[0] / 8 % 2 == 0
      && (h[0] / 4 % 2 == 1 <==> i.qfi > 0) && (h[0] / 2 % 2 == 1 <==> i.sequencing) && h[0] % 2 == 0
      && h[1] == 255
      && 0x100 * (h[2] as int) + h[3] == (payloadLen + (if i.qfi > 0 || i.sequencing then 8 else 0)) % 0x1_0000
      && 0x100_0000 * (h[4] as int) + 0x1_0000 * (h[5] as int) + 0x100 * (h[6] as int) + h[7] == i.teid
      && (i.qfi > 0 || i.sequencing ==>
            && 0x100 * (h[8] as int) + h[9] == (if i.sequencing then i.seqNumber else 0) && h[10] == 0
            && h[11] == if i.qfi > 0 then 0x85 else 0)
      && (i.qfi > 0 ==> h[12] == 1 && h[13] / 16 == (if i.uplink then 1 else 0) && h[13] % 16 == 0
                        && h[14] == i.qfi && h[15] == 0)
  {
    ContainerOctets(i);
    if HasOptions(i) { OptionOctets(i); }
    hide Encode, Options, Chain;
    var h, m, o, c := Header(i, payloadLen), Mandatory(i, payloadLen), Options(i), Encode(Chain(i));
    assert h[..8] == m && m[2..4] == Be16(LengthField(i, payloadLen)) && m[4..8] == Be32(i.teid);
    MandatoryOctets(i, payloadLen);
    if HasOptions(i) {
      assert h[8] == o[0] && h[9] == o[1] && h[10] == o[2] && h[11] == o[3];
    }
    if i.qfi > 0 { assert h[12] == c[0] && h[13] == c[1] && h[14] == c[2] && h[15] == c[3]; }
  }

  lemma MandatoryOctets(i: Info, payloadLen: nat)
    ensures
      var m := Mandatory(i, payloadLen);
      && m[0] == 0x30 + (if i.qfi > 0 then 4 else 0) + (if i.sequencing then 2 else 0) && m[1] == 255
      && 0x100 * (m[2] as int) + m[3] == LengthField(i, payloadLen)
      && 0x100_0000 * (m[4] as int) + 0x1_0000 * (m[5] as int) + 0x100 * (m[6] as int) + m[7] == i.teid
  {}

  /** THE LENGTH OCTETS give the number of octets after the mandatory header if and only if that
      number fits 16 bits and a container is present or sequence numbers are off. */
  lemma LengthFieldIff(i: Info, payloadLen: nat)
    ensures
      var h := Header(i, payloadLen);
      var octets := |h| - 8 + payloadLen;
      && |h| >= 8
      && (0x100 * (h[2] as int) + h[3] == octets <==> octets < 0x1_0000 && (i.qfi > 0 || !i.sequencing))
  {
    hide Header;
    HeaderOctets(i, payloadLen);
  }

  /** READING, EXACTLY.  What the reader makes of any datagram, by its octets. */
  lemma ParseIff(pkt: seq<byte>, kind: byte, teid: u32, h: nat)
    ensures ParseSpec(pkt) == Message(kind, teid, h) <==>
              && |pkt| >= 16 && pkt[8] / 32 == 1 && pkt[9] == kind && (kind == 255 || kind == 254)
              && 0x100_0000 * (pkt[12] as int) + 0x1_0000 * (pkt[13] as int)
                   + 0x100 * (pkt[14] as int) + pkt[15] == teid
              && (if pkt[8] % 8 == 0 then h == 16
                  else 20 <= h <= |pkt| &&
                       exists es :: ValidChain(es) && pkt[19] == FirstKind(es) && pkt[20..h] == Encode(es))
    ensures ParseSpec(pkt) == EchoRequest <==> |pkt| >= 16 && pkt[8] / 32 == 1 && pkt[9] == 1
    ensures ParseSpec(pkt) == ToApplication <==>
              |pkt| >= 16 && (pkt[8] / 32 != 1 || (pkt[9] != 1 && pkt[9] != 254 && pkt[9] != 255))
  {
    if |pkt| >= 16 { assert pkt[12..16] == [pkt[12], pkt[13], pkt[14], pkt[15]]; TeidOctets(pkt[12..16]); }
    if |pkt| >= 20 && 20 <= h <= |pkt| { WalkIff(pkt, 20, h); }
    hide Walk, Encode, FirstKind, FromBe32, ValidChain;
  }

  lemma TeidOctets(b: seq<byte>)
    requires |b| == 4
    ensures FromBe32(b) == 0x100_0000 * (b[0] as int) + 0x1_0000 * (b[1] as int) + 0x100 * (b[2] as int) + b[3]
  {}
}
