/** The rules of the data plane and the predicates that match packets against them. */
module Rules {
  import opened Base

  /** Session endpoint id and rule id; `seid.c` only turns it into a bucket selector. */
  datatype Key = Key(seid: nat, id: nat)

  /** Identity of a kernel object: a fresh number per allocation. */
  type Ref = nat

  datatype FTeid = FTeid(teid: nat, addr: bv32)

  datatype PortRange = PortRange(start: nat, end: nat)

  datatype IpRule = IpRule(
    direction: nat, proto: nat,
    src: bv32, smask: bv32, dst: bv32, dmask: bv32,
    sports: seq<PortRange>, dports: seq<PortRange>)

  datatype Sdf = Sdf(rule: Option<IpRule>)

  datatype Pdi = Pdi(ueAddr: Option<bv32>, fTeid: Option<FTeid>, sdf: Option<Sdf>)

  /** A list node of a kernel object: never linked, in a list, or deleted from one and not
      linked again (`hlist_del_rcu` then leaves a poisoned back pointer behind). */
  datatype ListNode = Free | InList | Poisoned

  /** The node after `hlist_del_rcu` where it is linked, and a new link if there is one. */
  function NextNode(was: ListNode, link: bool): ListNode {
    if link then InList else if was == Free then Free else Poisoned
  }

  datatype Pdr = Pdr(
    precedence: nat, pdi: Option<Pdi>,
    farId: nat, far: Option<Ref>,
    qerIds: seq<nat>, qerWithRate: Option<Ref>,
    urrIds: seq<nat>,
    teidNode: ListNode, addrNode: ListNode)

  datatype Qer = Qer(ref: Ref, hasRate: bool)

  /** The device parameters; nothing is known about the three hash functions. */
  datatype Config = Config(
    size: nat, keyHash: Key -> nat, teidHash: nat -> nat, addrHash: bv32 -> nat,
    upf: bool, matchOuterIp: bool)

  /** Buckets, each a list of linked PDRs. */
  type Table = seq<seq<Key>>

  // ---------- packet matching ----------

  /** Inner IPv4 header as far as the buffer holds it. */
  datatype Inner = Inner(proto: nat, saddr: bv32, daddr: bv32, ports: Option<(nat, nat)>)

  datatype Packet = Packet(isIpv4: bool, outerDst: bv32, inner: Option<Inner>)

  const FILTER_OUT: nat := 2
  const PROTO_ANY: nat := 0xff

  predicate Ipv4Match(target: bv32, addr: bv32, mask: bv32) { (target ^ addr) & mask == 0 }

  ghost predicate PortsMatch(ranges: seq<PortRange>, port: nat) {
    ranges == [] || exists r :: r in ranges && r.start <= port <= r.end
  }

  ghost predicate RuleMatch(rule: IpRule, ip: Inner) {
    && rule.direction == FILTER_OUT
    && (rule.proto == PROTO_ANY || rule.proto == ip.proto)
    && Ipv4Match(ip.saddr, rule.src, rule.smask)
    && Ipv4Match(ip.daddr, rule.dst, rule.dmask)
    && (|rule.sports| + |rule.dports| > 0 ==>
          && ip.ports.Some?
          && PortsMatch(rule.sports, ip.ports.value.0)
          && PortsMatch(rule.dports, ip.ports.value.1))
  }

  /** An absent filter matches everything; a filter needs a readable inner header. */
  ghost predicate SdfMatch(sdf: Option<Sdf>, pkt: Packet) {
    sdf.Some? ==> pkt.inner.Some? && (sdf.value.rule.Some? ==> RuleMatch(sdf.value.rule.value, pkt.inner.value))
  }

  /** What makes `pdr_find_by_gtp1u` stop at a PDR. */
  ghost predicate GtpMatch(cfg: Config, p: Pdr, pkt: Packet, teid: nat, tpdu: bool)
    requires tpdu ==> pkt.inner.Some?
  {
    && p.pdi.Some? && p.pdi.value.fTeid.Some?
    && var pdi := p.pdi.value;
    && pdi.fTeid.value.teid == teid
    && (tpdu ==>
          && (cfg.matchOuterIp ==> pdi.fTeid.value.addr == pkt.outerDst)
          && (pdi.ueAddr.Some? ==>
                pdi.ueAddr.value == if cfg.upf then pkt.inner.value.saddr else pkt.inner.value.daddr)
          && SdfMatch(pdi.sdf, pkt))
  }

  ghost predicate WithinOne(ranges: seq<PortRange>, port: nat) {
    exists i :: 0 <= i < |ranges| && ranges[i].start <= port <= ranges[i].end
  }

  /** Two addresses agree on the bits of a mask. */
  predicate SameBits(a: bv32, b: bv32, mask: bv32) { a & mask == b & mask }

  lemma MaskedMatch(target: bv32, addr: bv32, mask: bv32)
    ensures Ipv4Match(target, addr, mask) <==> SameBits(target, addr, mask)
  {
    assert (target ^ addr) & mask == (target & mask) ^ (addr & mask);
  }

  /** WHICH PACKETS A RULE LETS PASS, by its numbers: an outgoing rule (2) with the protocol of the packet
      or any (255), with source and destination that agree on the bits of the masks, and, if
      there are port ranges, readable ports within one range each, where no range means any port. */
  lemma RuleIff(r: IpRule, ip: Inner)
    ensures RuleMatch(r, ip) <==>
              && r.direction == 2 && (r.proto == 255 || r.proto == ip.proto)
              && SameBits(ip.saddr, r.src, r.smask) && SameBits(ip.daddr, r.dst, r.dmask)
              && (r.sports != [] || r.dports != [] ==>
                    && ip.ports.Some?
                    && (r.sports == [] || WithinOne(r.sports, ip.ports.value.0))
                    && (r.dports == [] || WithinOne(r.dports, ip.ports.value.1)))
  {
    hide Ipv4Match, SameBits, PortsMatch, WithinOne;
    MaskedMatch(ip.saddr, r.src, r.smask);
    MaskedMatch(ip.daddr, r.dst, r.dmask);
    if ip.ports.Some? {
      PortsIff(r.sports, ip.ports.value.0);
      PortsIff(r.dports, ip.ports.value.1);
    }
  }

  /** WHICH PACKETS A FILTER LETS PASS: without a filter all; else those with a readable inner header
      and, if the filter has a rule, those that the rule lets pass. */
  lemma FilterIff(sdf: Option<Sdf>, pkt: Packet)
    ensures SdfMatch(sdf, pkt) <==>
              || sdf.None?
              || (pkt.inner.Some? && (sdf.value.rule.None? || RuleMatch(sdf.value.rule.value, pkt.inner.value)))
  {
    hide RuleMatch;
  }

  lemma PortsIff(ranges: seq<PortRange>, port: nat)
    ensures PortsMatch(ranges, port) <==> ranges == [] || WithinOne(ranges, port)
  {
    if r :| r in ranges && r.start <= port <= r.end {
      var i :| 0 <= i < |ranges| && ranges[i] == r;
      assert ranges[i].start <= port <= ranges[i].end;
    }
  }

  /** WHICH PACKETS A PDR TAKES from a tunnel: its TEID is the one of the packet; and of a T-PDU also
      the outer address if outer addresses are compared, the UE address if the PDR has one, and
      the filter. */
  lemma GtpMatchIff(cfg: Config, pdi: Pdi, p: Pdr, pkt: Packet, teid: nat, tpdu: bool)
    requires (tpdu ==> pkt.inner.Some?) && p.pdi == Some(pdi) && pdi.fTeid.Some?
    ensures !tpdu ==> (GtpMatch(cfg, p, pkt, teid, tpdu) <==> pdi.fTeid.value.teid == teid)
    ensures tpdu ==>
              (GtpMatch(cfg, p, pkt, teid, tpdu) <==>
                 && pdi.fTeid.value.teid == teid && (!cfg.matchOuterIp || pkt.outerDst == pdi.fTeid.value.addr)
                 && (pdi.ueAddr.None? || pdi.ueAddr.value == pkt.inner.value.saddr || !cfg.upf)
                 && (pdi.ueAddr.None? || pdi.ueAddr.value == pkt.inner.value.daddr || cfg.upf)
                 && SdfMatch(pdi.sdf, pkt))
  {
    hide SdfMatch;
  }

  /** What makes `pdr_find_by_ipv4` stop at a PDR. */
  ghost predicate AddrMatch(p: Pdr, pkt: Packet, addr: bv32) {
    && p.pdi.Some? && p.pdi.value.ueAddr == Some(addr)
    && SdfMatch(p.pdi.value.sdf, pkt)
  }

  /** `ports_match`: an empty list means any port. */
  method CheckPorts(ranges: seq<PortRange>, port: nat) returns (ok: bool)
    ensures ok <==> PortsMatch(ranges, port)
  {
    if |ranges| == 0 { return true; }
    for i := 0 to |ranges|
      invariant forall r :: r in ranges[..i] ==> !(r.start <= port <= r.end)
    {
      if ranges[i].start <= port && ranges[i].end >= port { return true; }
    }
    assert ranges[..|ranges|] == ranges;
    return false;
  }

  /** `sdf_filter_match`: true exactly when every present condition holds. */
  method CheckSdf(sdf: Option<Sdf>, pkt: Packet) returns (ok: bool)
    ensures ok <==> SdfMatch(sdf, pkt)
  {
    if sdf.None? { return true; }
    if pkt.inner.None? { return false; }
    var ip := pkt.inner.value;
    if sdf.value.rule.None? { return true; }
    var rule := sdf.value.rule.value;
    if rule.direction != FILTER_OUT { return false; }
    if rule.proto != PROTO_ANY && rule.proto != ip.proto { return false; }
    if !Ipv4Match(ip.saddr, rule.src, rule.smask) { return false; }
    if !Ipv4Match(ip.daddr, rule.dst, rule.dmask) { return false; }
    if |rule.sports| + |rule.dports| > 0 {
      if ip.ports.None? { return false; }
      var okS := CheckPorts(rule.sports, ip.ports.value.0);
      if !okS { return false; }
      var okD := CheckPorts(rule.dports, ip.ports.value.1);
      if !okD { return false; }
    }
    return true;
  }
}
