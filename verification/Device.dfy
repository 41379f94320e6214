/** The gtp5g device as the driver holds it: tables that the netlink handlers and the
    receive path update in place, each handler proved against its step. */
module Device {
  import opened Base
  import opened Rules
  import opened Classifier
  import opened Links
  import opened RuleEngine

  class GtpDevice {
    const cfg: Config
    var pdrs: map<Key, Pdr>
    var fars: map<Key, Ref>
    var qers: map<Key, Qer>
    var iTeid: Table
    var addr: Table
    var relFar: Table
    var relQer: Table
    var relUrr: Table
    var next: Ref

    ghost function View(): Dev
      reads this
    {
      Dev(pdrs, fars, qers, iTeid, addr, relFar, relQer, relUrr, next)
    }

    ghost predicate Valid()
      reads this
    {
      Inv(cfg, View())
    }

    constructor (cfg: Config)
      requires cfg.size > 0
      ensures this.cfg == cfg && View() == Init(cfg) && Valid()
    {
      this.cfg := cfg;
      pdrs, fars, qers, next := map[], map[], map[], 0;
      var empty: Table := seq(cfg.size, _ => []);
      iTeid, addr, relFar, relQer, relUrr := empty, empty, empty, empty, empty;
      InitInv(cfg);
    }

    // ---------- FAR commands ----------

    /** The walk over `related_far_hash` in `far_update` and `far_context_delete`. */
    method WalkFar(fk: Key, far: Option<Ref>)
      requires Valid()
      modifies this`pdrs
      ensures pdrs == SetFar(old(pdrs), relFar[Bucket(cfg, fk)], fk, far)
    {
      var bucket := relFar[Bucket(cfg, fk)];
      forall k | k in bucket ensures k in pdrs { NoDangling(cfg, FarKind, relFar, pdrs, Bucket(cfg, fk), k); }
      assert pdrs == SetFar(pdrs, bucket[..0], fk, far);
      hide Inv, SetFar;
      for i := 0 to |bucket|
        invariant pdrs == SetFar(old(pdrs), bucket[..i], fk, far)
      {
        var k := bucket[i];
        WalkSnoc(old(pdrs), bucket, i, fk, far);
        if FarKey(k, pdrs[k]) == fk {
          pdrs := pdrs[k := pdrs[k].(far := far)];
        }
      }
      assert bucket[..|bucket|] == bucket;
    }

    /** `gtp5g_genl_add_far`. */
    method AddFar(fk: Key, flags: Flags, hasAction: bool, paramsOk: bool) returns (st: Status)
      requires Valid()
      modifies this
      ensures (View(), st) == Step(cfg, old(View()), PutFar(fk, flags, hasAction, paramsOk))
      ensures Valid()
    {
      hide Inv, SetFar;
      PutFarInv(cfg, View(), fk, flags, hasAction, paramsOk);
      if fk in fars {
        if flags.excl { return Exists; }
        if !flags.replace { return NotSupported; }
        if !paramsOk {
          WalkFar(fk, None);
          fars := fars - {fk};
          return Invalid;
        }
        WalkFar(fk, Some(fars[fk]));
        return Ok;
      }
      if flags.replace { return NoEntry; }
      if flags.append { return NotSupported; }
      if !hasAction { return Invalid; }
      var far := next;
      if !paramsOk {
        WalkFar(fk, None);
        fars := fars - {fk};
        next := next + 1;
        return Invalid;
      }
      WalkFar(fk, Some(far));
      next := next + 1;
      fars := fars[fk := far];
      return Ok;
    }

    /** `gtp5g_genl_del_far`. */
    method RemoveFar(fk: Key) returns (st: Status)
      requires Valid()
      modifies this
      ensures (View(), st) == Step(cfg, old(View()), DelFar(fk))
      ensures Valid()
    {
      hide Inv, SetFar;
      DelFarInv(cfg, View(), fk);
      if fk !in fars { return NoEntry; }
      WalkFar(fk, None);
      fars := fars - {fk};
      return Ok;
    }

    // ---------- QER commands ----------

    /** `gtp5g_genl_add_qer`. */
    method AddQer(qk: Key, flags: Flags, hasMbr: bool) returns (st: Status)
      requires Valid()
      modifies this
      ensures (View(), st) == Step(cfg, old(View()), PutQer(qk, flags, hasMbr))
      ensures Valid()
    {
      hide Inv;
      PutQerInv(cfg, View(), qk, flags, hasMbr);
      if qk in qers {
        if flags.excl { return Exists; }
        if !flags.replace { return NotSupported; }
        var q := qers[qk];
        if hasMbr { q := q.(hasRate := true); }
        qers := qers[qk := q];
        return Ok;
      }
      if flags.replace { return NoEntry; }
      if flags.append { return NotSupported; }
      qers := qers[qk := Qer(next, hasMbr)];
      next := next + 1;
      return Ok;
    }

    /** `gtp5g_genl_del_qer`. */
    method RemoveQer(qk: Key) returns (st: Status)
      requires Valid()
      modifies this
      ensures (View(), st) == Step(cfg, old(View()), DelQer(qk))
      ensures Valid()
    {
      RelatedSize(cfg, View());
      hide Inv, ClearRate;
      DelQerInv(cfg, View(), qk);
      if qk !in qers { return NoEntry; }
      WalkQer(Bucket(cfg, qk));
      qers := qers - {qk};
      return Ok;
    }

    /** The loop of `set_pdr_qer_with_rate_null`. */
    method WalkQer(b: nat)
      requires Valid() && b < |relQer|
      modifies this`pdrs
      ensures pdrs == ClearRate(old(pdrs), relQer[b])
    {
      QerNodesInstalled(cfg, View(), b);
      var bucket := relQer[b];
      assert pdrs == ClearRate(pdrs, bucket[..0]);
      hide Inv, ClearRate;
      for i := 0 to |bucket|
        invariant pdrs == ClearRate(old(pdrs), bucket[..i])
      {
        var k := bucket[i];
        WalkSnoc(old(pdrs), bucket, i, Key(0, 0), None);
        pdrs := pdrs[k := pdrs[k].(qerWithRate := None)];
      }
      assert bucket[..|bucket|] == bucket;
    }

    // ---------- PDR commands ----------

    /** The loop that picks the QER to police with. */
    method PickRate(seid: nat, ids: seq<nat>, current: Option<Ref>) returns (r: Option<Ref>)
      ensures r == RateOf(qers, seid, ids, current)
    {
      r := current;
      for i := 0 to |ids|
        invariant r == RateOf(qers, seid, ids[..i], current)
      {
        assert ids[..i + 1][..i] == ids[..i];
        var qk := Key(seid, ids[i]);
        if qk in qers && qers[qk].hasRate { r := Some(qers[qk].ref); }
      }
      assert ids[..|ids|] == ids;
    }

    /** The attribute loop of `pdr_fill`. */
    method Fill(p: Pdr, a: PdrAttrs) returns (r: Pdr)
      ensures r == FillPdr(p, a)
    {
      var q := MergeIds(p.qerIds, a.qerIds);
      var u := MergeIds(p.urrIds, a.urrIds);
      r := p.(qerIds := q, urrIds := u);
      if a.precedence.Some? { r := r.(precedence := a.precedence.value); }
      if a.farId.Some? { r := r.(farId := a.farId.value); }
      if a.pdi.Some? {
        var pdi := if p.pdi.Some? then p.pdi.value else Pdi(None, None, None);
        if a.pdi.value.ueAddr.Some? { pdi := pdi.(ueAddr := a.pdi.value.ueAddr); }
        if a.pdi.value.fTeid.Some? { pdi := pdi.(fTeid := a.pdi.value.fTeid); }
        if a.pdi.value.sdf.Some? { pdi := pdi.(sdf := a.pdi.value.sdf); }
        r := r.(pdi := Some(pdi));
      }
    }

    /** One table of `pdr_update_hlist_table`: unlink, then link by precedence. */
    method UpdateTable(ix: Index, tbl: Table, k: Key, p: Pdr) returns (r: Table)
      requires Indexed(cfg, ix, tbl, pdrs)
      ensures r == Relink(cfg, ix, tbl, pdrs, k, p)
    {
      UnlinkedMembers(cfg, ix, tbl, pdrs, k);
      hide Unlink, Insert;
      r := Unlink(tbl, k);
      var slot := SlotOf(cfg, ix, p);
      if slot.Some? {
        var l := InsertByPrecedence(r[slot.value], pdrs - {k}, k, p.precedence);
        r := r[slot.value := l];
      }
    }

    /** `far_set_pdr`, `urr_set_pdr` and `qer_set_pdr`. */
    method SetAllRelated(k: Key, p: Pdr)
      requires Valid()
      modifies this`relFar, this`relUrr, this`relQer
      ensures |old(relFar)| == |old(relUrr)| == |old(relQer)| == cfg.size > 0
      ensures relFar == Renode(cfg, FarKind, old(relFar), k, p)
      ensures relUrr == Renode(cfg, UrrKind, old(relUrr), k, p)
      ensures relQer == Renode(cfg, QerKind, old(relQer), k, p)
    {
      RelatedSize(cfg, View());
      hide Inv, SetNodes, Buckets;
      relFar := SetRelated(cfg, relFar, k.seid, [p.farId], k);
      relUrr := SetRelated(cfg, relUrr, k.seid, p.urrIds, k);
      relQer := SetRelated(cfg, relQer, k.seid, p.qerIds, k);
    }

    /** The part of `pdr_fill` after the FAR was found. */
    method Register(k: Key, p1: Pdr, far: Ref)
      requires Valid()
      modifies this
      ensures View() == Install(cfg, old(View()), k, Linked(cfg, old(View()), k, p1, far))
    {
      RelatedSize(cfg, View());
      hide Indexed, Related, FarLinked, RateLive, Fresh, AllNodesRight, NextNode, SlotOf, Relink, SetNodes, RateOf;
      var rate := PickRate(k.seid, p1.qerIds, p1.qerWithRate);
      var p := p1.(far := Some(far), qerWithRate := rate,
                   teidNode := NextNode(p1.teidNode, SlotOf(cfg, ByTeid, p1).Some?),
                   addrNode := NextNode(p1.addrNode, SlotOf(cfg, ByAddr, p1).Some?));
      assert p == Linked(cfg, View(), k, p1, far);
      SetAllRelated(k, p);
      var t := UpdateTable(ByTeid, iTeid, k, p);
      var d := UpdateTable(ByAddr, addr, k, p);
      iTeid, addr := t, d;
      pdrs := pdrs[k := p];
    }

    /** `gtp5g_genl_add_pdr`: exact for every command; the admissible ones, and no others,
        neither fault nor break the invariant. */
    method AddPdr(k: Key, flags: Flags, a: PdrAttrs) returns (st: Status)
      requires Valid()
      modifies this
      ensures (View(), st) == Step(cfg, old(View()), PutPdr(k, flags, a))
      ensures Valid() && !st.IsFault() <==> Admissible(cfg, old(View()), PutPdr(k, flags, a))
    {
      hide Inv, FillAndInstall, Admissible;
      StepInvIff(cfg, View(), PutPdr(k, flags, a));
      if k in pdrs {
        if flags.excl { return Exists; }
        if !flags.replace { return NotSupported; }
        if HasPoison(pdrs[k]) { return PoisonedList; }
        st := FillPdrAndRegister(k, pdrs[k], a);
        return;
      }
      if flags.replace { return NoEntry; }
      if flags.append { return NotSupported; }
      if a.precedence.None? { return Invalid; }
      if a.farId.None? { return NullPointer; }
      st := FillPdrAndRegister(k, BLANK, a);
    }

    /** `pdr_fill`, and `pdr_context_delete` when it fails. */
    method FillPdrAndRegister(k: Key, p0: Pdr, a: PdrAttrs) returns (st: Status)
      requires Valid()
      modifies this
      ensures (View(), st) == FillAndInstall(cfg, old(View()), k, p0, a)
    {
      hide Inv, Install, FillPdr, Linked, Unlink, Renode;
      var p := Fill(p0, a);
      if FarKey(k, p) !in fars {
        Free(k);
        return Invalid;
      }
      if !a.socketOk {
        SetAllRelated(k, p);
        Free(k);
        return Invalid;
      }
      Register(k, p, fars[FarKey(k, p)]);
      return Ok;
    }

    /** `pdr_context_delete`, where no node is poisoned. */
    method Free(k: Key)
      modifies this`pdrs, this`iTeid, this`addr
      ensures View() == Drop(old(View()), k)
    {
      pdrs, iTeid, addr := pdrs - {k}, Unlink(iTeid, k), Unlink(addr, k);
    }

    /** `gtp5g_genl_del_pdr`. */
    method RemovePdr(k: Key) returns (st: Status)
      requires Valid()
      modifies this
      ensures (View(), st) == Step(cfg, old(View()), DelPdr(k))
      ensures Valid()
      ensures !st.IsFault() <==> Admissible(cfg, old(View()), DelPdr(k))
    {
      hide Inv, DelNodes, Unlink, Buckets;
      ghost var s := View();
      DelPdrInv(cfg, s, k);
      PoisonIsInAddrNode(cfg, s);
      RelatedSize(cfg, s);
      if k !in pdrs { return NoEntry; }
      if HasPoison(pdrs[k]) { return PoisonedList; }
      var p := pdrs[k];
      relUrr := DelRelated(cfg, relUrr, k.seid, p.urrIds, k);
      assert relUrr == Denode(cfg, UrrKind, s.relUrr, k, p);
      relQer := DelRelated(cfg, relQer, k.seid, p.qerIds, k);
      assert relQer == Denode(cfg, QerKind, s.relQer, k, p);
      relFar := DelRelated(cfg, relFar, k.seid, [p.farId], k);
      assert relFar == Denode(cfg, FarKind, s.relFar, k, p);
      Free(k);
      return Ok;
    }

    // ---------- receive path ----------

    /** Uplink classification: a matching PDR of least precedence among all installed
        PDRs with an F-TEID, with the FAR that is stored for it. */
    method Classify(pkt: Packet, teid: nat, tpdu: bool) returns (r: Option<Key>, far: Option<Ref>)
      requires Valid()
      ensures !pkt.isIpv4 || (tpdu && pkt.inner.None?) ==> r == None
      ensures pkt.isIpv4 && (tpdu ==> pkt.inner.Some?) ==>
                IsBest(cfg, ByTeid, pdrs, p => GtpMatch(cfg, p, pkt, teid, tpdu), r)
      ensures r.Some? ==> r.value in pdrs && far == Get(fars, FarKey(r.value, pdrs[r.value]))
      ensures r.None? ==> far == None
    {
      hide Indexed, Related, RateLive;
      r := FindByGtp1u(cfg, iTeid, pdrs, pkt, teid, tpdu);
      far := if r.Some? then pdrs[r.value].far else None;
    }

    /** Downlink classification by the UE address. */
    method ClassifyIpv4(pkt: Packet, ip: bv32) returns (r: Option<Key>)
      requires Valid()
      ensures IsBest(cfg, ByAddr, pdrs, p => AddrMatch(p, pkt, ip), r)
    {
      hide Indexed, Related, RateLive;
      r := FindByIpv4(cfg, addr, pdrs, pkt, ip);
    }
  }
}
