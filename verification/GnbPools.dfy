/** The UE contexts of a gNB and their three indexes (`gnb/context/context.go` and
    `gnb/context/ue.go`): by RAN UE id, by PacketRusher UE id, and by downlink TEID. */
module GnbPools {
  import opened Base

  const SESSIONS := 16

  const I63: int := 0x8000_0000_0000_0000

  /** The successor of an `int64`. */
  function Next64(x: int): int { if x + 1 == I63 then -I63 else x + 1 }

  /** What becomes of a request for a PDU session.  An id outside 1 to 16 indexes the session
      array out of range. */
  datatype Setup = Created | Refused | Panics

  datatype PduSession = PduSession(id: int, uplinkTeid: nat, downlinkTeid: nat)

  class GnbUe {
    var ranUeId: int
    var prUeId: int
    var sessions: seq<Option<PduSession>>
    var allowedSst: seq<string>
    var allowedSd: seq<string>

    constructor (ranUeId: int, prUeId: int)
      ensures this.ranUeId == ranUeId && this.prUeId == prUeId
      ensures sessions == seq(SESSIONS, _ => None) && allowedSst == allowedSd == []
    {
      this.ranUeId, this.prUeId := ranUeId, prUeId;
      sessions := seq(SESSIONS, _ => None);
      allowedSst, allowedSd := [], [];
    }

    /** The session in slot `i` is set up with downlink TEID `t`. */
    ghost predicate Has(i: nat, t: nat)
      reads this
    {
      i < |sessions| && sessions[i].Some? && sessions[i].value.downlinkTeid == t
    }

    /** One of the first `n` slots has the TEID. */
    ghost predicate UsesBelow(n: nat, t: nat)
      reads this
    {
      exists i: nat :: i < n && Has(i, t)
    }

    ghost predicate Uses(t: nat)
      reads this
    {
      UsesBelow(|sessions|, t)
    }

    ghost predicate Wants(sst: string, sd: string)
      reads this
    {
      |allowedSst| == |allowedSd| && exists i :: 0 <= i < |allowedSst| && allowedSst[i] == sst && allowedSd[i] == sd
    }

    /** `isWantedNssai`. */
    method IsWantedNssai(sst: string, sd: string) returns (ok: bool)
      ensures ok <==> Wants(sst, sd)
    {
      if |allowedSst| == |allowedSd| {
        for i := 0 to |allowedSst|
          invariant forall j :: 0 <= j < i ==> !(allowedSst[j] == sst && allowedSd[j] == sd)
        {
          if allowedSst[i] == sst && allowedSd[i] == sd { return true; }
        }
      }
      return false;
    }
  }

  class GnbContext {
    var uePool: map<int, GnbUe>
    var prUePool: map<int, GnbUe>
    var teidPool: map<nat, GnbUe>
    var idUeGenerator: int
    var teidGenerator: nat
    ghost var all: set<GnbUe>
    ghost var created: nat
    ghost var issued: nat
    ghost var owner: map<nat, GnbUe>

    /** The UE is bound to its RAN id. */
    ghost predicate Live(u: GnbUe)
      reads this, u
    {
      u.ranUeId in uePool && uePool[u.ranUeId] == u
    }

    /** RAN ids are unique over all UEs ever created, and index the pool. */
    ghost predicate RanIdsUnique()
      reads this, all
    {
      && idUeGenerator == created + 1
      && (forall r :: r in uePool ==> uePool[r] in all && uePool[r].ranUeId == r)
      && (forall u :: u in all ==> u.ranUeId < idUeGenerator)
      && (forall u, v :: u in all && v in all && u != v ==> u.ranUeId != v.ranUeId)
    }

    /** A UE bound to a PacketRusher id carries that id and is live. */
    ghost predicate PrIdsBound()
      reads this, all
    {
      forall p :: p in prUePool ==> prUePool[p] in all && prUePool[p].prUeId == p && Live(prUePool[p])
    }

    /** Downlink TEIDs come from the generator and are recorded with the UE they were issued
        to; no two sessions share one; a TEID leads to that UE or nowhere, and to that UE
        while it is live. */
    ghost predicate TeidsOwned()
      reads this, all
    {
      && teidGenerator == issued + 1
      && (forall t :: t in owner ==> 1 <= t <= issued && owner[t] in all && (Live(owner[t]) ==> t in teidPool))
      && (forall t :: t in teidPool ==> t in owner && teidPool[t] == owner[t])
      && (forall u, i: nat, t: nat :: u in all && u.Has(i, t) ==> t in owner && owner[t] == u)
      && (forall u, i: nat, v, j: nat, t: nat :: u in all && v in all && u.Has(i, t) && v.Has(j, t) ==>
            u == v && i == j)
    }

    ghost predicate Sized()
      reads this, all
    {
      forall u :: u in all ==> |u.sessions| == SESSIONS
    }

    /** The 64-bit generator of RAN ids has not come round; nor has the 32-bit one of TEIDs. */
    ghost predicate RanIdsLast()
      reads this
    {
      created + 1 < I63
    }

    ghost predicate TeidsLast()
      reads this
    {
      RanIdsLast() && issued + 1 < U32
    }

    /** The pools are right while the generators last. */
    ghost predicate Valid()
      reads this, all
    {
      Sized() && (RanIdsLast() ==> RanIdsUnique() && PrIdsBound()) && (TeidsLast() ==> TeidsOwned())
    }

    /** `NewRanGnbContext`. */
    constructor ()
      ensures Valid() && all == {} && uePool == map[] && prUePool == map[] && teidPool == map[]
      ensures issued == 0 && created == 0 && teidGenerator == 1
    {
      uePool, prUePool, teidPool := map[], map[], map[];
      idUeGenerator, teidGenerator := 1, 1;
      all, created, issued, owner := {}, 0, 0, map[];
    }

    /** `NewGnBUe`: the new UE takes over the PacketRusher id.  Without an active AMF the
        caller gets nothing, but the pools have changed. */
    method NewGnbUe(prUeId: int, amfAvailable: bool) returns (r: Option<GnbUe>, ghost ue: GnbUe)
      requires Valid()
      modifies this
      ensures Valid() && fresh(ue) && all == old(all) + {ue} && ue.prUeId == prUeId && created == old(created) + 1
      ensures r == if amfAvailable then Some(ue) else None
      ensures (forall i, t :: !ue.Has(i, t)) && ue.allowedSst == ue.allowedSd == []
      ensures uePool == old(uePool)[ue.ranUeId := ue] && (RanIdsLast() ==> ue.ranUeId !in old(uePool))
      ensures prUePool == if prUeId != 0 then old(prUePool)[prUeId := ue] else old(prUePool)
      ensures teidPool == old(teidPool) && teidGenerator == old(teidGenerator)
      ensures issued == old(issued) && owner == old(owner)
      ensures ue.ranUeId == old(idUeGenerator)
      ensures idUeGenerator == if ue.ranUeId == 0x7fff_ffff_ffff_ffff then -0x8000_0000_0000_0000 else ue.ranUeId + 1
    {
      var u := new GnbUe(idUeGenerator, prUeId);
      ue := u;
      hide RanIdsUnique, PrIdsBound, TeidsOwned;
      StoreUe(u);
      r := if amfAvailable then Some(u) else None;
    }

    /** The new UE takes the next RAN id and enters the pools. */
    method StoreUe(u: GnbUe)
      requires Valid() && u !in all && u.ranUeId == idUeGenerator && u.sessions == seq(SESSIONS, _ => None)
      modifies this
      ensures Valid() && all == old(all) + {u} && created == old(created) + 1
      ensures uePool == old(uePool)[u.ranUeId := u] && (RanIdsLast() ==> u.ranUeId !in old(uePool))
      ensures prUePool == if u.prUeId != 0 then old(prUePool)[u.prUeId := u] else old(prUePool)
      ensures teidPool == old(teidPool) && teidGenerator == old(teidGenerator)
      ensures issued == old(issued) && owner == old(owner) && idUeGenerator == Next64(old(idUeGenerator))
    {
      idUeGenerator := Next64(idUeGenerator);
      created := created + 1;
      all := all + {u};
      uePool := uePool[u.ranUeId := u];
      if u.prUeId != 0 { prUePool := prUePool[u.prUeId := u]; }
      if RanIdsLast() { StoredKeepsIds(u); }
      if TeidsLast() { StoredKeepsTeids(u); }
      hide RanIdsUnique, PrIdsBound, TeidsOwned;
    }

    /** The new UE is the only one with its RAN id. */
    twostate lemma StoredKeepsIds(u: GnbUe)
      requires old(RanIdsUnique()) && old(PrIdsBound()) && u !in old(all)
      requires u.ranUeId == old(idUeGenerator) && idUeGenerator == old(idUeGenerator) + 1 && created == old(created) + 1
      requires all == old(all) + {u} && uePool == old(uePool)[u.ranUeId := u]
      requires prUePool == if u.prUeId != 0 then old(prUePool)[u.prUeId := u] else old(prUePool)
      requires forall v :: v in all ==> unchanged(v)
      ensures RanIdsUnique() && PrIdsBound() && u.ranUeId !in old(uePool)
    {}

    /** A UE without sessions changes nothing about the TEIDs. */
    twostate lemma StoredKeepsTeids(u: GnbUe)
      requires old(RanIdsUnique()) && old(TeidsOwned()) && u !in old(all)
      requires u.ranUeId == old(idUeGenerator) && u.sessions == seq(SESSIONS, _ => None)
      requires all == old(all) + {u} && uePool == old(uePool)[u.ranUeId := u]
      requires teidPool == old(teidPool) && teidGenerator == old(teidGenerator) && issued == old(issued)
      requires owner == old(owner)
      requires forall v :: v in all ==> unchanged(v)
      ensures TeidsOwned()
    {
      forall v, i: nat, t: nat | v in all && v.Has(i, t)
        ensures v in old(all) && old(v.Has(i, t)) && (Live(v) ==> old(Live(v)))
      {
        assert v != u;
      }
    }

    /** `GetUeTeid`: issue the next TEID and bind it. */
    method GetUeTeid(ue: GnbUe) returns (id: nat)
      requires Valid() && ue in all
      modifies this`teidPool, this`teidGenerator, this`issued, this`owner
      ensures Valid() && issued == old(issued) + 1 && owner == old(owner)[id := ue]
      ensures id == old(teidGenerator) && teidPool == old(teidPool)[id := ue]
      ensures teidGenerator == (id + 1) % 0x1_0000_0000
      ensures TeidsLast() ==> id == issued && id !in old(teidPool)
      ensures TeidsLast() ==> forall u, i: nat :: u in all ==> !u.Has(i, id)
    {
      id := teidGenerator;
      teidPool := teidPool[id := ue];
      teidGenerator := (teidGenerator + 1) % U32;
      issued := issued + 1;
      owner := owner[id := ue];
      if TeidsLast() { IssuedKeepsTeids(ue); }
      hide TeidsOwned;
    }

    /** The new TEID is nobody's yet. */
    twostate lemma IssuedKeepsTeids(ue: GnbUe)
      requires old(TeidsOwned()) && ue in all && all == old(all) && uePool == old(uePool)
      requires issued == old(issued) + 1 && teidGenerator == old(teidGenerator) + 1
      requires teidPool == old(teidPool)[old(teidGenerator) := ue] && owner == old(owner)[old(teidGenerator) := ue]
      requires forall v :: v in all ==> unchanged(v)
      ensures TeidsOwned() && issued == old(teidGenerator) && issued !in old(teidPool)
      ensures forall u, i: nat :: u in all ==> !u.Has(i, issued)
    {
      assert forall v, i: nat, t: nat :: v in all && v.Has(i, t) ==> old(v.Has(i, t)) && t in old(owner);
    }

    /** `CreateUeContext`: the slices that the UE may use. */
    method CreateUeContext(ue: GnbUe, sst: seq<string>, sd: seq<string>)
      requires Valid() && ue in all
      modifies ue`allowedSst, ue`allowedSd
      ensures Valid() && ue.allowedSst == sst && ue.allowedSd == sd
    {
      ue.allowedSst, ue.allowedSd := sst, sd;
      assert forall u, i: nat, t: nat :: u in all ==> (u.Has(i, t) <==> old(u.Has(i, t)));
    }

    /** The assignment of a session with a new TEID to a free slot. */
    method StoreSession(ue: GnbUe, slot: nat, session: PduSession)
      requires Valid() && ue in all && slot < SESSIONS && ue.sessions[slot].None?
      requires
        var t := session.downlinkTeid;
        TeidsLast() ==>
          t in owner && owner[t] == ue && forall u, i: nat :: u in all ==> !u.Has(i, t)
      modifies ue`sessions
      ensures Valid() && ue.sessions == old(ue.sessions)[slot := Some(session)]
    {
      ue.sessions := ue.sessions[slot := Some(session)];
      assert forall u, i: nat, x: nat :: u in all && u.Has(i, x) ==>
          (u == ue && i == slot && x == session.downlinkTeid) || (old(u.Has(i, x)) && !(u == ue && i == slot));
    }

    /** `CreatePduSession` with a TEID from `GetUeTeid`, as every caller does it.  A refused
        session leaves the UE alone and the TEID issued. */
    method SetupPduSession(ue: GnbUe, id: int, sst: string, sd: string, uplinkTeid: nat) returns (r: Setup)
      requires Valid() && ue in all
      modifies this`teidPool, this`teidGenerator, this`issued, this`owner, ue`sessions
      ensures Valid() && issued == old(issued) + 1
      ensures r == Panics <==> !(1 <= id <= SESSIONS)
      ensures r == Created <==> 1 <= id <= SESSIONS && old(ue.sessions[id - 1]).None? && old(ue.Wants(sst, sd))
      ensures ue.sessions ==
              if r == Created then old(ue.sessions)[id - 1 := Some(PduSession(id, uplinkTeid, old(teidGenerator)))]
              else old(ue.sessions)
      ensures teidPool == old(teidPool)[old(teidGenerator) := ue]
      ensures owner == old(owner)[old(teidGenerator) := ue]
      ensures teidGenerator == (old(teidGenerator) + 1) % 0x1_0000_0000
    {
      assert |ue.sessions| == SESSIONS;
      hide TeidsOwned, PrIdsBound;
      var t := GetUeTeid(ue);
      if !(1 <= id <= SESSIONS) { return Panics; }
      if ue.sessions[id - 1].Some? { return Refused; }
      var wanted := ue.IsWantedNssai(sst, sd);
      if !wanted { return Refused; }
      StoreSession(ue, id - 1, PduSession(id, uplinkTeid, t));
      return Created;
    }

    /** `DeletePduSession`: the slot is freed, the TEID binding stays behind. */
    method DeletePduSession(ue: GnbUe, id: int) returns (panics: bool)
      requires Valid() && ue in all
      modifies ue`sessions
      ensures Valid()
      ensures panics <==> !(1 <= id <= SESSIONS)
      ensures ue.sessions == if panics then old(ue.sessions) else old(ue.sessions)[id - 1 := None]
    {
      if !(1 <= id <= SESSIONS) { return true; }
      ue.sessions := ue.sessions[id - 1 := None];
      assert forall u, i: nat, t: nat :: u in all && u.Has(i, t) ==> old(u.Has(i, t));
      return false;
    }

    /** `DeleteGnBUe`, for a live or a stale UE: only its own bindings go; in particular a
        newer UE with the same PacketRusher id stays bound.  What still leads to a UE that was
        live are exactly the TEIDs issued to it that none of its sessions has: those of
        refused and of deleted sessions. */
    method DeleteGnbUe(ue: GnbUe)
      requires Valid() && ue in all
      modifies this
      ensures Valid() && all == old(all) && created == old(created) && issued == old(issued) && owner == old(owner)
      ensures uePool == old(uePool) - {ue.ranUeId}
      ensures prUePool ==
              if ue.prUeId in old(prUePool) && old(prUePool)[ue.prUeId] == ue then old(prUePool) - {ue.prUeId}
              else old(prUePool)
      ensures forall t :: t in teidPool <==> t in old(teidPool) && !ue.Uses(t)
      ensures forall t :: t in teidPool ==> teidPool[t] == old(teidPool)[t]
      ensures TeidsLast() && old(Live(ue)) ==>
                forall t :: t in teidPool && teidPool[t] == ue <==> t in owner && owner[t] == ue && !ue.Uses(t)
    {
      uePool := uePool - {ue.ranUeId};
      if ue.prUeId in prUePool && prUePool[ue.prUeId] == ue { prUePool := prUePool - {ue.prUeId}; }
      UnbindTeids(ue);
      if RanIdsLast() { DeletedKeepsIds(ue); }
      if TeidsLast() { DeletedKeepsTeids(ue); }
      hide RanIdsUnique, PrIdsBound, TeidsOwned, GnbUe.UsesBelow;
    }

    twostate lemma DeletedKeepsIds(ue: GnbUe)
      requires old(RanIdsUnique()) && old(PrIdsBound()) && all == old(all) && ue in all
      requires idUeGenerator == old(idUeGenerator) && created == old(created) && uePool == old(uePool) - {ue.ranUeId}
      requires prUePool ==
               if ue.prUeId in old(prUePool) && old(prUePool)[ue.prUeId] == ue then old(prUePool) - {ue.prUeId}
               else old(prUePool)
      requires forall v :: v in all ==> unchanged(v)
      ensures RanIdsUnique() && PrIdsBound()
    {}

    twostate lemma DeletedKeepsTeids(ue: GnbUe)
      requires old(RanIdsUnique()) && old(TeidsOwned()) && all == old(all) && ue in all
      requires uePool == old(uePool) - {ue.ranUeId}
      requires teidGenerator == old(teidGenerator) && issued == old(issued) && owner == old(owner)
      requires forall t :: t in teidPool <==> t in old(teidPool) && !ue.Uses(t)
      requires forall t :: t in teidPool ==> teidPool[t] == old(teidPool)[t]
      requires forall v :: v in all ==> unchanged(v)
      ensures TeidsOwned()
      ensures old(Live(ue)) ==>
                forall t :: t in teidPool && teidPool[t] == ue <==> t in owner && owner[t] == ue && !ue.Uses(t)
    {
      assert forall v, i: nat, t: nat :: v in all ==> (v.Has(i, t) <==> old(v.Has(i, t)));
      forall t: nat | ue.Uses(t) ensures t in owner && owner[t] == ue {
        var i: nat :| i < |ue.sessions| && ue.Has(i, t);
      }
      hide RanIdsUnique, GnbUe.UsesBelow;
    }

    method UnbindTeids(ue: GnbUe)
      requires |ue.sessions| == SESSIONS
      modifies this`teidPool
      ensures forall t :: t in teidPool <==> t in old(teidPool) && !ue.Uses(t)
      ensures forall t :: t in teidPool ==> teidPool[t] == old(teidPool)[t]
    {
      for i := 0 to SESSIONS
        invariant forall t: nat :: t in teidPool <==> t in old(teidPool) && !ue.UsesBelow(i, t)
        invariant forall t :: t in teidPool ==> teidPool[t] == old(teidPool)[t]
      {
        assert forall t: nat :: ue.UsesBelow(i + 1, t) <==> ue.UsesBelow(i, t) || ue.Has(i, t);
        if ue.sessions[i].Some? {
          teidPool := teidPool - {ue.sessions[i].value.downlinkTeid};
        }
      }
    }

    // ---------- lookups ----------

    method GetGnbUe(ranUeId: int) returns (r: Option<GnbUe>)
      requires Valid()
      ensures r.Some? <==> ranUeId in uePool
      ensures RanIdsLast() && r.Some? ==> r.value in all && r.value.ranUeId == ranUeId && Live(r.value)
    {
      r := if ranUeId in uePool then Some(uePool[ranUeId]) else None;
    }

    /** What is found by PacketRusher id is also found, the same object, by its RAN id. */
    method GetGnbUeByPrUeId(prUeId: int) returns (r: Option<GnbUe>)
      requires Valid()
      ensures r.Some? <==> prUeId in prUePool
      ensures RanIdsLast() && r.Some? ==>
                r.value.prUeId == prUeId && r.value.ranUeId in uePool && uePool[r.value.ranUeId] == r.value
    {
      r := if prUeId in prUePool then Some(prUePool[prUeId]) else None;
    }

    /** The downlink TEID of a session of a live UE leads to that UE and to no other. */
    method GetGnbUeByTeid(teid: nat, ghost ue: GnbUe, ghost i: nat) returns (r: Option<GnbUe>)
      requires Valid()
      ensures TeidsLast() && ue in all && Live(ue) && ue.Has(i, teid) ==> r == Some(ue)
      ensures r == if teid in teidPool then Some(teidPool[teid]) else None
    {
      r := if teid in teidPool then Some(teidPool[teid]) else None;
    }
  }

  /** Witness: a UE asks for a session of a slice it may not use and is deleted.  The TEID that
      was issued for the refused session still leads to it. */
  method DeletedUeIsFound() returns (gnb: GnbContext, ue: GnbUe, r: Option<GnbUe>)
    ensures gnb.Valid() && ue in gnb.all && !gnb.Live(ue) && r == Some(ue)
  {
    gnb := new GnbContext();
    var o, u := gnb.NewGnbUe(1, true);
    ue := o.value;
    var st := gnb.SetupPduSession(ue, 1, "1", "1", 7);
    assert !ue.Uses(1);
    gnb.DeleteGnbUe(ue);
    r := gnb.GetGnbUeByTeid(1, ue, 0);
  }
}
