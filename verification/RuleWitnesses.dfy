/** Runs of commands from the empty device on which the rule tables do not do what they are
    for. */
module RuleWitnesses {
  import opened Base
  import opened Rules
  import opened Classifier
  import opened Links
  import opened RuleEngine

  // ---------- runs from the empty device ----------

  /** The commands are admissible one after the other and lead to `s`. */
  ghost predicate Reaches(cfg: Config, cs: seq<Command>, s: Dev) {
    && cfg.size > 0 && Inv(cfg, Init(cfg)) && Inv(cfg, s)
    && AdmissibleRun(cfg, Init(cfg), cs) && Run(cfg, Init(cfg), cs) == s
  }

  lemma ReachesInit(cfg: Config)
    requires cfg.size > 0
    ensures Reaches(cfg, [], Init(cfg)) && Init(cfg).pdrs == map[] && Init(cfg).fars == map[] && Init(cfg).qers == map[]
  {
    InitInv(cfg);
    hide Inv;
  }

  lemma {:induction false} RunSnoc(cfg: Config, s: Dev, cs: seq<Command>, c: Command)
    requires Inv(cfg, s) && AdmissibleRun(cfg, s, cs) && Inv(cfg, Run(cfg, s, cs))
    requires cfg.size > 0 && Admissible(cfg, Run(cfg, s, cs), c)
    ensures AdmissibleRun(cfg, s, cs + [c]) && Run(cfg, s, cs + [c]) == Step(cfg, Run(cfg, s, cs), c).0
    decreases |cs|
  {
    hide Inv, Step, Admissible;
    var all := cs + [c];
    if cs == [] {
      StepInvIff(cfg, s, c);
      assert all == [c] && all[1..] == [];
    } else {
      StepInvIff(cfg, s, cs[0]);
      var s1 := Step(cfg, s, cs[0]).0;
      RunSnoc(cfg, s1, cs[1..], c);
      assert all[0] == cs[0] && all[1..] == cs[1..] + [c];
    }
  }

  lemma ReachesNext(cfg: Config, cs: seq<Command>, s: Dev, c: Command)
    requires Reaches(cfg, cs, s) && Admissible(cfg, s, c)
    ensures Reaches(cfg, cs + [c], Step(cfg, s, c).0)
  {
    RunSnoc(cfg, Init(cfg), cs, c);
    StepInvIff(cfg, s, c);
    hide Inv, Step, Admissible, Init;
  }

  // ---------- the commands ----------

  const CREATE := Flags(false, false, false)
  const REPLACE := Flags(false, true, false)

  function NewFar(fk: Key): Command { PutFar(fk, CREATE, true, true) }

  function NewQer(qk: Key, hasMbr: bool): Command { PutQer(qk, CREATE, hasMbr) }

  /** Creates a PDR of FAR 1 that is found by its UE address. */
  function CreateByAddr(k: Key, ue: bv32, qerIds: seq<nat>, urrIds: seq<nat>): Command {
    PutPdr(k, CREATE, PdrAttrs(Some(1), Some(Pdi(Some(ue), None, None)), Some(1), qerIds, urrIds, true))
  }

  /** Gives a PDR an F-TEID; makes it name another FAR. */
  function GainTeid(k: Key, teid: FTeid): Command {
    PutPdr(k, REPLACE, PdrAttrs(None, Some(Pdi(None, Some(teid), None)), None, [], [], true))
  }

  function MoveToFar(k: Key, id: nat): Command { PutPdr(k, REPLACE, PdrAttrs(None, None, Some(id), [], [], true)) }

  // ---------- single commands ----------

  lemma NewFarStep(cfg: Config, s: Dev, fk: Key)
    requires Inv(cfg, s) && fk !in s.fars && s.pdrs == map[]
    ensures
      var s' := Step(cfg, s, NewFar(fk)).0;
      && cfg.size > 0 && Admissible(cfg, s, NewFar(fk))
      && s'.pdrs == map[] && s'.fars == s.fars[fk := s.next] && s'.qers == s.qers && s'.next == s.next + 1
  {
    RelatedSize(cfg, s);
    hide Inv;
  }

  lemma NewQerStep(cfg: Config, s: Dev, qk: Key, hasMbr: bool)
    requires Inv(cfg, s) && qk !in s.qers
    ensures
      var s' := Step(cfg, s, NewQer(qk, hasMbr)).0;
      && cfg.size > 0 && Admissible(cfg, s, NewQer(qk, hasMbr))
      && s'.pdrs == s.pdrs && s'.fars == s.fars && s'.qers == s.qers[qk := Qer(s.next, hasMbr)] && s'.next == s.next + 1
  {
    RelatedSize(cfg, s);
    hide Inv;
  }

  /** The PDR that `CreateByAddr` leaves. */
  function Created(s: Dev, k: Key, ue: bv32, qerIds: seq<nat>, urrIds: seq<nat>): Pdr
    requires Key(k.seid, 1) in s.fars
  {
    Pdr(1, Some(Pdi(Some(ue), None, None)), 1, Some(s.fars[Key(k.seid, 1)]),
        Merge([], qerIds), RateOf(s.qers, k.seid, Merge([], qerIds), None), Merge([], urrIds), Free, InList)
  }

  lemma CreateStep(cfg: Config, s: Dev, k: Key, ue: bv32, qerIds: seq<nat>, urrIds: seq<nat>)
    requires Inv(cfg, s) && k !in s.pdrs && Key(k.seid, 1) in s.fars
    ensures
      var c := CreateByAddr(k, ue, qerIds, urrIds);
      var s' := Step(cfg, s, c).0;
      && cfg.size > 0 && Admissible(cfg, s, c)
      && s'.pdrs == s.pdrs[k := Created(s, k, ue, qerIds, urrIds)]
      && s'.fars == s.fars && s'.qers == s.qers && s'.next == s.next
  {
    RelatedSize(cfg, s);
    var p := FillPdr(BLANK, CreateByAddr(k, ue, qerIds, urrIds).attrs);
    CreatedIs(cfg, s, k, ue, qerIds, urrIds);
    hide Inv, Install, Linked, Created;
    InstallPdrs(cfg, s, k, p, s.fars[Key(k.seid, 1)]);
  }

  lemma CreatedIs(cfg: Config, s: Dev, k: Key, ue: bv32, qerIds: seq<nat>, urrIds: seq<nat>)
    requires cfg.size > 0 && Key(k.seid, 1) in s.fars
    ensures
      var p := FillPdr(BLANK, CreateByAddr(k, ue, qerIds, urrIds).attrs);
      Linked(cfg, s, k, p, s.fars[Key(k.seid, 1)]) == Created(s, k, ue, qerIds, urrIds)
  {
    hide RateOf, Merge;
  }

  lemma ReplaceStep(cfg: Config, s: Dev, k: Key, a: PdrAttrs)
    requires Inv(cfg, s) && k in s.pdrs && s.pdrs[k].addrNode != Poisoned && a.socketOk
    requires FarKey(k, FillPdr(s.pdrs[k], a)) in s.fars
    ensures
      var p := FillPdr(s.pdrs[k], a);
      Step(cfg, s, PutPdr(k, REPLACE, a)) == (Install(cfg, s, k, Linked(cfg, s, k, p, s.fars[FarKey(k, p)])), Ok)
  {
    PoisonIsInAddrNode(cfg, s);
    hide Inv, Install, Linked, FillPdr, HasPoison;
  }

  // ---------- a PDR that can be neither replaced nor deleted ----------

  lemma GainStep(cfg: Config, s: Dev, k: Key, teid: FTeid)
    requires Inv(cfg, s) && k in s.pdrs && s.pdrs[k].addrNode == InList && FarKey(k, s.pdrs[k]) in s.fars
    ensures
      var s' := Step(cfg, s, GainTeid(k, teid)).0;
      && cfg.size > 0 && Admissible(cfg, s, GainTeid(k, teid))
      && k in s'.pdrs && s'.pdrs[k].addrNode == Poisoned
  {
    RelatedSize(cfg, s);
    hide Inv, Step, Install, Linked, FillPdr, NextNode, SlotOf;
    var a := GainTeid(k, teid).attrs;
    GainFills(cfg, s.pdrs[k], a, teid);
    ReplaceStep(cfg, s, k, a);
    InstallPdrs(cfg, s, k, FillPdr(s.pdrs[k], a), s.fars[FarKey(k, s.pdrs[k])]);
  }

  lemma GainFills(cfg: Config, p: Pdr, a: PdrAttrs, teid: FTeid)
    requires cfg.size > 0 && p.addrNode == InList
    requires a == PdrAttrs(None, Some(Pdi(None, Some(teid), None)), None, [], [], true)
    ensures
      var q := FillPdr(p, a);
      q.farId == p.farId && NextNode(q.addrNode, SlotOf(cfg, ByAddr, q).Some?) == Poisoned
  {}

  lemma PoisonFaults(cfg: Config, s: Dev, k: Key, a: PdrAttrs)
    requires Inv(cfg, s) && k in s.pdrs && s.pdrs[k].addrNode == Poisoned
    ensures Step(cfg, s, DelPdr(k)).1 == PoisonedList && Step(cfg, s, PutPdr(k, REPLACE, a)).1 == PoisonedList
  {
    hide Inv;
  }

  /** Create a FAR, create a PDR with a UE address, give it an F-TEID.  All three are
      admissible, and then the PDR can be neither replaced nor deleted. */
  lemma MovedPdrFaults(cfg: Config, k: Key, ue: bv32, teid: FTeid, a: PdrAttrs) returns (s: Dev)
    requires cfg.size > 0
    ensures Reaches(cfg, [NewFar(Key(k.seid, 1)), CreateByAddr(k, ue, [], []), GainTeid(k, teid)], s)
    ensures Step(cfg, s, DelPdr(k)).1 == PoisonedList && Step(cfg, s, PutPdr(k, REPLACE, a)).1 == PoisonedList
  {
    hide Reaches, Inv, Step, Admissible, Init, NewFar, CreateByAddr, GainTeid;
    var c0, c1, c2 := NewFar(Key(k.seid, 1)), CreateByAddr(k, ue, [], []), GainTeid(k, teid);
    s := Init(cfg);
    ReachesInit(cfg);
    s := ByNewFar(cfg, [], s, Key(k.seid, 1));
    s := ByCreate(cfg, [] + [c0], s, k, ue, [], []);
    ReachedInv(cfg, [] + [c0] + [c1], s);
    GainStep(cfg, s, k, teid);
    ReachesNext(cfg, [] + [c0] + [c1], s, c2);
    s := Step(cfg, s, c2).0;
    assert [] + [c0] + [c1] + [c2] == [c0, c1, c2];
    ReachedInv(cfg, [c0, c1, c2], s);
    PoisonFaults(cfg, s, k, a);
  }

  lemma ReachedInv(cfg: Config, cs: seq<Command>, s: Dev)
    requires Reaches(cfg, cs, s)
    ensures cfg.size > 0 && Inv(cfg, s)
  {}

  lemma ByNewFar(cfg: Config, cs: seq<Command>, s: Dev, fk: Key) returns (s': Dev)
    requires Reaches(cfg, cs, s) && fk !in s.fars && s.pdrs == map[]
    ensures Reaches(cfg, cs + [NewFar(fk)], s')
    ensures s'.pdrs == map[] && s'.fars == s.fars[fk := s.next] && s'.qers == s.qers && s'.next == s.next + 1
  {
    hide Reaches, Inv, Step, Admissible, NewFar;
    ReachedInv(cfg, cs, s);
    NewFarStep(cfg, s, fk);
    ReachesNext(cfg, cs, s, NewFar(fk));
    s' := Step(cfg, s, NewFar(fk)).0;
  }

  lemma ByNewQer(cfg: Config, cs: seq<Command>, s: Dev, qk: Key, hasMbr: bool) returns (s': Dev)
    requires Reaches(cfg, cs, s) && qk !in s.qers
    ensures Reaches(cfg, cs + [NewQer(qk, hasMbr)], s')
    ensures s'.pdrs == s.pdrs && s'.fars == s.fars
    ensures s'.qers == s.qers[qk := Qer(s.next, hasMbr)] && s'.next == s.next + 1
  {
    hide Reaches, Inv, Step, Admissible, NewQer;
    ReachedInv(cfg, cs, s);
    NewQerStep(cfg, s, qk, hasMbr);
    ReachesNext(cfg, cs, s, NewQer(qk, hasMbr));
    s' := Step(cfg, s, NewQer(qk, hasMbr)).0;
  }

  lemma ByCreate(cfg: Config, cs: seq<Command>, s: Dev, k: Key, ue: bv32, qerIds: seq<nat>, urrIds: seq<nat>)
    returns (s': Dev)
    requires Reaches(cfg, cs, s) && k !in s.pdrs && Key(k.seid, 1) in s.fars
    ensures Reaches(cfg, cs + [CreateByAddr(k, ue, qerIds, urrIds)], s')
    ensures s'.pdrs == s.pdrs[k := Created(s, k, ue, qerIds, urrIds)]
    ensures s'.fars == s.fars && s'.qers == s.qers && s'.next == s.next
  {
    hide Reaches, Inv, Step, Admissible, CreateByAddr, Created;
    var c := CreateByAddr(k, ue, qerIds, urrIds);
    ReachedInv(cfg, cs, s);
    CreateStep(cfg, s, k, ue, qerIds, urrIds);
    ReachesNext(cfg, cs, s, c);
    s' := Step(cfg, s, c).0;
  }

  // ---------- a node that survives its PDR ----------

  lemma MoveFarStep(cfg: Config, s: Dev, k: Key, id: nat)
    requires Inv(cfg, s) && k in s.pdrs && s.pdrs[k].addrNode == InList && Key(k.seid, id) in s.fars
    requires cfg.size > 0 && Bucket(cfg, FarKey(k, s.pdrs[k])) != Bucket(cfg, Key(k.seid, id))
    ensures
      var (s', st) := Step(cfg, s, MoveToFar(k, id));
      && st == Ok && k in s'.pdrs && |s'.relFar| == cfg.size
      && k in Denode(cfg, FarKind, s'.relFar, k, s'.pdrs[k])[Bucket(cfg, FarKey(k, s.pdrs[k]))]
  {
    RelatedSize(cfg, s);
    var a := PdrAttrs(None, None, Some(id), [], [], true);
    var p := Linked(cfg, s, k, FillPdr(s.pdrs[k], a), s.fars[Key(k.seid, id)]);
    assert FarKey(k, p) == FarKey(k, FillPdr(s.pdrs[k], a)) == Key(k.seid, id);
    hide Inv, Step, Linked, FillPdr, Install, Denode;
    ReplaceStep(cfg, s, k, a);
    InstallLeavesNode(cfg, s, k, p);
  }

  lemma InstallLeavesNode(cfg: Config, s: Dev, k: Key, p: Pdr)
    requires Inv(cfg, s) && k in s.pdrs
    requires Bucket(cfg, FarKey(k, p)) != Bucket(cfg, FarKey(k, s.pdrs[k]))
    ensures
      var s' := Install(cfg, s, k, p);
      && k in s'.pdrs && s'.pdrs[k] == p && |s'.relFar| == cfg.size
      && k in Denode(cfg, FarKind, s'.relFar, k, p)[Bucket(cfg, FarKey(k, s.pdrs[k]))]
  {
    RelatedSize(cfg, s);
    ChangedFarLeavesNode(cfg, s, k, p);
    hide Indexed, Related, FarLinked, RateLive, AllNodesRight, Fresh, Relink, SetNodes, DelNodes;
  }

  /** Two FARs in different buckets, a PDR of the first, and a replace that names the second.
      The replace succeeds, and the node in the bucket of the first FAR is there after it and
      after the deletion of the PDR. */
  lemma StaleNodeRun(cfg: Config, k: Key, ue: bv32) returns (s: Dev)
    requires cfg.size > 0 && Bucket(cfg, Key(k.seid, 1)) != Bucket(cfg, Key(k.seid, 2))
    ensures Reaches(cfg, [NewFar(Key(k.seid, 1)), NewFar(Key(k.seid, 2)), CreateByAddr(k, ue, [], [])], s)
    ensures
      var (s', st) := Step(cfg, s, MoveToFar(k, 2));
      && st == Ok && k in s'.pdrs && |s'.relFar| == cfg.size
      && k in Denode(cfg, FarKind, s'.relFar, k, s'.pdrs[k])[Bucket(cfg, Key(k.seid, 1))]
  {
    hide Reaches, Inv, Step, Admissible, Init, NewFar, CreateByAddr, Denode;
    var c0, c1, c2 := NewFar(Key(k.seid, 1)), NewFar(Key(k.seid, 2)), CreateByAddr(k, ue, [], []);
    s := Init(cfg);
    ReachesInit(cfg);
    s := ByNewFar(cfg, [], s, Key(k.seid, 1));
    s := ByNewFar(cfg, [] + [c0], s, Key(k.seid, 2));
    s := ByCreate(cfg, [] + [c0] + [c1], s, k, ue, [], []);
    assert [] + [c0] + [c1] + [c2] == [c0, c1, c2];
    ReachedInv(cfg, [c0, c1, c2], s);
    MoveFarStep(cfg, s, k, 2);
  }

  // ---------- a QER that stops policing with another ----------

  /** Deleting a QER stops the policing of every PDR that names an id in its bucket. */
  lemma DelQerStops(cfg: Config, s: Dev, qk: Key, k: Key, id: nat)
    requires Inv(cfg, s) && qk in s.qers && k in s.pdrs && id in s.pdrs[k].qerIds
    requires cfg.size > 0 && Bucket(cfg, Key(k.seid, id)) == Bucket(cfg, qk)
    ensures
      var (s', st) := Step(cfg, s, DelQer(qk));
      st == Ok && k in s'.pdrs && s'.pdrs[k].qerWithRate == None && s'.qers == s.qers - {qk}
  {
    RelatedSize(cfg, s);
    WalkReaches(cfg, QerKind, s.relQer, s.pdrs, k, id);
    hide Inv;
  }

  lemma SecondPolices(qers: map<Key, Qer>, seid: nat)
    requires Key(seid, 2) in qers && qers[Key(seid, 2)].hasRate
    ensures Merge([], [1, 2]) == [1, 2] && RateOf(qers, seid, [1, 2], None) == Some(qers[Key(seid, 2)].ref)
  {
    assert [1, 2][1..] == [2] && [2][1..] == [];
    assert Merge([1, 2], []) == [1, 2];
    assert Merge([1], [2]) == [1, 2];
  }

  /** A FAR, a QER without and a QER with policers, and a PDR that names both QERs and polices
      with the second.  Deleting the first QER stops the policing, and the second is still
      there. */
  lemma PolicingLost(cfg: Config, k: Key, ue: bv32) returns (s: Dev)
    requires cfg.size > 0
    ensures
      var q1, q2 := Key(k.seid, 1), Key(k.seid, 2);
      && Reaches(cfg, [NewFar(Key(k.seid, 1)), NewQer(q1, false), NewQer(q2, true), CreateByAddr(k, ue, [1, 2], [])], s)
      && k in s.pdrs && q2 in s.qers && s.pdrs[k].qerWithRate == Some(s.qers[q2].ref)
      && var (s', st) := Step(cfg, s, DelQer(q1));
      && st == Ok && k in s'.pdrs && s'.pdrs[k].qerWithRate == None
      && q2 in s'.qers && s'.qers[q2] == s.qers[q2] && s'.qers[q2].hasRate
  {
    hide Reaches, Inv, Step, Admissible, Init, NewFar, NewQer, CreateByAddr, RateOf, Merge;
    var q1, q2 := Key(k.seid, 1), Key(k.seid, 2);
    var c0, c1, c2, c3 := NewFar(q1), NewQer(q1, false), NewQer(q2, true), CreateByAddr(k, ue, [1, 2], []);
    s := Init(cfg);
    ReachesInit(cfg);
    s := ByNewFar(cfg, [], s, q1);
    s := ByNewQer(cfg, [] + [c0], s, q1, false);
    s := ByNewQer(cfg, [] + [c0] + [c1], s, q2, true);
    SecondPolices(s.qers, k.seid);
    s := ByCreate(cfg, [] + [c0] + [c1] + [c2], s, k, ue, [1, 2], []);
    assert [] + [c0] + [c1] + [c2] + [c3] == [c0, c1, c2, c3];
    ReachedInv(cfg, [c0, c1, c2, c3], s);
    assert s.pdrs[k].qerIds == [1, 2] && 1 in s.pdrs[k].qerIds;
    DelQerStops(cfg, s, q1, k, 1);
  }
}
