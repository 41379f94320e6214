/** With which of its QERs a PDR polices: `pdr->qer_with_rate` is set when the PDR is created or
    replaced, and not when a QER is (`genl_pdr.c`, `genl_qer.c`, `qer.c`). */
module Policing {
  import opened Base
  import opened Rules
  import opened Classifier
  import opened Links
  import opened RuleEngine
  import opened RuleWitnesses

  /** The QER exists and has policers. */
  predicate HasPolicers(qers: map<Key, Qer>, qk: Key) { qk in qers && qers[qk].hasRate }

  /** The PDR polices with the last of its QERs that has policers, or not at all if none has. */
  ghost predicate PolicesRight(s: Dev, k: Key) {
    k in s.pdrs && s.pdrs[k].qerWithRate == RateOf(s.qers, k.seid, s.pdrs[k].qerIds, None)
  }

  /** The QER is the last of the named ones that has policers. */
  ghost predicate IsLast(qers: map<Key, Qer>, seid: nat, ids: seq<nat>, qk: Key) {
    exists j :: 0 <= j < |ids| && Key(seid, ids[j]) == qk && NoneAfter(qers, seid, ids, j)
  }

  ghost predicate NoneAfter(qers: map<Key, Qer>, seid: nat, ids: seq<nat>, j: nat) {
    forall l :: j < l < |ids| ==> !HasPolicers(qers, Key(seid, ids[l]))
  }

  // ---------- the chosen QER ----------

  lemma {:induction false} RateNoneIff(qers: map<Key, Qer>, seid: nat, ids: seq<nat>, current: Option<Ref>)
    ensures (forall j :: 0 <= j < |ids| ==> !HasPolicers(qers, Key(seid, ids[j]))) ==>
              RateOf(qers, seid, ids, current) == current
    ensures (exists j :: 0 <= j < |ids| && HasPolicers(qers, Key(seid, ids[j]))) ==>
              RateOf(qers, seid, ids, current) == RateOf(qers, seid, ids, None) != None
    decreases |ids|
  {
    if ids != [] {
      var n := |ids| - 1;
      RateNoneIff(qers, seid, ids[..n], current);
      if !HasPolicers(qers, Key(seid, ids[n])) {
        if j :| 0 <= j < |ids| && HasPolicers(qers, Key(seid, ids[j])) {
          assert ids[..n][j] == ids[j];
        }
        assert forall j :: 0 <= j < n ==> ids[..n][j] == ids[j];
      }
    }
  }

  lemma IsLastSnoc(qers: map<Key, Qer>, seid: nat, ids: seq<nat>, qk: Key)
    requires ids != []
    ensures
      var n := |ids| - 1;
      IsLast(qers, seid, ids, qk) <==>
        || Key(seid, ids[n]) == qk
        || (!HasPolicers(qers, Key(seid, ids[n])) && IsLast(qers, seid, ids[..n], qk))
  {
    hide HasPolicers;
    var n := |ids| - 1;
    var rest := ids[..n];
    if j :| 0 <= j < |ids| && Key(seid, ids[j]) == qk && NoneAfter(qers, seid, ids, j) {
      if j < n { assert rest[j] == ids[j] && NoneAfter(qers, seid, rest, j); }
    }
    if Key(seid, ids[n]) == qk { assert NoneAfter(qers, seid, ids, n); }
    if !HasPolicers(qers, Key(seid, ids[n])) && IsLast(qers, seid, rest, qk) {
      var j :| 0 <= j < |rest| && Key(seid, rest[j]) == qk && NoneAfter(qers, seid, rest, j);
      assert ids[j] == rest[j] && forall l :: j < l < n ==> ids[l] == rest[l];
      assert NoneAfter(qers, seid, ids, j);
    }
  }

  /** What a QER that gets policers changes: everything if it is the last, nothing otherwise. */
  lemma {:induction false} RateOfGain(qers: map<Key, Qer>, qk: Key, q: Qer, seid: nat, ids: seq<nat>)
    requires q.hasRate && !HasPolicers(qers, qk)
    ensures
      var qers' := qers[qk := q];
      RateOf(qers', seid, ids, None) ==
        if IsLast(qers', seid, ids, qk) then Some(q.ref) else RateOf(qers, seid, ids, None)
    decreases |ids|
  {
    hide IsLast;
    var qers' := qers[qk := q];
    if ids == [] {
      NotLastInNothing(qers', seid, qk);
    } else {
      var n := |ids| - 1;
      RateOfGain(qers, qk, q, seid, ids[..n]);
      IsLastSnoc(qers', seid, ids, qk);
    }
  }

  lemma NotLastInNothing(qers: map<Key, Qer>, seid: nat, qk: Key)
    ensures !IsLast(qers, seid, [], qk)
  {}

  lemma {:induction false} RateOfFrame(qers: map<Key, Qer>, qers': map<Key, Qer>, seid: nat, ids: seq<nat>)
    requires forall j :: 0 <= j < |ids| ==> Get(qers, Key(seid, ids[j])) == Get(qers', Key(seid, ids[j]))
    ensures RateOf(qers, seid, ids, None) == RateOf(qers', seid, ids, None)
    decreases |ids|
  {
    if ids != [] {
      var n := |ids| - 1;
      assert forall j :: 0 <= j < n ==> ids[..n][j] == ids[j];
      RateOfFrame(qers, qers', seid, ids[..n]);
      assert Get(qers, Key(seid, ids[n])) == Get(qers', Key(seid, ids[n]));
    }
  }

  // ---------- the commands ----------

  /** Creating or replacing a PDR puts it right. */
  lemma InstallPolicesRight(cfg: Config, s: Dev, k: Key, a: PdrAttrs, far: Ref)
    requires Inv(cfg, s)
    ensures
      var p := FillPdr(if k in s.pdrs then s.pdrs[k] else BLANK, a);
      cfg.size > 0 && PolicesRight(Install(cfg, s, k, Linked(cfg, s, k, p, far)), k)
  {
    RelatedSize(cfg, s);
    var p0 := if k in s.pdrs then s.pdrs[k] else BLANK;
    var p := FillPdr(p0, a);
    assert RateStored(k, p0, s.qers);
    InstallPdrs(cfg, s, k, p, far);
    RateNoneIff(s.qers, k.seid, p.qerIds, p.qerWithRate);
    if p.qerWithRate.Some? {
      var i :| i in p0.qerIds && HasPolicers(s.qers, Key(k.seid, i))
               && s.qers[Key(k.seid, i)].ref == p.qerWithRate.value;
      assert i in p.qerIds;
      var j :| 0 <= j < |p.qerIds| && p.qerIds[j] == i;
      assert HasPolicers(s.qers, Key(k.seid, p.qerIds[j]));
    }
    hide Inv, Install, RateOf, RateStored;
  }

  /** The command gives policers to a QER that had none or did not exist. */
  predicate Gains(s: Dev, qk: Key, flags: Flags, hasMbr: bool) {
    && hasMbr && !HasPolicers(s.qers, qk)
    && if qk in s.qers then !flags.excl && flags.replace else !flags.replace && !flags.append
  }

  lemma PutQerIs(s: Dev, qk: Key, flags: Flags, hasMbr: bool)
    ensures
      var s' := DoPutQer(s, qk, flags, hasMbr).0;
      && s'.pdrs == s.pdrs
      && (Gains(s, qk, flags, hasMbr) ==>
            s'.qers == s.qers[qk := Qer(if qk in s.qers then s.qers[qk].ref else s.next, true)])
      && (!Gains(s, qk, flags, hasMbr) ==>
            forall x :: HasPolicers(s'.qers, x) == HasPolicers(s.qers, x)
                        && (HasPolicers(s.qers, x) ==> s'.qers[x].ref == s.qers[x].ref))
  {}

  lemma {:induction false} RateOfSame(qers: map<Key, Qer>, qers': map<Key, Qer>, seid: nat, ids: seq<nat>)
    requires forall x :: HasPolicers(qers', x) == HasPolicers(qers, x)
                         && (HasPolicers(qers, x) ==> qers'[x].ref == qers[x].ref)
    ensures RateOf(qers, seid, ids, None) == RateOf(qers', seid, ids, None)
    decreases |ids|
  {
    if ids != [] {
      RateOfSame(qers, qers', seid, ids[..|ids| - 1]);
      assert HasPolicers(qers', Key(seid, ids[|ids| - 1])) == HasPolicers(qers, Key(seid, ids[|ids| - 1]));
    }
  }

  /** A QER command leaves a PDR right if and only if the QER does not become the last of the
      PDR's QERs that has policers. */
  lemma PutQerRightIff(cfg: Config, s: Dev, qk: Key, flags: Flags, hasMbr: bool, k: Key)
    requires Inv(cfg, s) && PolicesRight(s, k)
    ensures
      var s' := DoPutQer(s, qk, flags, hasMbr).0;
      PolicesRight(s', k) <==>
        !(Gains(s, qk, flags, hasMbr) && IsLast(s'.qers, k.seid, s.pdrs[k].qerIds, qk))
  {
    var s' := DoPutQer(s, qk, flags, hasMbr).0;
    var ids := s.pdrs[k].qerIds;
    PutQerIs(s, qk, flags, hasMbr);
    if Gains(s, qk, flags, hasMbr) {
      var q := Qer(if qk in s.qers then s.qers[qk].ref else s.next, true);
      RateOfGain(s.qers, qk, q, k.seid, ids);
      NotPolicingWith(cfg, s, qk, q.ref, k);
    } else {
      RateOfSame(s.qers, s'.qers, k.seid, ids);
    }
    hide Inv, DoPutQer, IsLast, RateOf;
  }

  /** Nobody polices with a QER without policers, nor with one that does not exist yet. */
  lemma NotPolicingWith(cfg: Config, s: Dev, qk: Key, ref: Ref, k: Key)
    requires Inv(cfg, s) && k in s.pdrs && !HasPolicers(s.qers, qk)
    requires ref == if qk in s.qers then s.qers[qk].ref else s.next
    ensures s.pdrs[k].qerWithRate != Some(ref)
  {
    assert RateStored(k, s.pdrs[k], s.qers);
    assert Fresh(s);
    hide Indexed, Related, FarLinked, RateLive, AllNodesRight;
  }

  /** A QER delete leaves a PDR right if and only if the PDR names no id in its bucket or none of
      the PDR's other QERs has policers. */
  lemma DelQerRightIff(cfg: Config, s: Dev, qk: Key, k: Key)
    requires Inv(cfg, s) && PolicesRight(s, k) && qk in s.qers && cfg.size > 0
    ensures
      var s' := DoDelQer(cfg, s, qk).0;
      var ids := s.pdrs[k].qerIds;
      PolicesRight(s', k) <==>
        || (forall j :: 0 <= j < |ids| ==> Bucket(cfg, Key(k.seid, ids[j])) != Bucket(cfg, qk))
        || (forall j :: 0 <= j < |ids| ==> !HasPolicers(s'.qers, Key(k.seid, ids[j])))
  {
    RelatedSize(cfg, s);
    var s' := DoDelQer(cfg, s, qk).0;
    var ids := s.pdrs[k].qerIds;
    var b := Bucket(cfg, qk);
    InBucketIff(cfg, QerKind, s.relQer, s.pdrs, b, k);
    RateNoneIff(s'.qers, k.seid, ids, None);
    if k in s.relQer[b] {
      var i :| i in ids && Bucket(cfg, Key(k.seid, i)) == b;
      var j :| 0 <= j < |ids| && ids[j] == i;
      assert Bucket(cfg, Key(k.seid, ids[j])) == b;
    } else {
      forall j | 0 <= j < |ids| ensures Bucket(cfg, Key(k.seid, ids[j])) != b { assert ids[j] in ids; }
      RateOfFrame(s.qers, s'.qers, k.seid, ids);
    }
    hide Inv, RateOf, HasPolicers;
  }

  /** POLICING, EXACTLY.  From a state in which a PDR polices with the last of its QERs that has
      policers, a command leads to one in which it does, if and only if the command
      neither gives policers to a QER that becomes the last, nor deletes a QER whose bucket
      the PDR has an id in while another of its QERs has policers. */
  ghost predicate KeepsPolicing(cfg: Config, s: Dev, c: Command, k: Key)
    requires Inv(cfg, s) && cfg.size > 0 && k in s.pdrs
  {
    var ids := s.pdrs[k].qerIds;
    var qers := Step(cfg, s, c).0.qers;
    match c
    case PutQer(qk, flags, hasMbr) => !(Gains(s, qk, flags, hasMbr) && IsLast(qers, k.seid, ids, qk))
    case DelQer(qk) =>
      || qk !in s.qers
      || (forall j :: 0 <= j < |ids| ==> Bucket(cfg, Key(k.seid, ids[j])) != Bucket(cfg, qk))
      || (forall j :: 0 <= j < |ids| ==> !HasPolicers(qers, Key(k.seid, ids[j])))
    case _ => true
  }

  lemma PolicingStepIff(cfg: Config, s: Dev, c: Command, k: Key)
    requires Inv(cfg, s) && cfg.size > 0 && PolicesRight(s, k)
    requires k in Step(cfg, s, c).0.pdrs
    ensures PolicesRight(Step(cfg, s, c).0, k) <==> KeepsPolicing(cfg, s, c, k)
  {
    hide Inv, DoPutFar, DoDelFar, DoPutQer, DoDelQer, DoDelPdr, DoPutPdr, RateOf;
    match c
    case PutQer(qk, flags, hasMbr) => PutQerRightIff(cfg, s, qk, flags, hasMbr, k);
    case DelQer(qk) =>
      if qk in s.qers { DelQerRightIff(cfg, s, qk, k); } else { DelNothing(cfg, s, qk); }
    case PutFar(fk, flags, hasAction, paramsOk) => FarKeepsPolicing(cfg, s, fk, flags, hasAction, paramsOk, k);
    case DelFar(fk) => FarKeepsPolicing(cfg, s, fk, CREATE, true, true, k);
    case DelPdr(x) => DelPdrKeepsPolicing(cfg, s, x, k);
    case PutPdr(x, flags, a) => PutPdrKeepsPolicing(cfg, s, x, flags, a, k);
  }

  lemma DelNothing(cfg: Config, s: Dev, qk: Key)
    requires Inv(cfg, s) && qk !in s.qers
    ensures DoDelQer(cfg, s, qk).0 == s
  {}

  lemma FarKeepsPolicing(cfg: Config, s: Dev, fk: Key, flags: Flags, hasAction: bool, paramsOk: bool, k: Key)
    requires Inv(cfg, s) && PolicesRight(s, k)
    ensures PolicesRight(DoPutFar(cfg, s, fk, flags, hasAction, paramsOk).0, k)
    ensures PolicesRight(DoDelFar(cfg, s, fk).0, k)
  {
    RelatedSize(cfg, s);
    hide Inv, RateOf;
  }

  lemma DelPdrKeepsPolicing(cfg: Config, s: Dev, x: Key, k: Key)
    requires Inv(cfg, s) && PolicesRight(s, k) && k in DoDelPdr(cfg, s, x).0.pdrs
    ensures PolicesRight(DoDelPdr(cfg, s, x).0, k)
  {
    RelatedSize(cfg, s);
    hide Inv, RateOf, Denode, Unlink, HasPoison;
  }

  lemma PutPdrKeepsPolicing(cfg: Config, s: Dev, x: Key, flags: Flags, a: PdrAttrs, k: Key)
    requires Inv(cfg, s) && cfg.size > 0 && PolicesRight(s, k) && k in DoPutPdr(cfg, s, x, flags, a).0.pdrs
    ensures PolicesRight(DoPutPdr(cfg, s, x, flags, a).0, k)
  {
    hide Inv, RateOf, FillPdr, Linked, Install, HasPoison, BLANK, Renode, Unlink;
    var p := FillPdr(if x in s.pdrs then s.pdrs[x] else BLANK, a);
    if FarKey(x, p) in s.fars {
      var far := s.fars[FarKey(x, p)];
      InstallPolicesRight(cfg, s, x, a, far);
      InstallPdrs(cfg, s, x, p, far);
    }
  }

  // ---------- a QER that comes too late ----------

  /** A FAR, a PDR that names QER 1, and then QER 1 with policers: the PDR does not police. */
  lemma LateQerIgnored(cfg: Config, k: Key, ue: bv32) returns (s: Dev)
    requires cfg.size > 0
    ensures Reaches(cfg, [NewFar(Key(k.seid, 1)), CreateByAddr(k, ue, [1], []), NewQer(Key(k.seid, 1), true)], s)
    ensures k in s.pdrs && 1 in s.pdrs[k].qerIds && HasPolicers(s.qers, Key(k.seid, 1))
    ensures s.pdrs[k].qerWithRate == None && !PolicesRight(s, k)
  {
    hide Reaches, Inv, Init, NewFar, NewQer, CreateByAddr, RateOf, Merge;
    var q1 := Key(k.seid, 1);
    var c0, c1, c2 := NewFar(q1), CreateByAddr(k, ue, [1], []), NewQer(q1, true);
    s := Init(cfg);
    ReachesInit(cfg);
    s := ByNewFar(cfg, [], s, q1);
    OneNamed();
    RateNoneIff(s.qers, k.seid, [1], None);
    s := ByCreate(cfg, [] + [c0], s, k, ue, [1], []);
    s := ByNewQer(cfg, [] + [c0] + [c1], s, q1, true);
    assert [] + [c0] + [c1] + [c2] == [c0, c1, c2];
    assert s.pdrs[k].qerIds == [1] && [1][0] == 1;
    RateNoneIff(s.qers, k.seid, [1], None);
    assert HasPolicers(s.qers, Key(k.seid, [1][0]));
  }

  lemma OneNamed()
    ensures Merge([], [1]) == [1]
  {
    assert [1][1..] == [];
    assert Merge([1], []) == [1];
  }
}
