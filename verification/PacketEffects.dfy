/** What a packet does besides counting: START reports, what becomes of the packet, and the
    FARs that its URRs make drop. */
module PacketEffects {
  import opened Base
  import opened Rules
  import opened Links
  import opened Meter
  import opened Quota
  import opened Usage
  import opened Reports
  import opened QuotaReports

  /** A triggerless URR measures and has no trigger at all. */
  lemma TriggerlessIff(u: Urr)
    ensures Triggerless(u) <==> !u.inam && u.volumeMethod && u.triggers == Triggers(false, false, false, false)
  {}

  /** An uplink packet starts the URR: it measures, and waits for the first packet. */
  predicate Starts(u: Urr, t: Traffic) { !u.inam && u.volumeMethod && u.triggers.start && t.uplink }

  lemma MeasureStarts(u: Urr, t: Traffic)
    ensures Start in Measure(u, t).raised <==> Starts(u, t)
  {
    hide Record, Reached, Add;
  }

  ghost predicate SendsStart(sent: seq<Sent>, id: nat) {
    exists i :: 0 <= i < |sent| && sent[i].id == id && sent[i].raised == Some(Start)
  }

  /** START REPORTS.  A packet sends a START report about a URR if and only if it names it, is not
      given up, and starts it. */
  lemma StartSentIff(s: Session, ids: seq<nat>, t: Traffic, id: nat)
    requires id in s.urrs && Distinct(ids)
    ensures SendsStart(OnPacket(s, ids, t).sent, id) <==>
              id in ids && t.volMbqe != 0 && !HasTriggerless(s, ids) && Starts(s.urrs[id], t)
  {
    hide Loop, Emit, Measure, HasTriggerless;
    MeasureStarts(s.urrs[id], t);
    if t.volMbqe != 0 {
      AbortsIff(s, ids, t);
      if !HasTriggerless(s, ids) {
        if id in ids {
          ReportSentIff(s, ids, t, id, Start);
        } else {
          LoopUntouched(s, ids, t, id);
          var l := Loop(s, ids, t);
          EmitSendsAll(l.session, l.pending, t.now);
        }
      }
    }
  }

  /** WHAT BECOMES OF THE PACKET.  Given up exactly when it has volume and one of its URRs measures
      without a trigger; else withheld exactly when it starts one of its URRs; else forwarded. */
  lemma ResultIs(s: Session, ids: seq<nat>, t: Traffic)
    requires Distinct(ids)
    ensures OnPacket(s, ids, t).result ==
            if t.volMbqe == 0 then Forward
            else if HasTriggerless(s, ids) then NoTrigger
            else if exists x :: x in ids && x in s.urrs && Starts(s.urrs[x], t) then Withhold
            else Forward
  {
    hide Loop, Emit, Measure, HasTriggerless;
    AbortsIff(s, ids, t);
    if t.volMbqe != 0 && !HasTriggerless(s, ids) {
      var l := Loop(s, ids, t);
      forall x | x in ids && x in s.urrs ensures Pending(x, Start) in l.pending <==> Starts(s.urrs[x], t) {
        LoopRaises(s, ids, t, x, Start);
        MeasureStarts(s.urrs[x], t);
      }
      forall p | p in l.pending ensures p.id in ids && p.id in s.urrs {
        LoopReports(s, ids, t, p.id);
        if p.id !in ids { LoopUntouched(s, ids, t, p.id); }
      }
      hide Starts;
      if x :| x in ids && x in s.urrs && Starts(s.urrs[x], t) {
        var i :| 0 <= i < |l.pending| && l.pending[i] == Pending(x, Start);
      }
      if i :| 0 <= i < |l.pending| && l.pending[i].raised == Start {
        assert l.pending[i] == Pending(l.pending[i].id, Start) && l.pending[i] in l.pending;
      }
    }
  }

  // ---------- FARs that drop ----------

  /** The packet exhausts the URR: it starts it, or leaves its consumption at an enabled limit. */
  predicate Exhausts(u: Urr, t: Traffic) {
    var vol := if u.mbqe then t.volMbqe else t.vol;
    || Starts(u, t)
    || (&& !u.inam && u.volumeMethod && u.triggers.volqu && vol != 0
        && Reached(Add(u.consumed, vol, t.uplink, u.mnop), u.quota))
  }

  lemma MeasureExhausts(u: Urr, t: Traffic)
    ensures Measure(u, t).exhaust <==> Exhausts(u, t)
    ensures Measure(u, t).urr.exhausted == u.exhausted
  {
    hide Record, Reached, Add;
  }

  /** One of the URRs that the loop reaches is exhausted by the packet and uses the FAR. */
  ghost predicate MadeToDrop(s: Session, ids: seq<nat>, t: Traffic, f: Ref) {
    exists i :: 0 <= i < |ids| && DropsAt(s, ids, t, f, i)
  }

  ghost predicate DropsAt(s: Session, ids: seq<nat>, t: Traffic, f: Ref, i: nat)
    requires i < |ids|
  {
    && ids[i] in s.urrs && !HasTriggerless(s, ids[..i + 1])
    && !s.urrs[ids[i]].exhausted && Exhausts(s.urrs[ids[i]], t) && Uses(NodesOf(s, ids[i]), f)
  }

  lemma MadeToDropSnoc(s: Session, ids: seq<nat>, t: Traffic, f: Ref)
    requires ids != []
    ensures MadeToDrop(s, ids, t, f) <==>
              MadeToDrop(s, ids[..|ids| - 1], t, f) || DropsAt(s, ids, t, f, |ids| - 1)
  {
    hide HasTriggerless, Exhausts;
    var rest := ids[..|ids| - 1];
    forall i | 0 <= i < |rest| ensures DropsAt(s, ids, t, f, i) <==> DropsAt(s, rest, t, f, i) {
      assert rest[..i + 1] == ids[..i + 1];
    }
    if i :| 0 <= i < |ids| && DropsAt(s, ids, t, f, i) { assert i < |rest| ==> DropsAt(s, rest, t, f, i); }
    if i :| 0 <= i < |rest| && DropsAt(s, rest, t, f, i) { assert DropsAt(s, ids, t, f, i); }
  }

  ghost predicate AllKnown(s: Session, ids: seq<nat>) {
    forall i :: 0 <= i < |ids| ==> FarsKnown(NodesOf(s, ids[i]), s.actions)
  }

  lemma VisitActions(l: LoopState, id: nat, t: Traffic, f: Ref)
    requires f in l.session.actions && FarsKnown(NodesOf(l.session, id), l.session.actions)
    ensures
      var s, s' := l.session, Visit(l, id, t).session;
      && s'.nodes == s.nodes && s'.actions.Keys == s.actions.Keys
      && s'.actions[f] ==
           if !l.aborted && id in s.urrs && !Triggerless(s.urrs[id]) && !s.urrs[id].exhausted
              && Exhausts(s.urrs[id], t) && Uses(NodesOf(s, id), f) then DROP
           else s.actions[f]
  {
    DropEffect(NodesOf(l.session, id), l.session.actions);
    if id in l.session.urrs { MeasureExhausts(l.session.urrs[id], t); }
    hide Measure, SaveAndDrop, Triggerless, Exhausts, Uses;
  }

  lemma {:induction false} LoopActions(s: Session, ids: seq<nat>, t: Traffic, f: Ref)
    requires f in s.actions && Distinct(ids) && AllKnown(s, ids)
    ensures
      var s' := Loop(s, ids, t).session;
      && s'.nodes == s.nodes && s'.actions.Keys == s.actions.Keys
      && s'.actions[f] == if MadeToDrop(s, ids, t, f) then DROP else s.actions[f]
    decreases |ids|
  {
    hide Visit, MadeToDrop, Exhausts, Uses, Triggerless;
    if ids == [] {
      NobodyDrops(s, t, f);
    } else {
      var n := |ids| - 1;
      var rest, y := ids[..n], ids[n];
      var l := Loop(s, rest, t);
      assert AllKnown(s, rest) by { assert forall i :: 0 <= i < n ==> rest[i] == ids[i]; }
      LoopActions(s, rest, t, f);
      assert FarsKnown(NodesOf(s, ids[n]), s.actions);
      assert y !in rest;
      LoopUntouched(s, rest, t, y);
      VisitActions(l, y, t, f);
      MadeToDropSnoc(s, ids, t, f);
      TriggerlessSnoc(s, ids);
      AbortsIff(s, rest, t);
      assert ids[..n + 1] == ids;
      hide HasTriggerless;
    }
  }

  lemma NobodyDrops(s: Session, t: Traffic, f: Ref) ensures !MadeToDrop(s, [], t, f) {}

  lemma TriggerlessSnoc(s: Session, ids: seq<nat>)
    requires ids != []
    ensures
      var y := ids[|ids| - 1];
      HasTriggerless(s, ids) <==>
        HasTriggerless(s, ids[..|ids| - 1]) || (y in s.urrs && Triggerless(s.urrs[y]))
  {
    hide Triggerless;
    var n := |ids| - 1;
    TriggerlessPrefix(s, ids, n);
    if i :| 0 <= i < |ids| && ids[i] in s.urrs && Triggerless(s.urrs[ids[i]]) {
      if i < n { assert ids[..n][i] in s.urrs && Triggerless(s.urrs[ids[..n][i]]); }
    }
  }

  /** FARS THAT DROP.  After a packet a FAR drops if it did before, or if the loop has reached a URR
      that was not exhausted, that the packet exhausts, and one of whose related PDRs has this
      FAR; every other FAR keeps its action. */
  lemma PacketActions(s: Session, ids: seq<nat>, t: Traffic, f: Ref)
    requires f in s.actions && Distinct(ids) && AllKnown(s, ids)
    ensures
      var s' := OnPacket(s, ids, t).session;
      && s'.actions.Keys == s.actions.Keys
      && s'.actions[f] == if t.volMbqe != 0 && MadeToDrop(s, ids, t, f) then DROP else s.actions[f]
  {
    hide Loop, Emit, MadeToDrop;
    LoopActions(s, ids, t, f);
    var l := Loop(s, ids, t);
    EmitActions(l.session, l.pending, t.now);
  }

  lemma {:induction false} EmitActions(s: Session, pending: seq<Pending>, now: nat)
    ensures Emit(s, pending, now).0.actions == s.actions
    decreases |pending|
  {
    hide Record, Snapshot;
    if pending != [] { EmitActions(s, pending[..|pending| - 1], now); }
  }
}
