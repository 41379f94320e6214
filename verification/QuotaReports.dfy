/** How often, and by which packet, the exhaustion of a volume quota is reported, over whole
    runs of a session. */
module QuotaReports {
  import opened Base
  import opened Links
  import opened Meter
  import opened Quota
  import opened Usage
  import opened Reports

  // ---------- grants ----------

  /** What a grant does.  It resets the consumption and lifts an exhaustion, unless it grants
      no total volume to a URR with only the VOLQU trigger: that one is exhausted at once,
      whatever uplink and downlink volume is granted, and nothing is reported.  A grant does
      not switch measuring on again; only the measurement information of the command does. */
  lemma GrantIs(s: Session, id: nat, a: UrrAttrs)
    requires id in s.urrs && a.quota.Some?
    ensures
      var before, u := s.urrs[id], Step(s, Put(id, a)).urrs[id];
      var triggers := if a.triggers.Some? then a.triggers.value else before.triggers;
      var volume := if a.volumeMethod.Some? then a.volumeMethod.value else before.volumeMethod;
      var inactive := if a.info.Some? then a.info.value.inam else before.inam;
      var zero := a.quota.value.total == 0 && triggers == Triggers(false, false, true, false);
      && u.quota == a.quota.value && u.consumed == ZERO && (u.exhausted <==> zero)
      && (Measuring(u) <==> !inactive && volume && (zero ==> before.exhausted))
      && (Armed(u) <==> !inactive && volume && triggers.volqu && !triggers.start && !zero)
      && StepSent(s, Put(id, a)) == []
  {
    FillFieldsAre(s.urrs[id], a);
    hide FillFields, SaveAndDrop, Restore;
  }

  lemma FillFieldsAre(u: Urr, a: UrrAttrs)
    ensures
      var w := FillFields(u, a);
      && w.triggers == (if a.triggers.Some? then a.triggers.value else u.triggers)
      && w.volumeMethod == (if a.volumeMethod.Some? then a.volumeMethod.value else u.volumeMethod)
      && w.inam == (if a.info.Some? then a.info.value.inam else u.inam)
      && w.exhausted == u.exhausted
  {
    hide Apply;
  }

  // ---------- at most one report ----------

  /** The VOLQU reports about one URR. */
  function VolquFor(sent: seq<Sent>, id: nat): nat
    decreases |sent|
  {
    if sent == [] then 0
    else
      var last := sent[|sent| - 1];
      VolquFor(sent[..|sent| - 1], id) + (if last.id == id && last.raised == Some(Volqu) then 1 else 0)
  }

  lemma {:induction false} VolquConcat(a: seq<Sent>, b: seq<Sent>, id: nat)
    ensures VolquFor(a + b, id) == VolquFor(a, id) + VolquFor(b, id)
    decreases |b|
  {
    if b == [] {
      assert a + b == a;
    } else {
      VolquConcat(a, b[..|b| - 1], id);
      assert (a + b)[..|a + b| - 1] == a + b[..|b| - 1];
    }
  }

  function Raises(pending: seq<Pending>, id: nat): nat { multiset(pending)[Pending(id, Volqu)] }

  lemma {:induction false} EmitVolqu(s: Session, pending: seq<Pending>, now: nat, id: nat)
    ensures VolquFor(Emit(s, pending, now).1, id) == Raises(pending, id)
    decreases |pending|
  {
    if pending != [] {
      var n := |pending| - 1;
      EmitVolqu(s, pending[..n], now, id);
      assert pending == pending[..n] + [pending[n]];
      var sent := Emit(s, pending, now).1;
      assert sent[..|sent| - 1] == Emit(s, pending[..n], now).1;
    }
  }

  function Stage(u: Urr): nat { if u.exhausted then 1 else 0 }

  /** An exhausted URR does not measure. */
  ghost predicate Closed(s: Session, id: nat) { id in s.urrs && (s.urrs[id].exhausted ==> s.urrs[id].inam) }

  lemma TagVolqu(x: nat, raised: seq<Raised>, id: nat)
    requires |raised| <= 2
    ensures Raises(Tag(x, raised), id) == if x == id then multiset(raised)[Volqu] else 0
  {
    var t := Tag(x, raised);
    if |raised| == 0 {
      assert t == [] && raised == [];
    } else if |raised| == 1 {
      assert t == [Pending(x, raised[0])] && raised == [raised[0]];
    } else {
      assert t == [Pending(x, raised[0]), Pending(x, raised[1])] && raised == [raised[0], raised[1]];
    }
  }

  lemma MeasureRaises(u: Urr, t: Traffic)
    ensures
      var v := Measure(u, t);
      && |v.raised| <= 2 && multiset(v.raised)[Volqu] <= 1
      && v.urr.exhausted == u.exhausted && v.urr.inam == u.inam
      && (multiset(v.raised)[Volqu] == 1 ==> v.exhaust && !u.inam)
  {
    hide Record, Reached, Add;
  }

  lemma VisitOnce(l: LoopState, x: nat, t: Traffic, id: nat)
    requires Closed(l.session, id)
    ensures
      var l' := Visit(l, x, t);
      && Closed(l'.session, id)
      && Raises(l'.pending, id) + Stage(l.session.urrs[id]) <= Raises(l.pending, id) + Stage(l'.session.urrs[id])
  {
    hide Measure, Tag, SaveAndDrop, Triggerless;
    if x in l.session.urrs {
      MeasureRaises(l.session.urrs[x], t);
      TagVolqu(x, Measure(l.session.urrs[x], t).raised, id);
      RaisesConcat(l.pending, Tag(x, Measure(l.session.urrs[x], t).raised), id);
      if x != id { VisitOther(l, x, t, id); }
    }
    hide Raises;
  }

  lemma RaisesConcat(a: seq<Pending>, b: seq<Pending>, id: nat)
    ensures Raises(a + b, id) == Raises(a, id) + Raises(b, id)
  {}

  lemma {:induction false} LoopOnce(s: Session, ids: seq<nat>, t: Traffic, id: nat)
    requires Closed(s, id)
    ensures
      var l := Loop(s, ids, t);
      Closed(l.session, id) && Raises(l.pending, id) + Stage(s.urrs[id]) <= Stage(l.session.urrs[id])
    decreases |ids|
  {
    if ids != [] {
      LoopOnce(s, ids[..|ids| - 1], t, id);
      VisitOnce(Loop(s, ids[..|ids| - 1], t), ids[|ids| - 1], t, id);
    }
    hide Raises, Visit;
  }

  /** Reporting changes the counters and the records of URRs only. */
  lemma {:induction false} EmitKeepsFlags(s: Session, pending: seq<Pending>, now: nat, id: nat)
    requires id in s.urrs
    ensures
      var s' := Emit(s, pending, now).0;
      id in s'.urrs && s'.urrs[id] == s.urrs[id].(counters := s'.urrs[id].counters,
                                                  history := s'.urrs[id].history, reported := s'.urrs[id].reported)
    decreases |pending|
  {
    hide Record, Snapshot;
    if pending != [] { EmitKeepsFlags(s, pending[..|pending| - 1], now, id); }
  }

  /** The command neither grants a quota to the URR nor deletes it. */
  predicate Quiet(c: Command, id: nat) {
    && !(c.Delete? && c.id == id)
    && !(c.Put? && c.id == id && c.attrs.quota.Some?)
  }

  /** The command makes an exhausted URR measure again without granting it a quota. */
  predicate Reopens(s: Session, c: Command, id: nat) {
    && c.Put? && c.id == id && id in s.urrs && s.urrs[id].exhausted
    && c.attrs.info.Some? && !c.attrs.info.value.inam
  }

  lemma PacketOnce(s: Session, ids: seq<nat>, t: Traffic, id: nat)
    requires Closed(s, id)
    ensures
      var out := OnPacket(s, ids, t);
      Closed(out.session, id) && VolquFor(out.sent, id) + Stage(s.urrs[id]) <= Stage(out.session.urrs[id])
  {
    hide Loop, Emit, Raises;
    var l := Loop(s, ids, t);
    LoopOnce(s, ids, t, id);
    EmitVolqu(l.session, l.pending, t.now, id);
    EmitKeepsFlags(l.session, l.pending, t.now, id);
  }

  lemma PutOnce(s: Session, x: nat, a: UrrAttrs, id: nat)
    requires Closed(s, id) && Quiet(Put(x, a), id) && !Reopens(s, Put(x, a), id)
    ensures
      var s' := Step(s, Put(x, a));
      Closed(s', id) && s'.urrs[id].exhausted == s.urrs[id].exhausted
  {
    hide SaveAndDrop, Restore, Record;
  }

  lemma StepOnce(s: Session, c: Command, id: nat)
    requires Closed(s, id) && Quiet(c, id) && !Reopens(s, c, id)
    ensures
      var s' := Step(s, c);
      Closed(s', id) && VolquFor(StepSent(s, c), id) + Stage(s.urrs[id]) <= Stage(s'.urrs[id])
  {
    match c
    case Packet(ids, t) => PacketOnce(s, ids, t, id);
    case Put(x, a) => PutOnce(s, x, a, id);
    case Query(x, now) =>
    case Delete(x, now) =>
    case Rules(_, _) =>
    hide OnPacket, Fill, Snapshot;
  }

  /** No command of the run grants a quota to the URR, deletes it or reopens it. */
  ghost predicate QuietRun(s: Session, cs: seq<Command>, id: nat) {
    forall i :: 0 <= i < |cs| ==> Quiet(cs[i], id) && !Reopens(RunAll(s, cs[..i]), cs[i], id)
  }

  /** AT MOST ONE REPORT.  Over every run of packets, requests and commands about any URRs that
      neither grants a further quota to the URR, nor deletes it, nor reopens it, at most one
      VOLQU report about it is sent, and none once it is exhausted, lost reports included. */
  lemma {:induction false} QuotaAtMostOnce(s: Session, cs: seq<Command>, id: nat)
    requires Closed(s, id) && QuietRun(s, cs, id)
    ensures
      var e := RunAll(s, cs);
      Closed(e, id) && VolquFor(RunSent(s, cs), id) + Stage(s.urrs[id]) <= Stage(e.urrs[id])
    decreases |cs|
  {
    hide Step, StepSent, Quiet, Reopens, Closed;
    if cs != [] {
      var n := |cs| - 1;
      assert forall i :: 0 <= i < n ==> cs[..n][i] == cs[i] && cs[..n][..i] == cs[..i];
      QuotaAtMostOnce(s, cs[..n], id);
      StepOnce(RunAll(s, cs[..n]), cs[n], id);
      VolquConcat(RunSent(s, cs[..n]), StepSent(RunAll(s, cs[..n]), cs[n]), id);
    }
  }

  // ---------- single packets and reports ----------

  lemma LoopOfOne(s: Session, id: nat, t: Traffic)
    ensures Loop(s, [id], t) == Visit(LoopState(s, [], false), id, t)
  {
    hide Visit;
    assert [id][..0] == [];
    assert Loop(s, [], t) == LoopState(s, [], false);
  }

  /** Sending a single report. */
  lemma EmitOne(s: Session, id: nat, r: Raised, now: nat)
    ensures Emit(s, [Pending(id, r)], now) == (Convert(s, id, now), [Sent(id, Some(r), Snapshot(s, id, now))])
  {
    hide Convert, Snapshot;
    var pending := [Pending(id, r)];
    assert pending[..0] == [];
    assert Emit(s, [], now) == (s, []);
    assert [] + [Sent(id, Some(r), Snapshot(s, id, now))] == [Sent(id, Some(r), Snapshot(s, id, now))];
  }

  /** The first visit of a URR that raises a single report. */
  lemma VisitOne(s: Session, id: nat, t: Traffic, r: Raised)
    requires id in s.urrs && !Triggerless(s.urrs[id]) && Measure(s.urrs[id], t).raised == [r]
    ensures
      var v := Measure(s.urrs[id], t);
      var s1 := s.(urrs := s.urrs[id := v.urr]);
      Visit(LoopState(s, [], false), id, t) ==
        LoopState(if v.exhaust then Exhaust(s1, id) else s1, [Pending(id, r)], false)
  {
    hide Measure, Exhaust, Triggerless;
    assert Tag(id, [r]) == [Pending(id, r)];
    assert [] + [Pending(id, r)] == [Pending(id, r)];
  }

  ghost predicate PacketsOnly(ps: seq<Command>) { forall i :: 0 <= i < |ps| ==> ps[i].Packet? }

  /** Whatever packets follow the run, at most one VOLQU report is sent. */
  ghost predicate OnceWhatever(s: Session, cs: seq<Command>, id: nat) {
    forall ps :: PacketsOnly(ps) ==> VolquFor(RunSent(s, cs + ps), id) <= 1
  }

  // ---------- the packet that sends the report ----------

  /** A URR without its counters, limits of other triggers, and records. */
  function Strip(u: Urr): Urr {
    u.(period := 0, threshold := NO_LIMIT, counters := Counters(ZERO, ZERO), saved := [], arrays := NoArrays,
       history := [], reported := [])
  }

  /** The loop reaches the URR before it meets a measuring URR without trigger. */
  ghost predicate Visited(s: Session, ids: seq<nat>, id: nat) {
    exists p :: 0 <= p < |ids| && ids[p] == id && !HasTriggerless(s, ids[..p + 1])
  }

  lemma VisitedSnoc(s: Session, ids: seq<nat>, id: nat)
    requires ids != []
    ensures
      var n := |ids| - 1;
      Visited(s, ids, id) <==> Visited(s, ids[..n], id) || (ids[n] == id && !HasTriggerless(s, ids))
  {
    hide HasTriggerless;
    var n := |ids| - 1;
    assert ids[..n + 1] == ids;
    if p :| 0 <= p < |ids| && ids[p] == id && !HasTriggerless(s, ids[..p + 1]) {
      if p < n { assert ids[..n][p] == id && ids[..n][..p + 1] == ids[..p + 1]; }
    }
    if p :| 0 <= p < n && ids[..n][p] == id && !HasTriggerless(s, ids[..n][..p + 1]) {
      assert ids[p] == id && ids[..n][..p + 1] == ids[..p + 1];
    }
  }

  lemma VisitOther(l: LoopState, x: nat, t: Traffic, id: nat)
    requires x != id && id in l.session.urrs
    ensures id in Visit(l, x, t).session.urrs && Visit(l, x, t).session.urrs[id] == l.session.urrs[id]
  {
    hide Measure, SaveAndDrop, Triggerless;
  }

  lemma VisitSelf(l: LoopState, id: nat, t: Traffic)
    requires !l.aborted && id in l.session.urrs && !Triggerless(l.session.urrs[id])
    ensures
      var s' := Visit(l, id, t).session;
      id in s'.urrs && Strip(s'.urrs[id]) == Strip(Feed(l.session.urrs[id], t))
  {
    hide Measure, SaveAndDrop, Triggerless;
  }

  lemma {:induction false} LoopFeeds(s: Session, ids: seq<nat>, t: Traffic, id: nat)
    requires id in s.urrs && Distinct(ids)
    ensures
      var l := Loop(s, ids, t);
      && id in l.session.urrs
      && Strip(l.session.urrs[id]) == if Visited(s, ids, id) then Strip(Feed(s.urrs[id], t)) else Strip(s.urrs[id])
    decreases |ids|
  {
    hide Visit, Feed, Strip, Triggerless;
    if ids != [] {
      var n := |ids| - 1;
      var rest, y := ids[..n], ids[n];
      var l := Loop(s, rest, t);
      LoopFeeds(s, rest, t, id);
      VisitedSnoc(s, ids, id);
      AbortsIff(s, rest, t);
      AbortsIff(s, ids, t);
      if y != id {
        VisitOther(l, y, t, id);
      } else {
        assert id !in rest;
        LoopUntouched(s, rest, t, id);
        VisitLast(s, l, ids, t, id);
      }
    }
  }

  /** The URR is the last one of the PDR. */
  lemma VisitLast(s: Session, l: LoopState, ids: seq<nat>, t: Traffic, id: nat)
    requires ids != [] && ids[|ids| - 1] == id && l == Loop(s, ids[..|ids| - 1], t)
    requires id in s.urrs && id in l.session.urrs && l.session.urrs[id] == s.urrs[id]
    ensures
      var s' := Visit(l, id, t).session;
      && id in s'.urrs
      && Strip(s'.urrs[id]) == if HasTriggerless(s, ids) then Strip(s.urrs[id]) else Strip(Feed(s.urrs[id], t))
  {
    AbortsIff(s, ids, t);
    AbortsIff(s, ids[..|ids| - 1], t);
    TriggerlessPrefix(s, ids, |ids| - 1);
    if !HasTriggerless(s, ids) {
      assert !Triggerless(s.urrs[ids[|ids| - 1]]);
      VisitSelf(l, id, t);
    }
    hide Measure, SaveAndDrop, Strip, Feed;
  }

  ghost predicate SendsVolqu(sent: seq<Sent>, id: nat) {
    exists i :: 0 <= i < |sent| && sent[i].id == id && sent[i].raised == Some(Volqu)
  }

  /** A packet sends a VOLQU report about a URR exactly when it names it, is not given up and
      measuring raises it. */
  lemma PacketSendsIff(s: Session, ids: seq<nat>, t: Traffic, id: nat)
    requires id in s.urrs && Distinct(ids)
    ensures SendsVolqu(OnPacket(s, ids, t).sent, id) <==>
              id in ids && t.volMbqe != 0 && !HasTriggerless(s, ids) && Volqu in Measure(s.urrs[id], t).raised
  {
    hide Loop, Emit, Measure, HasTriggerless;
    if t.volMbqe != 0 {
      AbortsIff(s, ids, t);
      if !HasTriggerless(s, ids) {
        if id in ids {
          ReportSentIff(s, ids, t, id, Volqu);
        } else {
          LoopUntouched(s, ids, t, id);
          var l := Loop(s, ids, t);
          EmitSendsAll(l.session, l.pending, t.now);
        }
      }
    }
  }

  /** A report that a packet raised and then lost: the URR is exhausted and its FARs drop, and
      nobody is told. */
  lemma AbortLosesReport(s: Session, ids: seq<nat>, t: Traffic, id: nat)
    requires id in s.urrs && Distinct(ids) && t.volMbqe != 0
    requires Visited(s, ids, id) && HasTriggerless(s, ids) && Volqu in Measure(s.urrs[id], t).raised
    ensures
      var out := OnPacket(s, ids, t);
      out.sent == [] && id in out.session.urrs && out.session.urrs[id].exhausted
  {
    hide Visited, HasTriggerless, Loop, Emit;
    AbortsIff(s, ids, t);
    LoopFeeds(s, ids, t, id);
    assert Feed(s.urrs[id], t).exhausted;
    hide Measure, Feed;
  }
}
