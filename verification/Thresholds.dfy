/** Volume thresholds: which packets send a VOLTH report, and what it carries. */
module Thresholds {
  import opened Base
  import opened Links
  import opened Meter
  import opened Quota
  import opened Usage
  import opened Reports
  import opened QuotaReports

  // ---------- the report of one packet ----------

  /** The loop leaves the counters of a URR as measuring does, and its first report first. */
  lemma {:induction false} FirstPending(s: Session, ids: seq<nat>, t: Traffic, id: nat) returns (i: nat)
    requires Distinct(ids) && !HasTriggerless(s, ids) && id in ids && id in s.urrs
    requires Measure(s.urrs[id], t).raised != []
    ensures
      var v := Measure(s.urrs[id], t);
      var l := Loop(s, ids, t);
      && id in l.session.urrs && l.session.urrs[id].counters == v.urr.counters
      && l.session.urrs[id].period == v.urr.period
      && i < |l.pending| && l.pending[i] == Pending(id, v.raised[0])
      && forall j :: 0 <= j < i ==> l.pending[j].id != id
    decreases |ids|
  {
    hide Measure, Exhaust, Triggerless, Tag, HasTriggerless;
    var n := |ids| - 1;
    var rest, y := ids[..n], ids[n];
    TriggerlessPrefix(s, ids, n);
    AbortsIff(s, rest, t);
    AbortsIff(s, ids, t);
    var l := Loop(s, rest, t);
    if y == id {
      assert id !in rest;
      LoopUntouched(s, rest, t, id);
      i := |l.pending|;
      VisitAppends(l, id, t);
    } else {
      i := FirstPending(s, rest, t, id);
      VisitOther(l, y, t, id);
      VisitKeepsPending(l, y, t);
    }
  }

  lemma VisitKeepsPending(l: LoopState, x: nat, t: Traffic)
    ensures l.pending <= Visit(l, x, t).pending
  {
    hide Measure, Exhaust, Triggerless, Tag;
  }

  lemma VisitAppends(l: LoopState, id: nat, t: Traffic)
    requires id in l.session.urrs && Measure(l.session.urrs[id], t).raised != []
    requires !Visit(l, id, t).aborted
    ensures
      var v := Measure(l.session.urrs[id], t);
      var l' := Visit(l, id, t);
      && |l'.pending| > |l.pending| && l'.pending[|l.pending|] == Pending(id, v.raised[0])
      && (forall j :: 0 <= j < |l.pending| ==> l'.pending[j] == l.pending[j])
      && id in l'.session.urrs && l'.session.urrs[id].counters == v.urr.counters
      && l'.session.urrs[id].period == v.urr.period
  {
    hide Measure, SaveAndDrop, Triggerless;
  }

  /** Reports about other URRs leave a URR alone. */
  lemma {:induction false} EmitUntouched(s: Session, pending: seq<Pending>, now: nat, id: nat)
    requires id in s.urrs && forall j :: 0 <= j < |pending| ==> pending[j].id != id
    ensures id in Emit(s, pending, now).0.urrs && Emit(s, pending, now).0.urrs[id] == s.urrs[id]
    decreases |pending|
  {
    hide Record, Snapshot;
    if pending != [] { EmitUntouched(s, pending[..|pending| - 1], now, id); }
  }

  lemma {:induction false} EmitAt(s: Session, pending: seq<Pending>, now: nat, i: nat)
    requires i < |pending| && pending[i].id in s.urrs
    requires forall j :: 0 <= j < i ==> pending[j].id != pending[i].id
    ensures
      var sent := Emit(s, pending, now).1;
      i < |sent| && sent[i] == Sent(pending[i].id, Some(pending[i].raised), Snapshot(s, pending[i].id, now))
    decreases |pending|
  {
    hide Convert;
    var n := |pending| - 1;
    EmitSendsAll(s, pending[..n], now);
    if i < n {
      EmitAt(s, pending[..n], now, i);
    } else {
      EmitUntouched(s, pending[..n], now, pending[n].id);
    }
  }

  /** The counter that a packet fills, and the one that a report at the same time takes. */
  function Filled(u: Urr, now: nat): Volumes { Select(u.counters, Second(u.period, now, false)) }

  function Taken(u: Urr, now: nat): Volumes { Select(u.counters, Second(u.period, now, true)) }

  lemma TakenIsFilled(u: Urr, now: nat)
    ensures Taken(u, now) == if u.period == 0 then Filled(u, now) else Select(u.counters, !Second(u.period, now, false))
  {}

  /** What a VOLTH report carries: the counter that reached the threshold if the URR has no
      period, and the other counter if it has one. */
  lemma ThresholdReportIs(s: Session, ids: seq<nat>, t: Traffic, id: nat) returns (i: nat)
    requires Distinct(ids) && !HasTriggerless(s, ids) && id in ids && id in s.urrs && t.volMbqe != 0
    requires Volth in Measure(s.urrs[id], t).raised
    ensures
      var u := Measure(s.urrs[id], t).urr;
      var sent := OnPacket(s, ids, t).sent;
      && i < |sent| && sent[i] == Sent(id, Some(Volth), Taken(u, t.now))
      && Reached(Filled(u, t.now), u.threshold)
      && Taken(u, t.now) ==
           if u.period == 0 then Filled(u, t.now) else Select(u.counters, !Second(u.period, t.now, false))
  {
    MeasureVolth(s.urrs[id], t);
    hide Measure, HasTriggerless, Loop, Emit, Second;
    var u := Measure(s.urrs[id], t).urr;
    TakenIsFilled(u, t.now);
    i := FirstPending(s, ids, t, id);
    AbortsIff(s, ids, t);
    var l := Loop(s, ids, t);
    EmitAt(l.session, l.pending, t.now, i);
  }

  /** When measuring raises a VOLTH report. */
  lemma MeasureVolth(u: Urr, t: Traffic)
    requires (Measuring(u) && !(u.triggers.start && t.uplink)) || Volth in Measure(u, t).raised
    ensures
      var v := Measure(u, t);
      && (Volth in v.raised <==> u.triggers.volth && VolumeFor(u, t) != 0 && Reached(Filled(v.urr, t.now), u.threshold))
      && (Volth in v.raised ==> v.raised[0] == Volth)
      && v.urr.threshold == u.threshold && v.urr.period == u.period
      && v.urr.counters == Apply(u.counters, Event.Count(u.period, t.now, VolumeFor(u, t), t.uplink, u.mnop)).counters
  {
    hide Reached, Second, Add;
  }

  ghost predicate SendsVolth(sent: seq<Sent>, id: nat) {
    exists i :: 0 <= i < |sent| && sent[i].id == id && sent[i].raised == Some(Volth)
  }

  // ---------- whole runs ----------

  /** The event that a packet is for a URR. */
  function CountOf(u: Urr, t: Traffic): Event {
    Event.Count(u.period, t.now, if u.mbqe then t.volMbqe else t.vol, t.uplink, u.mnop)
  }

  /** A packet that measures a URR with the VOLTH trigger, and is not given up. */
  ghost predicate Measures(s: Session, ids: seq<nat>, t: Traffic, id: nat) {
    && Distinct(ids) && !HasTriggerless(s, ids) && id in ids && id in s.urrs && t.volMbqe != 0
    && var u := s.urrs[id];
       Measuring(u) && u.triggers.volth && !(u.triggers.start && t.uplink)
  }

  lemma SentIffRaised(s: Session, ids: seq<nat>, t: Traffic, id: nat)
    requires Measures(s, ids, t, id)
    ensures SendsVolth(OnPacket(s, ids, t).sent, id) <==> Volth in Measure(s.urrs[id], t).raised
  {
    hide Measure, OnPacket, HasTriggerless;
    ReportSentIff(s, ids, t, id, Volth);
  }

  /** The filled counter of a URR after the packet, by its history. */
  lemma FilledIs(u: Urr, t: Traffic)
    requires Recorded(u)
    ensures
      var es := u.history + [CountOf(u, t)];
      var c := Run(Counters(ZERO, ZERO), es).counters;
      && c == Apply(u.counters, CountOf(u, t)).counters
      && Coherent(c.bytes) && Coherent(c.bytes2)
  {
    RunSnoc(Counters(ZERO, ZERO), u.history, CountOf(u, t));
    TotalsCohere(u.history + [CountOf(u, t)]);
    hide Apply, Coherent, Run;
  }

  /** Reaching a limit with 64-bit counters that have not wrapped. */
  lemma ReachedIff(v: Volumes, l: Limit, ul: nat, dl: nat)
    requires v.ul == Wrap(ul) && v.dl == Wrap(dl) && Coherent(v) && ul + dl < U64
    ensures Reached(v, l) <==> Exceeds(l, ul, dl)
    ensures v.ul == ul && v.dl == dl && v.total == ul + dl
  {}

  // ---------- without periods ----------

  /** Volume counted since the last report. */
  function SinceReport(es: seq<Event>, uplink: bool): nat
    decreases |es|
  {
    if es == [] then 0
    else
      var e := es[|es| - 1];
      if e.Count? then SinceReport(es[..|es| - 1], uplink) + (if e.uplink == uplink then e.vol else 0) else 0
  }

  ghost predicate NoPeriods(es: seq<Event>) { forall i :: 0 <= i < |es| ==> es[i].Clear? || es[i].period == 0 }

  lemma {:induction false} CounterSince(es: seq<Event>, uplink: bool)
    requires NoPeriods(es)
    ensures Dir(Run(Counters(ZERO, ZERO), es).counters.bytes, uplink) == Wrap(SinceReport(es, uplink))
    decreases |es|
  {
    if es != [] {
      var n := |es| - 1;
      CounterSince(es[..n], uplink);
      var c := Run(Counters(ZERO, ZERO), es[..n]).counters;
      var e := es[n];
      if e.Count? {
        if e.uplink == uplink {
          AddWraps(c.bytes, SinceReport(es[..n], uplink), e.vol, uplink, e.countPkts);
        } else {
          AddOther(c.bytes, e.vol, uplink, e.countPkts);
        }
      }
      hide Add, Wrap;
    }
  }

  /** THRESHOLDS WITHOUT PERIODS.  In every reachable session, the packet that sends a VOLTH report
      about such a URR is the one that brings the volume since its last report to an enabled
      limit, and the report carries exactly that volume. */
  lemma ThresholdSentIff(s: Session, cs: seq<Command>, id: nat, ids: seq<nat>, t: Traffic) returns (i: nat)
    requires s.urrs == map[] && Measures(RunAll(s, cs), ids, t, id)
    requires
      var u := RunAll(s, cs).urrs[id];
      var es := u.history + [CountOf(u, t)];
      NoPeriods(es) && SinceReport(es, true) + SinceReport(es, false) < U64
    ensures
      var e := RunAll(s, cs);
      var u := e.urrs[id];
      var es := u.history + [CountOf(u, t)];
      var sent := OnPacket(e, ids, t).sent;
      var vol := if u.mbqe then t.volMbqe else t.vol;
      var reached := vol != 0 && Exceeds(u.threshold, SinceReport(es, true), SinceReport(es, false));
      && (SendsVolth(sent, id) <==> reached)
      && (reached ==>
            && i < |sent| && sent[i].id == id && sent[i].raised == Some(Volth)
            && sent[i].volumes.ul == SinceReport(es, true) && sent[i].volumes.dl == SinceReport(es, false))
  {
    hide RunAll, Measure, OnPacket, Apply, HasTriggerless, SinceReport, Reached, Exceeds, Wrap, Coherent, Run;
    hide SendsVolth;
    var e := RunAll(s, cs);
    var u := e.urrs[id];
    var es := u.history + [CountOf(u, t)];
    RecordedAt(s, cs, id);
    FilledIs(u, t);
    CounterSince(es, true);
    CounterSince(es, false);
    assert es[|u.history|] == CountOf(u, t);
    MeasureVolth(u, t);
    var w := Measure(u, t).urr;
    NoPeriodFills(w, t.now);
    ReachedIff(w.counters.bytes, u.threshold, SinceReport(es, true), SinceReport(es, false));
    SentIffRaised(e, ids, t, id);
    i := 0;
    if Volth in Measure(u, t).raised { i := ThresholdReportIs(e, ids, t, id); }
  }

  lemma NoPeriodFills(u: Urr, now: nat)
    requires u.period == 0
    ensures Filled(u, now) == u.counters.bytes && Taken(u, now) == u.counters.bytes
  {}

  // ---------- with periods ----------

  /** THRESHOLDS WITH PERIODS.  In every reachable session with a periodic history, every packet
      sends a VOLTH report that leaves the volume of the running period at or above an enabled
      limit, again and again until the period ends; and the report carries the volume of the
      previous period if it is the first of its period, and nothing otherwise. */
  lemma PeriodicThresholdSentIff(s: Session, cs: seq<Command>, id: nat, ids: seq<nat>, t: Traffic) returns (i: nat)
    requires s.urrs == map[] && Measures(RunAll(s, cs), ids, t, id)
    requires
      var u := RunAll(s, cs).urrs[id];
      var es := u.history + [CountOf(u, t)];
      && Periodic(u.period, es)
      && CountedIn(u.period, es, t.now / u.period, true) + CountedIn(u.period, es, t.now / u.period, false) < U64
    ensures
      var e := RunAll(s, cs);
      var u := e.urrs[id];
      var es := u.history + [CountOf(u, t)];
      var q := t.now / u.period;
      var sent := OnPacket(e, ids, t).sent;
      var vol := if u.mbqe then t.volMbqe else t.vol;
      var reached := vol != 0
                     && Exceeds(u.threshold, CountedIn(u.period, es, q, true), CountedIn(u.period, es, q, false));
      && (SendsVolth(sent, id) <==> reached)
      && (reached ==>
            && i < |sent| && sent[i].id == id && sent[i].raised == Some(Volth)
            && forall uplink :: Dir(sent[i].volumes, uplink) ==
                 if ReportedIn(u.period, es, q) then 0 else Wrap(CountedIn(u.period, es, q - 1, uplink)))
  {
    hide RunAll, Measure, OnPacket, Apply, HasTriggerless, CountedIn, ReportedIn, Reached, Exceeds, Wrap, Coherent, Run,
         Second, SendsVolth;
    var e := RunAll(s, cs);
    var u := e.urrs[id];
    var es := u.history + [CountOf(u, t)];
    var q: int := t.now / u.period;
    RecordedAt(s, cs, id);
    FilledIs(u, t);
    assert es[|es| - 1] == CountOf(u, t);
    PhaseAfter(u.period, es, true);
    PhaseAfter(u.period, es, false);
    SelectsByParity(u.period, t.now);
    MeasureVolth(u, t);
    var w := Measure(u, t).urr;
    ReachedIff(Filled(w, t.now), u.threshold, CountedIn(u.period, es, q, true), CountedIn(u.period, es, q, false));
    SentIffRaised(e, ids, t, id);
    i := 0;
    if Volth in Measure(u, t).raised { i := ThresholdReportIs(e, ids, t, id); }
  }

  // ---------- a report without its volume ----------

  const VOLTH_ONLY := Triggers(false, true, false, false)
  const FIVE_OCTETS := Limit(5, 0, 0, true, false, false)

  /** Creates a URR with a period of ten seconds and a threshold of five octets. */
  function ThresholdFive(id: nat): Command {
    Put(id, UrrAttrs(Some(true), Some(VOLTH_ONLY), Some(10), None, Some(FIVE_OCTETS), None))
  }

  /** A URR of this kind in its first period, with `held` octets. */
  ghost predicate InFirstPeriod(u: Urr, held: nat) {
    && u.volumeMethod && !u.inam && !u.mbqe && !u.mnop && u.triggers == VOLTH_ONLY
    && u.period == 10 && u.threshold == FIVE_OCTETS
    && u.counters.bytes.ul == held && u.counters.bytes.dl == 0 && u.counters.bytes2 == ZERO
  }

  lemma FirstPeriodMeasure(u: Urr, held: nat, t: Traffic)
    requires InFirstPeriod(u, held) && t.now < 10 && t.uplink && t.vol > 0 && 5 <= held + t.vol < U64
    ensures
      var v := Measure(u, t);
      && !Triggerless(u) && v.raised == [Volth] && !v.exhaust && InFirstPeriod(v.urr, held + t.vol)
      && Taken(v.urr, t.now) == ZERO
  {
    assert !Second(u.period, t.now, false) && Second(u.period, t.now, true);
    hide Second;
  }

  /** A packet whose only URR raises a VOLTH report and nothing else. */
  lemma OneThresholdPacket(s: Session, id: nat, t: Traffic)
    requires id in s.urrs && t.volMbqe != 0 && !Triggerless(s.urrs[id])
    requires Measure(s.urrs[id], t).raised == [Volth] && !Measure(s.urrs[id], t).exhaust
    ensures
      var u := Measure(s.urrs[id], t).urr;
      var p := Command.Packet([id], t);
      && StepSent(s, p) == [Sent(id, Some(Volth), Taken(u, t.now))]
      && id in Step(s, p).urrs && Step(s, p).urrs[id] == Record(u, Report(u.period, t.now))
  {
    hide Measure, Triggerless, Record, Visit, Loop, Emit;
    LoopOfOne(s, id, t);
    VisitOne(s, id, t, Volth);
    EmitOne(Loop(s, [id], t).session, id, Volth, t.now);
  }

  lemma ReportKeepsFirstPeriod(u: Urr, held: nat, now: nat)
    requires InFirstPeriod(u, held) && now < 10
    ensures InFirstPeriod(Record(u, Report(u.period, now)), held)
  {
    assert Second(u.period, now, true);
  }

  lemma FirstPeriodPacket(s: Session, id: nat, held: nat, t: Traffic)
    requires id in s.urrs && InFirstPeriod(s.urrs[id], held)
    requires t.now < 10 && t.uplink && t.volMbqe != 0 && t.vol > 0 && 5 <= held + t.vol < U64
    ensures
      var p := Command.Packet([id], t);
      && StepSent(s, p) == [Sent(id, Some(Volth), ZERO)]
      && id in Step(s, p).urrs && InFirstPeriod(Step(s, p).urrs[id], held + t.vol)
  {
    hide InFirstPeriod, Measure, Record, Step, StepSent, Triggerless, Taken;
    FirstPeriodMeasure(s.urrs[id], held, t);
    OneThresholdPacket(s, id, t);
    ReportKeepsFirstPeriod(Measure(s.urrs[id], t).urr, held + t.vol, t.now);
  }

  /** Five octets reach the threshold of five, and one more octet reaches it again.  Both packets
      send a VOLTH report, and neither report carries any volume. */
  lemma ThresholdReportsEmpty(s: Session)
    requires s.urrs == map[]
    ensures
      var e := RunAll(s, [ThresholdFive(1)]);
      var five, one := Command.Packet([1], Traffic(3, 5, 5, true)), Command.Packet([1], Traffic(4, 1, 1, true));
      && StepSent(e, five) == [Sent(1, Some(Volth), ZERO)]
      && StepSent(Step(e, five), one) == [Sent(1, Some(Volth), ZERO)]
  {
    var e := Step(s, ThresholdFive(1));
    RunOfOne(s, ThresholdFive(1));
    assert InFirstPeriod(e.urrs[1], 0);
    hide InFirstPeriod, Step, StepSent, ThresholdFive;
    FirstPeriodPacket(e, 1, 0, Traffic(3, 5, 5, true));
    FirstPeriodPacket(Step(e, Command.Packet([1], Traffic(3, 5, 5, true))), 1, 5, Traffic(4, 1, 1, true));
  }
}
