/** The usage reports that packets, report requests and URR deletions send, over whole runs
    of a session. */
module Reports {
  import opened Base
  import opened Meter
  import opened Quota
  import opened Usage

  /** What one command sends.  A deleted URR is reported once more. */
  function StepSent(s: Session, c: Command): seq<Sent> {
    match c
    case Packet(ids, t) => OnPacket(s, ids, t).sent
    case Query(id, now) => FinalReport(s, id, now)
    case Delete(id, now) => FinalReport(s, id, now)
    case Put(id, a) => []
    case Rules(actions, nodes) => []
  }

  /** What a run sends. */
  function RunSent(s: Session, cs: seq<Command>): seq<Sent>
    decreases |cs|
  {
    if cs == [] then []
    else RunSent(s, cs[..|cs| - 1]) + StepSent(RunAll(s, cs[..|cs| - 1]), cs[|cs| - 1])
  }

  lemma {:induction false} RunConcat(s: Session, a: seq<Command>, b: seq<Command>)
    ensures RunAll(s, a + b) == RunAll(RunAll(s, a), b)
    ensures RunSent(s, a + b) == RunSent(s, a) + RunSent(RunAll(s, a), b)
    decreases |b|
  {
    hide Step, StepSent;
    if b == [] {
      assert a + b == a;
    } else {
      var n := |b| - 1;
      RunConcat(s, a, b[..n]);
      assert (a + b)[..|a + b| - 1] == a + b[..n];
    }
  }

  /** The volumes of the reports about one URR. */
  function VolumesFor(sent: seq<Sent>, id: nat): seq<Volumes>
    decreases |sent|
  {
    if sent == [] then []
    else
      var rest, last := VolumesFor(sent[..|sent| - 1], id), sent[|sent| - 1];
      if last.id == id then rest + [last.volumes] else rest
  }

  /** The reports about the URR that is stored under `id` now, since it was created. */
  function ReportsFor(s: Session, cs: seq<Command>, id: nat): seq<Volumes>
    decreases |cs|
  {
    if cs == [] then []
    else
      var c := cs[|cs| - 1];
      if c.Delete? && c.id == id then []
      else
        ReportsFor(s, cs[..|cs| - 1], id) + VolumesFor(StepSent(RunAll(s, cs[..|cs| - 1]), c), id)
  }

  // ---------- what is recorded in a URR is what was sent ----------

  lemma {:induction false} LoopReports(s: Session, ids: seq<nat>, t: Traffic, id: nat)
    ensures
      var l := Loop(s, ids, t);
      && (id in l.session.urrs <==> id in s.urrs)
      && (id in s.urrs ==> l.session.urrs[id].reported == s.urrs[id].reported)
      && forall i :: 0 <= i < |l.pending| ==> l.pending[i].id in s.urrs
    decreases |ids|
  {
    if ids != [] {
      var n := |ids| - 1;
      LoopReports(s, ids[..n], t, id);
      LoopReports(s, ids[..n], t, ids[n]);
      VisitReports(Loop(s, ids[..n], t), ids[n], t, id);
    }
  }

  lemma VisitReports(l: LoopState, x: nat, t: Traffic, id: nat)
    ensures
      var l' := Visit(l, x, t);
      && (id in l'.session.urrs <==> id in l.session.urrs)
      && (id in l.session.urrs ==> l'.session.urrs[id].reported == l.session.urrs[id].reported)
      && forall i :: 0 <= i < |l'.pending| ==>
           (i < |l.pending| && l'.pending[i] == l.pending[i]) || (l'.pending[i].id == x && x in l.session.urrs)
  {
    hide SaveAndDrop, Second, Add;
    if x in l.session.urrs { assert l.session.urrs[x].reported + [] == l.session.urrs[x].reported; }
  }

  lemma {:induction false} EmitReports(s: Session, pending: seq<Pending>, now: nat, id: nat)
    requires forall i :: 0 <= i < |pending| ==> pending[i].id in s.urrs
    ensures
      var (s', sent) := Emit(s, pending, now);
      && s'.urrs.Keys == s.urrs.Keys
      && (id in s.urrs ==> s'.urrs[id].reported == s.urrs[id].reported + VolumesFor(sent, id))
      && (id !in s.urrs ==> VolumesFor(sent, id) == [])
    decreases |pending|
  {
    if pending != [] {
      var n := |pending| - 1;
      EmitReports(s, pending[..n], now, id);
      var (s1, sent1) := Emit(s, pending[..n], now);
      var (s', sent) := Emit(s, pending, now);
      assert sent[..|sent| - 1] == sent1;
      assert pending[n].id in s.urrs;
    }
  }

  lemma PacketReports(s: Session, ids: seq<nat>, t: Traffic, id: nat)
    ensures
      var out := OnPacket(s, ids, t);
      && out.session.urrs.Keys == s.urrs.Keys
      && (id !in s.urrs ==> VolumesFor(out.sent, id) == [])
      && (id in s.urrs ==> out.session.urrs[id].reported == s.urrs[id].reported + VolumesFor(out.sent, id))
  {
    hide Loop, Emit;
    var l := Loop(s, ids, t);
    forall x: nat ensures x in l.session.urrs <==> x in s.urrs { LoopReports(s, ids, t, x); }
    LoopReports(s, ids, t, id);
    EmitReports(l.session, l.pending, t.now, id);
  }

  lemma PutReports(s: Session, x: nat, a: UrrAttrs, id: nat)
    ensures
      var s' := Step(s, Put(x, a));
      && (id !in s.urrs && id in s'.urrs ==> s'.urrs[id].reported == [])
      && (id in s.urrs ==> id in s'.urrs && s'.urrs[id].reported == s.urrs[id].reported)
  {
    assert BLANK.reported == [];
    hide FillFields, Exhaust, Reverse, BLANK;
    var s0 := if x in s.urrs then s else s.(urrs := s.urrs[x := BLANK]);
    var u := FillFields(s0.urrs[x], a);
    FillFieldsReports(s0.urrs[x], a);
    if a.quota.Some? {
      var w := u.(quota := a.quota.value, consumed := ZERO);
      var s1 := s0.(urrs := s0.urrs[x := w]);
      ActionsKeepReported(s1, x, id);
    }
  }

  lemma ActionsKeepReported(s: Session, x: nat, id: nat)
    ensures id in Exhaust(s, x).urrs <==> id in s.urrs
    ensures id in Reverse(s, x).urrs <==> id in s.urrs
    ensures id in s.urrs ==> Exhaust(s, x).urrs[id].reported == s.urrs[id].reported
    ensures id in s.urrs ==> Reverse(s, x).urrs[id].reported == s.urrs[id].reported
  {
    hide SaveAndDrop, Restore;
  }

  lemma FillFieldsReports(u: Urr, a: UrrAttrs)
    ensures FillFields(u, a).reported == u.reported
  {
    assert u.reported + [] == u.reported;
  }

  lemma FinalReportFor(s: Session, x: nat, now: nat, id: nat)
    ensures VolumesFor(FinalReport(s, x, now), id) == if x == id && x in s.urrs then [Snapshot(s, x, now)] else []
  {}

  lemma StepReports(s: Session, c: Command, id: nat)
    ensures
      var s' := Step(s, c);
      && (id !in s.urrs ==> VolumesFor(StepSent(s, c), id) == [] && (id in s'.urrs ==> s'.urrs[id].reported == []))
      && (id in s.urrs && !(c.Delete? && c.id == id) ==>
            && id in s'.urrs
            && s'.urrs[id].reported == s.urrs[id].reported + VolumesFor(StepSent(s, c), id))
  {
    hide OnPacket, Fill, FinalReport;
    match c
    case Packet(ids, t) => PacketReports(s, ids, t, id);
    case Query(x, now) => FinalReportFor(s, x, now, id);
    case Delete(x, now) => FinalReportFor(s, x, now, id);
    case Put(x, a) => PutReports(s, x, a, id);
    case Rules(_, _) =>
  }

  /** SENT IS RECORDED.  In every run from a session without URRs, the reports sent about a URR
      since it was created are the ones recorded in it. */
  lemma {:induction false} SentIsRecorded(s: Session, cs: seq<Command>, id: nat)
    requires s.urrs == map[]
    ensures
      var e := RunAll(s, cs);
      ReportsFor(s, cs, id) == if id in e.urrs then e.urrs[id].reported else []
    decreases |cs|
  {
    hide Step, StepSent;
    if cs != [] {
      var n := |cs| - 1;
      SentIsRecorded(s, cs[..n], id);
      StepReports(RunAll(s, cs[..n]), cs[n], id);
      UrrStaysIff(RunAll(s, cs[..n]), cs[n], id);
    }
  }

  /** THE REPORT ON REQUEST, and that of a deleted URR: one, without a trigger, with the only counter of a
      URR without period, and with the counter that is not being filled of one with a period. */
  lemma RequestedReport(s: Session, c: Command)
    requires c.Query? || c.Delete?
    ensures
      StepSent(s, c) ==
        if c.id !in s.urrs then []
        else
          var u := s.urrs[c.id];
          [Sent(c.id, None,
                if u.period == 0 || c.now % U32 / u.period % 2 == 1 then u.counters.bytes else u.counters.bytes2)]
  {}

  /** URRs come with a command about them and go with their deletion, and in no other way. */
  lemma UrrStaysIff(s: Session, c: Command, id: nat)
    ensures id in Step(s, c).urrs <==> (id in s.urrs || (c.Put? && c.id == id)) && !(c.Delete? && c.id == id)
  {
    if c.Packet? { PacketReports(s, c.ids, c.traffic, id); }
    hide OnPacket, SaveAndDrop, Restore, FillFields;
  }

  // ---------- room for the reports ----------

  /** The reports that the URRs of a packet raise. */
  function RaisedBy(s: Session, ids: seq<nat>, t: Traffic): nat
    decreases |ids|
  {
    if ids == [] then 0
    else
      var n := |ids| - 1;
      RaisedBy(s, ids[..n], t) + (if ids[n] in s.urrs then |Measure(s.urrs[ids[n]], t).raised| else 0)
  }

  lemma {:induction false} PendingSize(s: Session, ids: seq<nat>, t: Traffic)
    requires forall i, j :: 0 <= i < j < |ids| ==> ids[i] != ids[j]
    requires !HasTriggerless(s, ids)
    ensures |Loop(s, ids, t).pending| == RaisedBy(s, ids, t)
    decreases |ids|
  {
    hide Measure, Exhaust, Triggerless;
    if ids != [] {
      var n := |ids| - 1;
      TriggerlessPrefix(s, ids, n);
      AbortsIff(s, ids[..n], t);
      AbortsIff(s, ids, t);
      LoopUntouched(s, ids[..n], t, ids[n]);
      PendingSize(s, ids[..n], t);
    }
  }

  /** How many URRs the loop visits: all before the first one that measures without trigger. */
  function VisitedCount(s: Session, ids: seq<nat>): (m: nat)
    ensures m <= |ids| && !HasTriggerless(s, ids[..m])
    ensures m < |ids| ==> ids[m] in s.urrs && Triggerless(s.urrs[ids[m]])
  {
    if ids == [] || (ids[0] in s.urrs && Triggerless(s.urrs[ids[0]])) then 0
    else
      var m := VisitedCount(s, ids[1..]);
      NoTriggerlessCons(s, ids, m);
      1 + m
  }

  lemma NoTriggerlessCons(s: Session, ids: seq<nat>, m: nat)
    requires ids != [] && m < |ids| && !HasTriggerless(s, ids[1..][..m])
    requires !(ids[0] in s.urrs && Triggerless(s.urrs[ids[0]]))
    ensures !HasTriggerless(s, ids[..1 + m])
  {
    var front := ids[..1 + m];
    if i :| 0 <= i < |front| && front[i] in s.urrs && Triggerless(s.urrs[front[i]]) {
      assert i > 0 && ids[1..][..m][i - 1] == ids[i];
    }
  }

  /** Where the loop gives up, what is pending is what the URRs before have raised. */
  lemma PendingAtEnd(s: Session, ids: seq<nat>, t: Traffic)
    requires forall i, j :: 0 <= i < j < |ids| ==> ids[i] != ids[j]
    ensures |Loop(s, ids, t).pending| == RaisedBy(s, ids[..VisitedCount(s, ids)], t)
  {
    hide Loop, RaisedBy, Visit, Triggerless, HasTriggerless, VisitedCount;
    var m := VisitedCount(s, ids);
    PendingSize(s, ids[..m], t);
    if m == |ids| {
      assert ids[..m] == ids;
    } else {
      LoopTurn(s, ids, t, m);
      LoopTriggerless(s, ids[..m], t, ids[m]);
      AbortsIff(s, ids[..m], t);
      VisitGivesUp(Loop(s, ids[..m], t), ids[m], t);
      AbortStays(s, ids, t, m + 1);
    }
  }

  lemma VisitGivesUp(l: LoopState, id: nat, t: Traffic)
    requires !l.aborted && id in l.session.urrs && Triggerless(l.session.urrs[id])
    ensures Visit(l, id, t) == l.(aborted := true)
  {
    hide Triggerless;
  }

  /** The driver has one slot per URR of the PDR, and a URR can raise a threshold and a quota
      report at once: the slots suffice throughout the loop exactly when the URRs that are
      visited together raise no more reports than the PDR has URRs. */
  lemma ReportsFitIff(s: Session, ids: seq<nat>, t: Traffic)
    requires forall i, j :: 0 <= i < j < |ids| ==> ids[i] != ids[j]
    ensures (forall n :: 0 <= n <= |ids| ==> |Loop(s, ids[..n], t).pending| <= |ids|) <==>
            RaisedBy(s, ids[..VisitedCount(s, ids)], t) <= |ids|
  {
    hide Loop, RaisedBy, HasTriggerless, VisitedCount;
    assert ids[..|ids|] == ids;
    PendingAtEnd(s, ids, t);
    forall n | 0 <= n <= |ids| ensures |Loop(s, ids[..n], t).pending| <= |Loop(s, ids, t).pending| {
      PendingGrows(s, ids, t, n);
    }
  }

  /** Some exhaustion during the loop writes behind the arrays of saved actions. */
  function SavesOverrun(s: Session, ids: seq<nat>, t: Traffic): bool
    decreases |ids|
  {
    ids != [] &&
    var l, id := Loop(s, ids[..|ids| - 1], t), ids[|ids| - 1];
    || SavesOverrun(s, ids[..|ids| - 1], t)
    || (!l.aborted && id in l.session.urrs && !Triggerless(l.session.urrs[id])
        && var v := Measure(l.session.urrs[id], t);
        v.exhaust && !v.urr.exhausted && SaveOverruns(NodesOf(l.session, id), l.session.actions))
  }

  /** A packet overruns if and only if more reports are pending at the end than there are slots, or
      an exhaustion overruns the arrays of saved actions. */
  lemma {:induction false} LoopOverrunsIff(s: Session, ids: seq<nat>, t: Traffic, slots: nat)
    ensures LoopOverruns(s, ids, t, slots) <==> |Loop(s, ids, t).pending| > slots || SavesOverrun(s, ids, t)
    decreases |ids|
  {
    hide Measure, Exhaust, Triggerless, SaveOverruns;
    if ids != [] { LoopOverrunsIff(s, ids[..|ids| - 1], t, slots); }
  }

  /** Witness: a URR with a threshold and a quota of five octets, and a packet of five.  The
      PDR has one URR and the loop raises two reports. */
  lemma TwoReportsForOneSlot(s: Session)
    requires s.urrs == map[]
    ensures
      var five := Limit(5, 0, 0, true, false, false);
      var a := UrrAttrs(Some(true), Some(Triggers(false, true, true, false)), None, None, Some(five), Some(five));
      var e := RunAll(s, [Put(1, a)]);
      |Loop(e, [1], Traffic(0, 5, 5, true)).pending| == 2
  {
    var five := Limit(5, 0, 0, true, false, false);
    var a := UrrAttrs(Some(true), Some(Triggers(false, true, true, false)), None, None, Some(five), Some(five));
    var e := Step(s, Put(1, a));
    var t := Traffic(0, 5, 5, true);
    RunOfOne(s, Put(1, a));
    var u := BLANK.(volumeMethod := true, triggers := Triggers(false, true, true, false),
                    threshold := five, quota := five);
    assert FillFields(BLANK, a) == u.(quota := NO_LIMIT);
    assert e.urrs[1] == u;
    RaisesBoth(u);
    hide Step, Measure, FillFields, Loop;
    PendingAtEnd(e, [1], t);
    RaisedByOne(e, 1, t);
  }

  lemma RaisesBoth(u: Urr)
    requires
      var five := Limit(5, 0, 0, true, false, false);
      u == BLANK.(volumeMethod := true, triggers := Triggers(false, true, true, false),
                  threshold := five, quota := five)
    ensures !Triggerless(u) && |Measure(u, Traffic(0, 5, 5, true)).raised| == 2
  {}

  lemma RaisedByOne(s: Session, id: nat, t: Traffic)
    requires id in s.urrs && !Triggerless(s.urrs[id])
    ensures RaisedBy(s, [id][..VisitedCount(s, [id])], t) == |Measure(s.urrs[id], t).raised|
  {
    hide Measure, Triggerless;
    assert VisitedCount(s, [id]) == 1;
    assert [id][..1] == [id] && [id][..0] == [];
  }

  lemma {:induction false} PendingGrows(s: Session, ids: seq<nat>, t: Traffic, n: nat)
    requires n <= |ids|
    ensures |Loop(s, ids[..n], t).pending| <= |Loop(s, ids, t).pending|
    decreases |ids|
  {
    hide Measure, Exhaust, Triggerless;
    if n < |ids| {
      assert ids[..|ids| - 1][..n] == ids[..n];
      PendingGrows(s, ids[..|ids| - 1], t, n);
    } else {
      assert ids[..n] == ids;
    }
  }

  // ---------- the deletion of a URR ----------

  /** The volume of a URR that its deletion loses: what the counter of the running period
      holds. */
  function Lost(u: Urr, now: nat, uplink: bool): nat {
    Dir(Select(u.counters, !Second(u.period, now, true)), uplink)
  }

  /** DELETION.  In every run in which a URR is created, used without START refill and deleted:
      all reports about it, the final one included, and the volume lost add up to the volume
      measured (modulo 2^64, and exactly below 2^64). */
  lemma DeletionLoses(s: Session, cs: seq<Command>, id: nat, now: nat, uplink: bool)
    requires s.urrs == map[] && id in RunAll(s, cs).urrs && Clear !in RunAll(s, cs).urrs[id].history
    ensures
      var u := RunAll(s, cs).urrs[id];
      var final := StepSent(RunAll(s, cs), Delete(id, now));
      var accounted := Sum(ReportsFor(s, cs, id) + VolumesFor(final, id), uplink) + Lost(u, now, uplink);
      && |VolumesFor(final, id)| == 1
      && accounted % U64 == Counted(u.history, uplink) % U64
      && (Counted(u.history, uplink) < U64 ==> accounted == Counted(u.history, uplink))
  {
    hide RunAll, Sum, Counted, ReportsFor, Snapshot, Balanced, Lost, FinalReport;
    var e := RunAll(s, cs);
    assert s == Session(map[], s.actions, s.nodes);
    SessionConserves(cs, s.actions, s.nodes, id, uplink);
    SentIsRecorded(s, cs, id);
    FinalReportFor(e, id, now, id);
    FinalBalance(e, id, now, uplink);
  }

  lemma FinalBalance(s: Session, id: nat, now: nat, uplink: bool)
    requires id in s.urrs && Balanced(s.urrs[id], uplink)
    ensures
      var u := s.urrs[id];
      var accounted := Sum(u.reported + [Snapshot(s, id, now)], uplink) + Lost(u, now, uplink);
      && accounted % U64 == Counted(u.history, uplink) % U64
      && (Counted(u.history, uplink) < U64 ==> accounted == Counted(u.history, uplink))
  {
    hide Sum, Counted, Second, Coherent;
    SumConcat(s.urrs[id].reported, [Snapshot(s, id, now)], uplink);
    SumOne(Snapshot(s, id, now), uplink);
  }

  /** In a periodic history what is lost is exactly the volume measured in the period that
      the deletion interrupts. */
  lemma LostIsRunningPeriod(s: Session, cs: seq<Command>, id: nat, now: nat, uplink: bool)
    requires s.urrs == map[] && id in RunAll(s, cs).urrs
    requires
      var u := RunAll(s, cs).urrs[id];
      Periodic(u.period, u.history + [Report(u.period, now)])
    ensures
      var u := RunAll(s, cs).urrs[id];
      var running := CountedIn(u.period, u.history, now / u.period, uplink);
      Lost(u, now, uplink) == Wrap(running) && (running < U64 ==> (Lost(u, now, uplink) == 0 <==> running == 0))
  {
    var u := RunAll(s, cs).urrs[id];
    assert s == Session(map[], s.actions, s.nodes);
    RunRecorded(cs, s.actions, s.nodes);
    assert Recorded(u);
    var es := u.history + [Report(u.period, now)];
    assert es[..|es| - 1] == u.history;
    PhaseBefore(u.period, es, uplink);
    assert es[|u.history|] == Report(u.period, now);
    SelectsByParity(u.period, now);
    hide RunAll, Periodic, CountedIn, ReportedIn, Wrap;
  }

  /** Without periods nothing is lost. */
  lemma NothingLostWithoutPeriod(s: Session, cs: seq<Command>, id: nat, now: nat, uplink: bool)
    requires s.urrs == map[] && id in RunAll(s, cs).urrs
    requires
      var u := RunAll(s, cs).urrs[id];
      u.period == 0 && forall i :: 0 <= i < |u.history| ==> u.history[i].Clear? || u.history[i].period == 0
    ensures Lost(RunAll(s, cs).urrs[id], now, uplink) == 0
  {
    var u := RunAll(s, cs).urrs[id];
    assert s == Session(map[], s.actions, s.nodes);
    RunRecorded(cs, s.actions, s.nodes);
    assert Recorded(u);
    SecondStaysZero(u.history);
  }

  lemma {:induction false} SecondStaysZero(es: seq<Event>)
    requires forall i :: 0 <= i < |es| ==> es[i].Clear? || es[i].period == 0
    ensures Run(Counters(ZERO, ZERO), es).counters.bytes2 == ZERO
    decreases |es|
  {
    if es != [] { SecondStaysZero(es[..|es| - 1]); }
  }

  /** Witness: a URR with a period of ten seconds measures five octets in its first period and
      is deleted in it.  The final report carries nothing. */
  lemma DeletedInFirstPeriod(s: Session)
    requires s.urrs == map[]
    ensures
      var a := UrrAttrs(Some(true), Some(Triggers(false, false, false, true)), Some(10), None, None, None);
      var cs := [Put(1, a), Command.Packet([1], Traffic(3, 5, 5, true))];
      var e := RunAll(s, cs);
      && 1 in e.urrs && Counted(e.urrs[1].history, true) == 5
      && StepSent(e, Delete(1, 4)) == [Sent(1, None, ZERO)]
      && Lost(e.urrs[1], 4, true) == 5
  {
    var a := UrrAttrs(Some(true), Some(Triggers(false, false, false, true)), Some(10), None, None, None);
    var t := Traffic(3, 5, 5, true);
    var s1 := Step(s, Put(1, a));
    var u := BLANK.(volumeMethod := true, triggers := Triggers(false, false, false, true), period := 10);
    hide Step, StepSent, Lost, Measure, Counted, RunAll, Triggerless;
    FirstPut(s, a, u);
    FirstMeasure(u);
    OneUrrPacket(s1, t);
    RunConcat(s, [Put(1, a)], [Command.Packet([1], t)]);
    assert [Put(1, a)] + [Command.Packet([1], t)] == [Put(1, a), Command.Packet([1], t)];
    RunOfOne(s, Put(1, a));
    RunOfOne(s1, Command.Packet([1], t));
    FirstDelete(RunAll(s, [Put(1, a), Command.Packet([1], t)]));
  }

  lemma FirstDelete(e: Session)
    requires 1 in e.urrs && e.urrs[1].period == 10
    requires e.urrs[1].counters.bytes.ul == 5 && e.urrs[1].counters.bytes2 == ZERO
    ensures StepSent(e, Delete(1, 4)) == [Sent(1, None, ZERO)] && Lost(e.urrs[1], 4, true) == 5
  {
    assert Second(10, 4, true);
  }

  lemma FirstPut(s: Session, a: UrrAttrs, u: Urr)
    requires s.urrs == map[]
    requires a == UrrAttrs(Some(true), Some(Triggers(false, false, false, true)), Some(10), None, None, None)
    requires u == BLANK.(volumeMethod := true, triggers := Triggers(false, false, false, true), period := 10)
    ensures Step(s, Put(1, a)).urrs == map[1 := u]
  {
    assert FillFields(BLANK, a) == u;
  }

  lemma FirstMeasure(u: Urr)
    requires u == BLANK.(volumeMethod := true, triggers := Triggers(false, false, false, true), period := 10)
    ensures
      var v := Measure(u, Traffic(3, 5, 5, true));
      && !Triggerless(u) && v.raised == [] && !v.exhaust && v.urr.period == 10
      && Counted(v.urr.history, true) == 5 && v.urr.counters.bytes.ul == 5 && v.urr.counters.bytes2 == ZERO
  {
    CountedOne(Count(10, 3, 5, true, false));
  }

  lemma CountedOne(e: Event)
    requires e.Count?
    ensures Counted([e], e.uplink) == e.vol
  {
    assert [e][..0] == [];
  }

  lemma RunOfOne(s: Session, c: Command)
    ensures RunAll(s, [c]) == Step(s, c)
  {
    hide Step;
    assert [c][..0] == [];
    assert RunAll(s, []) == s;
  }

  /** A packet for a PDR with one URR that raises nothing. */
  lemma OneUrrPacket(s: Session, t: Traffic)
    requires 1 in s.urrs && !Triggerless(s.urrs[1]) && t.volMbqe != 0
    requires Measure(s.urrs[1], t).raised == [] && !Measure(s.urrs[1], t).exhaust
    ensures
      var s' := Step(s, Command.Packet([1], t));
      1 in s'.urrs && s'.urrs[1] == Measure(s.urrs[1], t).urr
  {
    hide Measure, Triggerless;
    assert [1][..0] == [];
    assert Loop(s, [], t) == LoopState(s, [], false);
    var l := Loop(s, [1], t);
    assert l == Visit(LoopState(s, [], false), 1, t);
    assert Tag(1, []) == [] && l.pending == [];
    assert Emit(l.session, [], t.now).0 == l.session;
  }
}
