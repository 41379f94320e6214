/** What a URR has measured, told by the commands of a run: every packet with its volume and
    direction, every report and what is held, in octets and in packets. */
module Measured {
  import opened Base
  import opened Links
  import opened Meter
  import opened Quota
  import opened Usage
  import opened Reports
  import opened QuotaReports
  import opened PacketCounts

  // ---------- what one packet adds ----------

  /** What a packet adds to the history of a URR that the measuring loop reaches: the volume before
      QoS enforcement if the URR asks for it, else the volume after it. */
  function Added(u: Urr, t: Traffic): seq<Event> {
    if u.inam || !u.volumeMethod || (u.triggers.start && t.uplink) then []
    else [Event.Count(u.period, t.now, if u.mbqe then t.volMbqe else t.vol, t.uplink, u.mnop)]
  }

  lemma MeasureAdds(u: Urr, t: Traffic)
    ensures Measure(u, t).urr.history == u.history + Added(u, t)
  {
    hide Apply, Reached, Add;
  }

  lemma VisitAdds(l: LoopState, id: nat, t: Traffic)
    requires !l.aborted && id in l.session.urrs && !Triggerless(l.session.urrs[id])
    ensures
      var s' := Visit(l, id, t).session;
      id in s'.urrs && s'.urrs[id].history == l.session.urrs[id].history + Added(l.session.urrs[id], t)
  {
    MeasureAdds(l.session.urrs[id], t);
    hide Measure, SaveAndDrop, Triggerless, Added;
  }

  lemma {:induction false} LoopAdds(s: Session, ids: seq<nat>, t: Traffic, id: nat)
    requires id in s.urrs && Distinct(ids)
    ensures
      var l := Loop(s, ids, t);
      && id in l.session.urrs
      && l.session.urrs[id].history == s.urrs[id].history + if Visited(s, ids, id) then Added(s.urrs[id], t) else []
    decreases |ids|
  {
    hide Added, Triggerless, HasTriggerless;
    if ids != [] {
      var n := |ids| - 1;
      var rest, y := ids[..n], ids[n];
      var l := Loop(s, rest, t);
      LoopAdds(s, rest, t, id);
      VisitedSnoc(s, ids, id);
      if y != id {
        hide Visit;
        VisitOther(l, y, t, id);
      } else {
        assert id !in rest;
        LoopUntouched(s, rest, t, id);
        LastAdds(s, l, ids, t, id);
      }
    }
    hide Visited;
  }

  /** The URR is the last one of the PDR. */
  lemma LastAdds(s: Session, l: LoopState, ids: seq<nat>, t: Traffic, id: nat)
    requires ids != [] && ids[|ids| - 1] == id && l == Loop(s, ids[..|ids| - 1], t)
    requires id in s.urrs && id in l.session.urrs && l.session.urrs[id] == s.urrs[id]
    ensures
      var s' := Visit(l, id, t).session;
      && id in s'.urrs
      && s'.urrs[id].history == s.urrs[id].history + if HasTriggerless(s, ids) then [] else Added(s.urrs[id], t)
  {
    AbortsIff(s, ids, t);
    AbortsIff(s, ids[..|ids| - 1], t);
    TriggerlessPrefix(s, ids, |ids| - 1);
    if !HasTriggerless(s, ids) {
      assert !Triggerless(s.urrs[ids[|ids| - 1]]);
      VisitAdds(l, id, t);
    }
    hide Measure, SaveAndDrop, Added;
  }

  // ---------- one command ----------

  /** The packets in a history. */
  function CountsOf(es: seq<Event>): seq<Event>
    decreases |es|
  {
    if es == [] then []
    else
      var rest, e := CountsOf(es[..|es| - 1]), es[|es| - 1];
      if e.Count? then rest + [e] else rest
  }

  lemma {:induction false} CountsConcat(a: seq<Event>, b: seq<Event>)
    ensures CountsOf(a + b) == CountsOf(a) + CountsOf(b)
    decreases |b|
  {
    if b == [] {
      assert a + b == a;
    } else {
      CountsConcat(a, b[..|b| - 1]);
      assert (a + b)[..|a + b| - 1] == a + b[..|b| - 1];
    }
  }

  lemma CountsOfOne(e: Event)
    ensures CountsOf([e]) == if e.Count? then [e] else []
  {
    assert CountsOf([]) == [];
  }

  /** The history goes on with the packets `added` and with events other than packets, or with a
      single reset. */
  ghost predicate GoesOn(before: seq<Event>, after: seq<Event>, added: seq<Event>, reset: bool) {
    && before <= after
    && var es := after[|before|..];
    if reset then es == [Clear] && added == [] else Clear !in es && CountsOf(es) == added
  }

  lemma Appended(before: seq<Event>, e: Event)
    ensures GoesOn(before, before + [e], if e.Count? then [e] else [], e.Clear?)
  {
    assert (before + [e])[|before|..] == [e];
    CountsOfOne(e);
  }

  lemma Unchanged(before: seq<Event>)
    ensures GoesOn(before, before, [], false)
  {
    assert before[|before|..] == [];
  }

  lemma GoesOnTwice(a: seq<Event>, b: seq<Event>, c: seq<Event>, added: seq<Event>)
    requires GoesOn(a, b, added, false) && GoesOn(b, c, [], false)
    ensures GoesOn(a, c, added, false)
  {
    assert c[|a|..] == b[|a|..] + c[|b|..];
    CountsConcat(b[|a|..], c[|b|..]);
  }

  lemma ConvertGoesOn(s: Session, x: nat, now: nat, id: nat)
    requires id in s.urrs
    ensures
      var s' := Convert(s, x, now);
      id in s'.urrs && GoesOn(s.urrs[id].history, s'.urrs[id].history, [], false)
  {
    Unchanged(s.urrs[id].history);
    Appended(s.urrs[id].history, Report(s.urrs[id].period, now));
    hide GoesOn, Apply;
  }

  lemma {:induction false} EmitGoesOn(s: Session, pending: seq<Pending>, now: nat, id: nat)
    requires id in s.urrs
    ensures
      var s' := Emit(s, pending, now).0;
      id in s'.urrs && GoesOn(s.urrs[id].history, s'.urrs[id].history, [], false)
    decreases |pending|
  {
    hide GoesOn, Convert, Snapshot;
    if pending == [] {
      Unchanged(s.urrs[id].history);
    } else {
      var n := |pending| - 1;
      EmitGoesOn(s, pending[..n], now, id);
      var s1 := Emit(s, pending[..n], now).0;
      ConvertGoesOn(s1, pending[n].id, now, id);
      var s' := Emit(s, pending, now).0;
      GoesOnTwice(s.urrs[id].history, s1.urrs[id].history, s'.urrs[id].history, []);
    }
  }

  /** What a command adds to the history of a URR. */
  ghost function AddedBy(s: Session, c: Command, id: nat): seq<Event> {
    if c.Packet? && c.traffic.volMbqe != 0 && id in s.urrs && Visited(s, c.ids, id)
    then Added(s.urrs[id], c.traffic) else []
  }

  /** A command that leaves the URR with the START trigger alone also clears its counters. */
  predicate Resets(c: Command, id: nat) {
    c.Put? && c.id == id && c.attrs.triggers == Some(Triggers(true, false, false, false))
  }

  lemma AddedCounts(h: seq<Event>, u: Urr, t: Traffic)
    ensures GoesOn(h, h + Added(u, t), Added(u, t), false)
  {
    if Added(u, t) == [] {
      assert h + [] == h;
    } else {
      Appended(h, Added(u, t)[0]);
    }
  }

  lemma PacketGoesOn(s: Session, ids: seq<nat>, t: Traffic, id: nat)
    requires id in s.urrs && Distinct(ids)
    ensures
      var s' := OnPacket(s, ids, t).session;
      && id in s'.urrs
      && GoesOn(s.urrs[id].history, s'.urrs[id].history, AddedBy(s, Command.Packet(ids, t), id), false)
  {
    hide Loop, Emit, GoesOn, Added, Visited;
    var h := s.urrs[id].history;
    Unchanged(h);
    assert h + [] == h;
    AddedCounts(h, s.urrs[id], t);
    LoopAdds(s, ids, t, id);
    var l := Loop(s, ids, t);
    EmitGoesOn(l.session, l.pending, t.now, id);
    var s' := OnPacket(s, ids, t).session;
    if t.volMbqe != 0 && !l.aborted {
      var added := AddedBy(s, Command.Packet(ids, t), id);
      GoesOnTwice(h, l.session.urrs[id].history, s'.urrs[id].history, added);
    }
  }

  lemma FillFieldsHistory(u: Urr, a: UrrAttrs)
    ensures FillFields(u, a).history ==
            u.history + if a.triggers == Some(Triggers(true, false, false, false)) then [Clear] else []
  {
    hide Apply;
  }

  lemma PutGoesOn(s: Session, x: nat, a: UrrAttrs, id: nat)
    requires id in s.urrs || x == id
    ensures
      var s' := Step(s, Put(x, a));
      && id in s'.urrs
      && GoesOn(if id in s.urrs then s.urrs[id].history else [], s'.urrs[id].history, [], Resets(Put(x, a), id))
  {
    var u := if x in s.urrs then s.urrs[x] else BLANK;
    var h := if id in s.urrs then s.urrs[id].history else [];
    FillFieldsHistory(u, a);
    Unchanged(h);
    Appended(h, Clear);
    assert h + [] == h;
    PutHistory(s, x, a, id);
    hide GoesOn, Fill, FillFields, BLANK;
  }

  lemma PutHistory(s: Session, x: nat, a: UrrAttrs, id: nat)
    requires id in s.urrs || x == id
    ensures
      var s' := Step(s, Put(x, a));
      && id in s'.urrs
      && s'.urrs[id].history ==
           if x == id then FillFields(if x in s.urrs then s.urrs[x] else BLANK, a).history else s.urrs[id].history
  {
    hide FillFields, Exhaust, Reverse, BLANK;
    var s0 := if x in s.urrs then s else s.(urrs := s.urrs[x := BLANK]);
    if a.quota.Some? {
      var u := FillFields(s0.urrs[x], a);
      ActionsKeepHistory(s0.(urrs := s0.urrs[x := u.(quota := a.quota.value, consumed := ZERO)]), x, id);
    }
  }

  lemma ActionsKeepHistory(s: Session, x: nat, id: nat)
    requires id in s.urrs
    ensures id in Exhaust(s, x).urrs && Exhaust(s, x).urrs[id].history == s.urrs[id].history
    ensures id in Reverse(s, x).urrs && Reverse(s, x).urrs[id].history == s.urrs[id].history
  {
    hide SaveAndDrop, Restore;
  }

  /** One command: exactly the packet that reaches the URR while it measures is added, and exactly
      a command for the START trigger alone resets. */
  lemma StepGoesOn(s: Session, c: Command, id: nat)
    requires id in Step(s, c).urrs && (c.Packet? ==> Distinct(c.ids))
    ensures GoesOn(if id in s.urrs then s.urrs[id].history else [],
                   Step(s, c).urrs[id].history, AddedBy(s, c, id), Resets(c, id))
  {
    hide GoesOn, OnPacket, Convert, Fill, Added, Visited;
    UrrStaysIff(s, c, id);
    match c
    case Packet(ids, t) => PacketGoesOn(s, ids, t, id);
    case Query(x, now) => ConvertGoesOn(s, x, now, id);
    case Put(x, a) => PutGoesOn(s, x, a, id);
    case Delete(x, now) => Unchanged(s.urrs[id].history);
    case Rules(_, _) => Unchanged(s.urrs[id].history);
  }

  // ---------- whole runs ----------

  ghost predicate DistinctIds(cs: seq<Command>) { forall i :: 0 <= i < |cs| && cs[i].Packet? ==> Distinct(cs[i].ids) }

  /** The URR starts anew: it is deleted or reset. */
  predicate Renews(c: Command, id: nat) { (c.Delete? && c.id == id) || Resets(c, id) }

  /** The packets that a URR has measured since it was created or reset. */
  ghost function MeasuredSince(s: Session, cs: seq<Command>, id: nat): seq<Event>
    decreases |cs|
  {
    if cs == [] then []
    else
      var n := |cs| - 1;
      if Renews(cs[n], id) then []
      else MeasuredSince(s, cs[..n], id) + AddedBy(RunAll(s, cs[..n]), cs[n], id)
  }

  /** The reports sent about it since then. */
  function ReportsSince(s: Session, cs: seq<Command>, id: nat): seq<Volumes>
    decreases |cs|
  {
    if cs == [] then []
    else
      var n := |cs| - 1;
      if Renews(cs[n], id) then []
      else ReportsSince(s, cs[..n], id) + VolumesFor(StepSent(RunAll(s, cs[..n]), cs[n]), id)
  }

  /** The history of a URR since its last reset consists of these packets and yields these reports. */
  ghost predicate Tells(h: seq<Event>, packets: seq<Event>, reports: seq<Volumes>) {
    CountsOf(SinceClear(h)) == packets && Run(Counters(ZERO, ZERO), SinceClear(h)).reports == reports
  }

  /** One more command. */
  lemma TellsOn(u: Urr, w: Urr, packets: seq<Event>, reports: seq<Volumes>, added: seq<Event>, sent: seq<Volumes>)
    requires Recorded(u) && Recorded(w) && Tells(u.history, packets, reports)
    requires GoesOn(u.history, w.history, added, false) && w.reported == u.reported + sent
    ensures Tells(w.history, packets + added, reports + sent)
  {
    var z := Counters(ZERO, ZERO);
    var h, es := u.history, w.history[|u.history|..];
    assert w.history == h + es;
    RunAppend(z, h, es);
    SinceClearAppend(h, es);
    ClearForgets(h);
    RunAppend(z, SinceClear(h), es);
    CountsConcat(SinceClear(h), es);
    var more := Run(u.counters, es).reports;
    assert u.reported + more == u.reported + sent;
    assert more == (u.reported + more)[|u.reported|..] == sent;
    hide Run, CountsOf, SinceClear;
  }

  lemma TellsAnew(h: seq<Event>)
    ensures Tells(h + [Clear], [], []) && Tells([], [], [])
  {}

  /** MEASURED AS COMMANDED.  In every run from a session without URRs, the history of a URR since it
      was created or reset consists of the packets that reached it while it measured, each with
      the volume its settings select, and yields the reports sent about it. */
  lemma {:induction false} HistoryIs(s: Session, cs: seq<Command>, id: nat)
    requires s.urrs == map[] && DistinctIds(cs)
    ensures
      var e := RunAll(s, cs);
      var packets, reports := MeasuredSince(s, cs, id), ReportsSince(s, cs, id);
      if id in e.urrs then Tells(e.urrs[id].history, packets, reports) else packets == [] && reports == []
    decreases |cs|
  {
    hide Step, StepSent, AddedBy, Tells, GoesOn, Recorded;
    if cs != [] {
      var n := |cs| - 1;
      var e, c := RunAll(s, cs[..n]), cs[n];
      HistoryIs(s, cs[..n], id);
      UrrStaysIff(e, c, id);
      NothingAdded(e, c, id);
      StepReports(e, c, id);
      if id in Step(e, c).urrs {
        var u := if id in e.urrs then e.urrs[id] else BLANK;
        var w := Step(e, c).urrs[id];
        StepGoesOn(e, c, id);
        RecordedAt(s, cs, id);
        if id in e.urrs { RecordedAt(s, cs[..n], id); } else { BlankTells(); }
        if Resets(c, id) {
          ResetTells(u.history, w.history, AddedBy(e, c, id));
        } else {
          TellsOn(u, w, MeasuredSince(s, cs[..n], id), ReportsSince(s, cs[..n], id), AddedBy(e, c, id),
                  VolumesFor(StepSent(e, c), id));
        }
      }
    }
  }

  lemma BlankTells()
    ensures Recorded(BLANK) && BLANK.history == [] && BLANK.reported == [] && Tells([], [], [])
  {}

  lemma ResetTells(h: seq<Event>, h': seq<Event>, added: seq<Event>)
    requires GoesOn(h, h', added, true)
    ensures Tells(h', [], [])
  {
    assert h' == h + [Clear];
    TellsAnew(h);
  }

  lemma NothingAdded(s: Session, c: Command, id: nat)
    ensures id !in s.urrs ==> AddedBy(s, c, id) == []
    ensures Resets(c, id) ==> c.Put? && c.id == id
  {
    hide Visited;
  }

  lemma {:induction false} CountedOfCounts(es: seq<Event>, uplink: bool)
    ensures Counted(CountsOf(es), uplink) == Counted(es, uplink)
    ensures CountedPackets(CountsOf(es), uplink) == CountedPackets(es, uplink)
    decreases |es|
  {
    if es != [] {
      var n := |es| - 1;
      CountedOfCounts(es[..n], uplink);
      var rest := CountsOf(es[..n]);
      if es[n].Count? { assert CountsOf(es)[..|CountsOf(es)| - 1] == rest; }
    }
  }

  /** Nothing is lost and nothing invented, modulo 2^64, and exactly below it. */
  ghost predicate Accounts(measured: nat, accounted: nat) {
    accounted % U64 == measured % U64 && (measured < U64 ==> accounted == measured)
  }

  lemma AccountsFor(measured: nat, accounted: nat, k: nat)
    requires measured == accounted + k * U64 && (measured < U64 ==> k == 0)
    ensures Accounts(measured, accounted)
  {
    ModMultiple(accounted, k);
  }

  /** EVERY OCTET AND EVERY PACKET.  In every run from a session without URRs, and for every URR
      since it was created or reset: the volumes of the packets that reached it while it
      measured, each before or after QoS enforcement as its settings were at that time, are the
      volumes of the reports sent about it plus those it still holds; and so are the numbers of
      these packets; per direction. */
  lemma ReportsAccount(s: Session, cs: seq<Command>, id: nat, uplink: bool)
    requires s.urrs == map[] && DistinctIds(cs) && id in RunAll(s, cs).urrs
    ensures
      var c := RunAll(s, cs).urrs[id].counters;
      var measured, reports := MeasuredSince(s, cs, id), ReportsSince(s, cs, id);
      && Accounts(Counted(measured, uplink), Sum(reports, uplink) + Dir(c.bytes, uplink) + Dir(c.bytes2, uplink))
      && Accounts(CountedPackets(measured, uplink),
                  SumPackets(reports, uplink) + Packets(c.bytes, uplink) + Packets(c.bytes2, uplink))
  {
    hide RunAll, Run, Counted, CountedPackets, Sum, SumPackets, MeasuredSince, ReportsSince, Accounts, Dir, Packets,
         SinceClear;
    var u := RunAll(s, cs).urrs[id];
    var h := SinceClear(u.history);
    HistoryIs(s, cs, id);
    RecordedAt(s, cs, id);
    ClearForgets(u.history);
    CountedOfCounts(h, uplink);
    var reports := ReportsSince(s, cs, id);
    var k := Conservation(h, uplink);
    AccountsFor(Counted(h, uplink),
                Sum(reports, uplink) + Dir(u.counters.bytes, uplink) + Dir(u.counters.bytes2, uplink), k);
    var p := PacketsConserved(h, uplink);
    AccountsFor(CountedPackets(h, uplink),
                SumPackets(reports, uplink)
                  + Packets(u.counters.bytes, uplink) + Packets(u.counters.bytes2, uplink), p);
  }
}
