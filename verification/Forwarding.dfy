/** The way of a T-PDU through a PDR (`gtp5g_rx`, `gtp5g_handle_skb_ipv4` and the functions they call):
    look at the FAR, police, measure, pass on.  Joins the policer of a QER, the usage
    measurement of the URRs and the FAR actions that exhausted quotas change. */
module Forwarding {
  import opened Base
  import opened Rules
  import opened Links
  import opened Meter
  import opened Quota
  import opened Usage
  import opened Reports
  import opened QuotaReports
  import opened Measured
  import RuleEngine
  import QuotaLinks
  import UrrSettings
  import PacketEffects
  import Policer

  /** A T-PDU for a PDR: the clock in nanoseconds and in seconds, the length of its payload,
      whether it comes out of a tunnel, and whether it then goes into another one. */
  datatype Arrival = Arrival(nanos: nat, secs: nat, len: nat, uplink: bool, relayed: bool)

  ghost predicate ValidArrival(a: Arrival) { a.nanos < U64 && a.len < 0x1_0000 }

  ghost predicate AllValid(ars: seq<Arrival>) { forall i :: 0 <= i < |ars| ==> ValidArrival(ars[i]) }

  function ToPolicer(a: Arrival): Policer.Packet { Policer.Packet(a.nanos, a.len) }

  /** A PDR: its FAR, its URRs, and whether its QER gate is open. */
  datatype Route = Route(far: Option<Ref>, ids: seq<nat>, gateOpen: bool)

  /** The policer, if one applies, and the session. */
  datatype Path = Path(policer: Option<Policer.State>, session: Session)

  ghost predicate ValidPath(p: Path) { p.policer.Some? ==> Policer.Valid(p.policer.value) }

  datatype Fate = PassedOn | Discarded | Buffered

  datatype Passage = Passage(path: Path, sent: seq<Sent>, fate: Fate)

  // ---------- one packet ----------

  /** The colour of a packet; without a policer everything is green. */
  function ColorOf(p: Path, a: Arrival): Policer.Color
    requires ValidPath(p) && ValidArrival(a)
  {
    if p.policer.None? then Policer.Green else Policer.Police(p.policer.value, ToPolicer(a)).1
  }

  /** What the URRs are told: a red packet has no volume left after QoS enforcement. */
  function TrafficOf(p: Path, a: Arrival): Traffic
    requires ValidPath(p) && ValidArrival(a)
  {
    Traffic(a.secs, if ColorOf(p, a) == Policer.Red then 0 else a.len, a.len, a.uplink)
  }

  /** A packet that the FAR forwards.  Only the relaying path looks at what the URRs say about it. */
  function Forward(p: Path, ids: seq<nat>, a: Arrival): (r: Passage)
    requires ValidPath(p) && ValidArrival(a)
    ensures ValidPath(r.path) && r.path.policer.Some? == p.policer.Some?
  {
    var out := OnPacket(p.session, ids, TrafficOf(p, a));
    var policer := if p.policer.None? then None else Some(Policer.Police(p.policer.value, ToPolicer(a)).0);
    Passage(Path(policer, out.session), out.sent,
            if ColorOf(p, a) == Policer.Red || (a.uplink && a.relayed && out.result == Withhold) then Discarded
            else PassedOn)
  }

  /** The FAR action without its flags NOCP and DUPL; 0 stands for a missing FAR. */
  function ActionOf(s: Session, far: Option<Ref>): nat {
    if far.Some? && far.value in s.actions then s.actions[far.value] % 8 else 0
  }

  const FORW: nat := 2
  const BUFF: nat := 4

  predicate Forwards(s: Session, pdr: Route) { ActionOf(s, pdr.far) == FORW && pdr.gateOpen }

  function Handle(p: Path, pdr: Route, a: Arrival): (r: Passage)
    requires ValidPath(p) && ValidArrival(a)
    ensures ValidPath(r.path) && r.path.policer.Some? == p.policer.Some?
  {
    if Forwards(p.session, pdr) then Forward(p, pdr.ids, a)
    else Passage(p, [], if ActionOf(p.session, pdr.far) == BUFF then Buffered else Discarded)
  }

  /** The code of both directions, on the objects it works with. */
  method HandlePacket(tp: Policer.TrafficPolicer?, engine: UsageEngine, pdr: Route, a: Arrival, qos: bool)
    returns (sent: seq<Sent>, fate: Fate)
    requires ValidArrival(a) && (tp != null ==> Policer.Valid(tp.View()))
    modifies engine`urrs, engine`actions, if tp == null then {} else {tp}
    ensures
      var before := if qos && tp != null then Some(old(tp.View())) else None;
      var r := Handle(Path(before, old(engine.View())), pdr, a);
      && engine.View() == r.path.session && sent == r.sent && fate == r.fate
      && (tp != null ==> tp.View() == if qos then r.path.policer.value else old(tp.View()))
  {
    hide OnPacket, Policer.Police;
    if pdr.far.None? || pdr.far.value !in engine.actions { return [], Discarded; }
    var action := engine.actions[pdr.far.value] % 8;
    if action == BUFF { return [], Buffered; }
    if action != FORW { return [], Discarded; }
    if !pdr.gateOpen { return [], Discarded; }
    var color := Policer.Green;
    if qos && tp != null { color := tp.PolicePacket(a.nanos, a.len); }
    var volume := if color == Policer.Red then 0 else a.len;
    sent := [];
    var result := Result.Forward;
    if |pdr.ids| != 0 {
      var overrun;
      sent, result, overrun := engine.UpdateAndReport(pdr.ids, Traffic(a.secs, volume, a.len, a.uplink));
    } else {
      NoUrrs(engine.View(), Traffic(a.secs, volume, a.len, a.uplink));
    }
    if a.uplink && a.relayed && result == Withhold { return sent, Discarded; }
    if color == Policer.Red { return sent, Discarded; }
    return sent, PassedOn;
  }

  lemma NoUrrs(s: Session, t: Traffic)
    ensures OnPacket(s, [], t) == PacketOut(s, [], Result.Forward)
  {}

  /** THE FATE OF A PACKET.  It is buffered if and only if the FAR says so, and passed on if and only if
      the FAR forwards, the gate is open, it is not red, and it does not go from one tunnel into
      another while it starts one of its URRs, has volume, and none of them is without trigger.
      So the first packet of a URR, which is to be withheld, is passed on if it leaves the
      tunnel. */
  lemma PassedOnIff(p: Path, pdr: Route, a: Arrival)
    requires ValidPath(p) && ValidArrival(a) && Distinct(pdr.ids)
    ensures
      var s := p.session;
      Handle(p, pdr, a).fate == PassedOn <==>
        && pdr.far.Some? && pdr.far.value in s.actions && s.actions[pdr.far.value] % 8 == 2 && pdr.gateOpen
        && ColorOf(p, a) != Policer.Red
        && !(&& a.uplink && a.relayed && a.len != 0 && !HasTriggerless(s, pdr.ids)
             && exists x :: x in pdr.ids && x in s.urrs && PacketEffects.Starts(s.urrs[x], TrafficOf(p, a)))
    ensures
      var s := p.session;
      Handle(p, pdr, a).fate == Buffered <==>
        pdr.far.Some? && pdr.far.value in s.actions && s.actions[pdr.far.value] % 8 == 4
  {
    PacketEffects.ResultIs(p.session, pdr.ids, TrafficOf(p, a));
    hide OnPacket, Policer.Police, HasTriggerless, PacketEffects.Starts;
  }

  /** WHAT IS MEASURED.  Every packet that a URR measures before QoS enforcement is measured with its
      whole length, whatever its colour; and every one that it measures after it with its
      length, or with nothing if it is red. */
  lemma MeasuredLength(p: Path, ids: seq<nat>, a: Arrival, id: nat, e: Event)
    requires ValidPath(p) && ValidArrival(a) && id in p.session.urrs
    requires e in AddedBy(p.session, Command.Packet(ids, TrafficOf(p, a)), id)
    ensures e.Count? && e.uplink == a.uplink
    ensures e.vol == if p.session.urrs[id].mbqe || ColorOf(p, a) != Policer.Red then a.len else 0
  {
    hide Visited, Policer.Police;
  }

  lemma PassedIsVolume(p: Path, ids: seq<nat>, a: Arrival)
    requires ValidPath(p) && ValidArrival(a)
    ensures (if Forward(p, ids, a).fate == PassedOn then a.len else 0) <= TrafficOf(p, a).vol
  {
    hide OnPacket, Policer.Police;
  }

  // ---------- runs ----------

  /** The path after a run, the packets that were policed and measured, and the octets passed on. */
  datatype Trace = Trace(path: Path, policed: seq<Arrival>, commands: seq<Command>, passed: nat)

  function Run(p: Path, pdr: Route, ars: seq<Arrival>): (r: Trace)
    requires ValidPath(p) && AllValid(ars)
    ensures ValidPath(r.path) && r.path.policer.Some? == p.policer.Some?
    ensures AllValid(r.policed) && |r.commands| == |r.policed| <= |ars|
    decreases |ars|
  {
    if ars == [] then Trace(p, [], [], 0)
    else
      var n := |ars| - 1;
      var r, a := Run(p, pdr, ars[..n]), ars[n];
      var o := Handle(r.path, pdr, a);
      if !Forwards(r.path.session, pdr) then r
      else Trace(o.path, r.policed + [a], r.commands + [Command.Packet(pdr.ids, TrafficOf(r.path, a))],
                 r.passed + if o.fate == PassedOn then a.len else 0)
  }

  function Packets(ars: seq<Arrival>): (r: seq<Policer.Packet>)
    ensures |r| == |ars| && forall i :: 0 <= i < |ars| ==> r[i] == ToPolicer(ars[i])
  {
    seq(|ars|, i requires 0 <= i < |ars| => ToPolicer(ars[i]))
  }

  /** One more packet that the FAR forwards. */
  lemma RunStep(p: Path, pdr: Route, ars: seq<Arrival>)
    requires ValidPath(p) && AllValid(ars) && ars != []
    ensures
      var n := |ars| - 1;
      var r0, r, a := Run(p, pdr, ars[..n]), Run(p, pdr, ars), ars[n];
      if Forwards(r0.path.session, pdr) then
        && r.path == Forward(r0.path, pdr.ids, a).path && r.policed == r0.policed + [a]
        && r.commands == r0.commands + [Command.Packet(pdr.ids, TrafficOf(r0.path, a))]
      else r == r0
  {
    hide Forward, TrafficOf;
  }

  lemma PacketsGrow(ars: seq<Arrival>, a: Arrival)
    requires AllValid(ars) && ValidArrival(a)
    ensures Packets(ars + [a]) == Packets(ars) + [ToPolicer(a)]
    ensures Policer.ValidPacket(ToPolicer(a))
    ensures forall i :: 0 <= i < |ars| ==> Policer.ValidPacket(Packets(ars)[i])
  {}

  lemma PolicerGrows(s: Policer.State, qs: seq<Policer.Packet>, x: Policer.Packet)
    requires Policer.Valid(s) && Policer.ValidPacket(x)
    requires forall i :: 0 <= i < |qs| ==> Policer.ValidPacket(qs[i])
    ensures
      var r := Policer.Run(s, qs);
      var (s', c) := Policer.Police(r.final, x);
      && Policer.Run(s, qs + [x]).final == s'
      && Policer.Run(s, qs + [x]).bytes == r.bytes + Policer.Accepted(c, Policer.ToU64(x.len))
  {
    hide Policer.Police, Policer.Valid, Policer.Accepted, Policer.ToU64, Policer.ValidPacket;
    assert (qs + [x])[..|qs|] == qs;
  }

  lemma SessionGrows(s: Session, cs: seq<Command>, c: Command)
    ensures RunAll(s, cs + [c]) == Step(RunAll(s, cs), c)
  {
    hide Step;
    assert (cs + [c])[..|cs|] == cs;
  }

  /** The policer and the session go through the runs of their own modules. */
  lemma {:induction false} RunSplits(p: Path, pdr: Route, ars: seq<Arrival>)
    requires ValidPath(p) && AllValid(ars)
    ensures
      var r := Run(p, pdr, ars);
      && r.path.session == RunAll(p.session, r.commands)
      && (p.policer.Some? ==> r.path.policer == Some(Policer.Run(p.policer.value, Packets(r.policed)).final))
    decreases |ars|
  {
    if ars == [] {
      assert Packets([]) == [];
    } else {
      hide Run, Policer.Run, Policer.Police, Policer.Valid, OnPacket, TrafficOf, RunAll;
      var n := |ars| - 1;
      RunSplits(p, pdr, ars[..n]);
      RunStep(p, pdr, ars);
      var r0, a := Run(p, pdr, ars[..n]), ars[n];
      if Forwards(r0.path.session, pdr) {
        SessionGrows(p.session, r0.commands, Command.Packet(pdr.ids, TrafficOf(r0.path, a)));
        PacketsGrow(r0.policed, a);
        if p.policer.Some? { PolicerGrows(p.policer.value, Packets(r0.policed), ToPolicer(a)); }
      }
    }
  }

  lemma AcceptedIs(p: Path, a: Arrival)
    requires ValidPath(p) && ValidArrival(a) && p.policer.Some?
    ensures TrafficOf(p, a).vol == Policer.Accepted(ColorOf(p, a), Policer.ToU64(a.len))
  {
    hide Policer.Police;
  }

  /** A packet adds at most its volume after QoS enforcement to a URR that measures after it. */
  lemma AddsAtMost(s: Session, ids: seq<nat>, t: Traffic, id: nat)
    requires id in s.urrs && !s.urrs[id].mbqe
    ensures
      var added := AddedBy(s, Command.Packet(ids, t), id);
      Counted(added, true) + Counted(added, false) <= t.vol
  {
    var added := AddedBy(s, Command.Packet(ids, t), id);
    if added != [] { assert added[..0] == []; }
    hide Visited;
  }

  lemma {:induction false} CountedConcat(a: seq<Event>, b: seq<Event>, uplink: bool)
    ensures Counted(a + b, uplink) == Counted(a, uplink) + Counted(b, uplink)
    decreases |b|
  {
    if b == [] {
      assert a + b == a;
    } else {
      CountedConcat(a, b[..|b| - 1], uplink);
      assert (a + b)[..|a + b| - 1] == a + b[..|b| - 1];
    }
  }

  /** One more policed packet. */
  lemma AcceptedGrows(p: Path, pdr: Route, ars: seq<Arrival>)
    requires ValidPath(p) && AllValid(ars) && p.policer.Some? && ars != []
    requires Forwards(Run(p, pdr, ars[..|ars| - 1]).path.session, pdr)
    ensures
      var r0, r := Run(p, pdr, ars[..|ars| - 1]), Run(p, pdr, ars);
      Policer.Run(p.policer.value, Packets(r.policed)).bytes ==
        Policer.Run(p.policer.value, Packets(r0.policed)).bytes + TrafficOf(r0.path, ars[|ars| - 1]).vol
  {
    hide Run, Policer.Run, Policer.Police, Policer.Valid, TrafficOf, Policer.Accepted, Policer.ToU64, OnPacket;
    var n := |ars| - 1;
    var r0, s := Run(p, pdr, ars[..n]), p.policer.value;
    RunSplits(p, pdr, ars[..n]);
    RunStep(p, pdr, ars);
    PacketsGrow(r0.policed, ars[n]);
    PolicerGrows(s, Packets(r0.policed), ToPolicer(ars[n]));
    AcceptedIs(r0.path, ars[n]);
  }

  /** What is passed on is among what the policer lets through. */
  lemma {:induction false} PassedAtMost(p: Path, pdr: Route, ars: seq<Arrival>)
    requires ValidPath(p) && AllValid(ars) && p.policer.Some?
    ensures
      var r := Run(p, pdr, ars);
      r.passed <= Policer.Run(p.policer.value, Packets(r.policed)).bytes
    decreases |ars|
  {
    hide Policer.Run, Forward, TrafficOf;
    if ars != [] {
      var n := |ars| - 1;
      PassedAtMost(p, pdr, ars[..n]);
      var r0 := Run(p, pdr, ars[..n]);
      if Forwards(r0.path.session, pdr) {
        AcceptedGrows(p, pdr, ars);
        PassedIsVolume(r0.path, pdr.ids, ars[n]);
      }
    }
  }

  /** What a URR has measured after one more policed packet. */
  lemma MeasuredGrows(p: Path, pdr: Route, ars: seq<Arrival>, id: nat, uplink: bool)
    requires ValidPath(p) && AllValid(ars) && ars != []
    requires Forwards(Run(p, pdr, ars[..|ars| - 1]).path.session, pdr)
    ensures
      var r0, r := Run(p, pdr, ars[..|ars| - 1]), Run(p, pdr, ars);
      var c := Command.Packet(pdr.ids, TrafficOf(r0.path, ars[|ars| - 1]));
      Counted(MeasuredSince(p.session, r.commands, id), uplink) ==
        Counted(MeasuredSince(p.session, r0.commands, id), uplink) + Counted(AddedBy(r0.path.session, c, id), uplink)
  {
    hide Run, Forward, Counted, AddedBy, TrafficOf;
    var n := |ars| - 1;
    var r0, r := Run(p, pdr, ars[..n]), Run(p, pdr, ars);
    RunSplits(p, pdr, ars[..n]);
    RunStep(p, pdr, ars);
    var m := |r0.commands|;
    assert r.commands[..m] == r0.commands;
    CountedConcat(MeasuredSince(p.session, r0.commands, id), AddedBy(r0.path.session, r.commands[m], id), uplink);
  }

  /** What a URR measures after QoS enforcement is among what the policer lets through. */
  lemma {:induction false} MeasuredAtMost(p: Path, pdr: Route, ars: seq<Arrival>, id: nat)
    requires ValidPath(p) && AllValid(ars) && p.policer.Some?
    requires id in p.session.urrs && !p.session.urrs[id].mbqe
    ensures
      var r := Run(p, pdr, ars);
      var measured := MeasuredSince(p.session, r.commands, id);
      && id in r.path.session.urrs && !r.path.session.urrs[id].mbqe
      && Counted(measured, true) + Counted(measured, false) <= Policer.Run(p.policer.value, Packets(r.policed)).bytes
    decreases |ars|
  {
    hide Policer.Run, Policer.Police, OnPacket, Counted, AddedBy, TrafficOf, MeasuredSince;
    if ars == [] {
      NothingMeasured(p.session, id);
    } else {
      var n := |ars| - 1;
      MeasuredAtMost(p, pdr, ars[..n], id);
      var r0 := Run(p, pdr, ars[..n]);
      if Forwards(r0.path.session, pdr) {
        var t := TrafficOf(r0.path, ars[n]);
        AcceptedGrows(p, pdr, ars);
        MeasuredGrows(p, pdr, ars, id, true);
        MeasuredGrows(p, pdr, ars, id, false);
        AddsAtMost(r0.path.session, pdr.ids, t, id);
        UrrSettings.PacketHolds(r0.path.session, pdr.ids, t, id, UrrSettings.BeforeQos);
      }
    }
  }

  lemma NothingMeasured(s: Session, id: nat)
    ensures Counted(MeasuredSince(s, [], id), true) == Counted(MeasuredSince(s, [], id), false) == 0
  {}

  /** RATE CONFORMANCE OF A PDR.  Over every run of packets through a PDR that is policed, in both
      directions, whatever its FAR and its URRs do: the octets that are passed on, and the octets
      that a URR counts after QoS enforcement, are bounded by the credit of the policer and the
      rate times the elapsed time, with less than a nanosecond per packet in excess. */
  lemma PathConforms(p: Path, pdr: Route, ars: seq<Arrival>, id: nat)
    requires ValidPath(p) && AllValid(ars) && p.policer.Some?
    requires id in p.session.urrs && !p.session.urrs[id].mbqe
    ensures
      var r, s := Run(p, pdr, ars), p.policer.value;
      var measured := MeasuredSince(p.session, r.commands, id);
      var time := Policer.Run(s, Packets(r.policed)).time;
      var bound := Policer.Credit(s) + s.byteRate * time + Policer.Slack(s.byteRate) * |r.policed|;
      && 1_000_000_000 * r.passed <= bound
      && 1_000_000_000 * (Counted(measured, true) + Counted(measured, false)) <= bound
  {
    hide Run, Policer.Run, Policer.Slack, Counted, MeasuredSince;
    PassedAtMost(p, pdr, ars);
    MeasuredAtMost(p, pdr, ars, id);
    var s := p.policer.value;
    var ps := Packets(Run(p, pdr, ars).policed);
    Policer.RunCredit(s, ps);
    var f := Policer.Run(s, ps).final;
    Policer.MulNonNeg(f.byteRate, f.carry);
  }

  // ---------- quotas ----------

  /** A URR that counts every packet against a total volume of `q` octets and is not exhausted. */
  ghost predicate Counting(u: Urr, q: nat) {
    && !u.inam && u.volumeMethod && u.triggers.volqu && !u.triggers.start && !u.exhausted
    && u.quota.tovol && u.quota.total == q && u.consumed.total == u.consumed.ul + u.consumed.dl < q
  }

  /** The PDR names the URR, no packet is given up, and the exhaustion makes the FAR of the PDR drop. */
  ghost predicate Guarded(s: Session, pdr: Route, id: nat) {
    && Distinct(pdr.ids) && id in pdr.ids && !HasTriggerless(s, pdr.ids) && PacketEffects.AllKnown(s, pdr.ids)
    && pdr.far.Some? && pdr.far.value in s.actions && Uses(NodesOf(s, id), pdr.far.value)
  }

  function VolumeOf(u: Urr, t: Traffic): nat { if u.mbqe then t.volMbqe else t.vol }

  /** Measuring such a URR: it is exhausted, or it goes on counting. */
  lemma FeedCounts(u: Urr, t: Traffic, q: nat)
    requires Counting(u, q) && q + VolumeOf(u, t) < U64
    ensures
      var w := Feed(u, t);
      && w.mbqe == u.mbqe
      && (PacketEffects.Exhausts(u, t) ||
          (Counting(w, q) && w.consumed.total == u.consumed.total + VolumeOf(u, t)))
  {
    AddTotal(u.consumed, VolumeOf(u, t), t.uplink, u.mnop);
    PacketEffects.MeasureExhausts(u, t);
    hide Record, Add;
  }

  lemma AddTotal(v: Volumes, vol: nat, uplink: bool, pkts: bool)
    requires v.total == v.ul + v.dl && v.total + vol < U64
    ensures
      var w := Add(v, vol, uplink, pkts);
      w.total == w.ul + w.dl == v.total + vol
  {}

  /** A packet leaves everything that a guarded route depends on. */
  lemma GuardStays(s: Session, pdr: Route, id: nat, t: Traffic)
    requires Guarded(s, pdr, id)
    ensures Guarded(OnPacket(s, pdr.ids, t).session, pdr, id)
  {
    var ids, f := pdr.ids, pdr.far.value;
    var s' := OnPacket(s, ids, t).session;
    PacketEffects.PacketActions(s, ids, t, f);
    NodesStay(s, ids, t);
    hide OnPacket, PacketEffects.MadeToDrop, Triggerless, Uses, FarsKnown;
    forall i | 0 <= i < |ids|
      ensures ids[i] in s'.urrs && Triggerless(s'.urrs[ids[i]]) <==> ids[i] in s.urrs && Triggerless(s.urrs[ids[i]])
    {
      TriggerlessStays(s, ids, t, ids[i]);
    }
    forall i | 0 <= i < |ids| ensures FarsKnown(NodesOf(s', ids[i]), s'.actions) {
      KnownByKeys(NodesOf(s, ids[i]), s.actions, s'.actions);
    }
  }

  lemma KnownByKeys(nodes: seq<Node>, a: map<Ref, nat>, b: map<Ref, nat>)
    requires FarsKnown(nodes, a) && a.Keys == b.Keys
    ensures FarsKnown(nodes, b)
  {}

  lemma TriggerlessStays(s: Session, ids: seq<nat>, t: Traffic, x: nat)
    ensures
      var s' := OnPacket(s, ids, t).session;
      && (x in s'.urrs <==> x in s.urrs)
      && (x in s.urrs ==> (Triggerless(s'.urrs[x]) <==> Triggerless(s.urrs[x])))
  {
    hide Loop, Emit;
    LoopTriggerless(s, ids, t, x);
    PacketReports(s, ids, t, x);
    var l := Loop(s, ids, t);
    if x in s.urrs { EmitKeepsFlags(l.session, l.pending, t.now, x); }
  }

  lemma NodesStay(s: Session, ids: seq<nat>, t: Traffic)
    ensures OnPacket(s, ids, t).session.nodes == s.nodes
  {
    hide Loop, Emit;
    LoopNodes(s, ids, t);
    EmitNodes(Loop(s, ids, t).session, Loop(s, ids, t).pending, t.now);
  }

  lemma {:induction false} LoopNodes(s: Session, ids: seq<nat>, t: Traffic)
    ensures Loop(s, ids, t).session.nodes == s.nodes
    decreases |ids|
  {
    hide Measure, SaveAndDrop, Triggerless;
    if ids != [] { LoopNodes(s, ids[..|ids| - 1], t); }
  }

  lemma {:induction false} EmitNodes(s: Session, pending: seq<Pending>, now: nat)
    ensures Emit(s, pending, now).0.nodes == s.nodes
    decreases |pending|
  {
    hide Record, Snapshot;
    if pending != [] { EmitNodes(s, pending[..|pending| - 1], now); }
  }

  /** One packet of a guarded route: the FAR drops afterwards, or the URR goes on counting. */
  lemma PacketGuards(s: Session, pdr: Route, id: nat, t: Traffic, q: nat)
    requires Guarded(s, pdr, id) && id in s.urrs && Counting(s.urrs[id], q)
    requires q + VolumeOf(s.urrs[id], t) < U64 && t.vol <= t.volMbqe
    ensures
      var s' := OnPacket(s, pdr.ids, t).session;
      && pdr.far.value in s'.actions && id in s'.urrs
      && (|| s'.actions[pdr.far.value] == DROP
          || (Counting(s'.urrs[id], q)
              && s'.urrs[id].consumed.total == s.urrs[id].consumed.total + VolumeOf(s.urrs[id], t)))
  {
    var ids, f, u := pdr.ids, pdr.far.value, s.urrs[id];
    if t.volMbqe != 0 {
      var i :| 0 <= i < |ids| && ids[i] == id;
      TriggerlessPrefix(s, ids, i + 1);
      assert Visited(s, ids, id);
      LoopFeeds(s, ids, t, id);
      var l := Loop(s, ids, t);
      EmitKeepsFlags(l.session, l.pending, t.now, id);
      FeedCounts(u, t, q);
      StripCounting(Feed(u, t), l.session.urrs[id], q);
      PacketEffects.PacketActions(s, ids, t, f);
      if PacketEffects.Exhausts(u, t) {
        assert PacketEffects.DropsAt(s, ids, t, f, i);
        assert PacketEffects.MadeToDrop(s, ids, t, f);
      }
      hide Loop, Emit, Feed, Strip, Visited, HasTriggerless, PacketEffects.Exhausts, PacketEffects.MadeToDrop;
    }
  }

  lemma StripCounting(u: Urr, w: Urr, q: nat)
    requires Strip(u) == Strip(w)
    ensures Counting(u, q) ==> Counting(w, q)
    ensures u.consumed == w.consumed
  {}

  /** The state of a run of a guarded route: the FAR drops, or no more has passed on than counted. */
  ghost predicate Kept(r: Trace, pdr: Route, id: nat, q: nat) {
    var s := r.path.session;
    && Guarded(s, pdr, id)
    && (|| (s.actions[pdr.far.value] == DROP && r.passed < q + 0xFFFF)
        || (id in s.urrs && Counting(s.urrs[id], q) && r.passed <= s.urrs[id].consumed.total))
  }

  lemma {:induction false} RunKept(p: Path, pdr: Route, ars: seq<Arrival>, id: nat, q: nat)
    requires ValidPath(p) && AllValid(ars) && q + 0x1_0000 < U64
    requires Guarded(p.session, pdr, id) && id in p.session.urrs && Counting(p.session.urrs[id], q)
    ensures Kept(Run(p, pdr, ars), pdr, id, q)
    decreases |ars|
  {
    hide Guarded, Counting, OnPacket, ColorOf;
    if ars == [] {
    } else {
      var n := |ars| - 1;
      var r0, a := Run(p, pdr, ars[..n]), ars[n];
      RunKept(p, pdr, ars[..n], id, q);
      var s := r0.path.session;
      GuardHasFar(s, pdr, id);
      if Forwards(s, pdr) {
        var t := TrafficOf(r0.path, a);
        GuardStays(s, pdr, id, t);
        PassedIsVolume(r0.path, pdr.ids, a);
        CountingBelow(s.urrs[id], q);
        PacketGuards(s, pdr, id, t, q);
        CountingBelow(OnPacket(s, pdr.ids, t).session.urrs[id], q);
      }
    }
  }

  lemma GuardHasFar(s: Session, pdr: Route, id: nat)
    requires Guarded(s, pdr, id)
    ensures pdr.far.Some? && pdr.far.value in s.actions
  {}

  lemma CountingBelow(u: Urr, q: nat)
    ensures Counting(u, q) ==> u.consumed.total < q
  {}

  /** QUOTA ENFORCEMENT.  Let a URR with an unused quota of `q` octets of total volume guard a PDR: it counts
      every packet of the PDR, none is given up, and its exhaustion makes the FAR of the PDR drop.
      Then in every run of packets, policed or not, whatever the other URRs of the PDR do, less
      than the quota and one packet of maximal length is passed on. */
  lemma QuotaEnforced(p: Path, pdr: Route, ars: seq<Arrival>, id: nat, q: nat)
    requires ValidPath(p) && AllValid(ars) && 0 < q && q + 0x1_0000 < U64
    requires Guarded(p.session, pdr, id) && id in p.session.urrs
    requires p.session.urrs[id].consumed == ZERO && Counting(p.session.urrs[id], q)
    ensures Run(p, pdr, ars).passed < q + 0xFFFF
  {
    hide Run, Guarded;
    RunKept(p, pdr, ars, id, q);
  }

  /** While its FAR drops, a PDR passes nothing on, and its packets change nothing. */
  lemma {:induction false} DroppingPassesNothing(p: Path, pdr: Route, ars: seq<Arrival>)
    requires ValidPath(p) && AllValid(ars) && ActionOf(p.session, pdr.far) == DROP
    ensures Run(p, pdr, ars) == Trace(p, [], [], 0)
    decreases |ars|
  {
    if ars != [] { DroppingPassesNothing(p, pdr, ars[..|ars| - 1]); }
    hide Forward;
  }

  /** The session of an installed PDR: its related nodes are those of the device. */
  ghost predicate NodesOfDevice(cfg: Config, d: RuleEngine.Dev, k: Key, s: Session)
    requires cfg.size > 0 && |d.relUrr| == cfg.size && k in d.pdrs
  {
    && QuotaLinks.ActionsKnown(d, s.actions)
    && forall x :: x in d.pdrs[k].urrIds ==> NodesOf(s, x) == QuotaLinks.NodesFor(cfg, d, Key(k.seid, x))
  }

  /** EVERY INSTALLED PDR IS GUARDED by every URR that it names, provided that it has a FAR and that none of
      its URRs is without trigger; so `QuotaEnforced` holds for it. */
  lemma InstalledIsGuarded(cfg: Config, d: RuleEngine.Dev, k: Key, s: Session, id: nat, gateOpen: bool)
    requires RuleEngine.Inv(cfg, d) && cfg.size > 0 && |d.relUrr| == cfg.size && k in d.pdrs
    requires NodesOfDevice(cfg, d, k, s) && d.pdrs[k].far.Some?
    requires Distinct(d.pdrs[k].urrIds) && id in d.pdrs[k].urrIds && !HasTriggerless(s, d.pdrs[k].urrIds)
    ensures Guarded(s, Route(d.pdrs[k].far, d.pdrs[k].urrIds, gateOpen), id)
  {
    var p := d.pdrs[k];
    QuotaLinks.OwnPdrMet(cfg, d, k, id, p.far.value);
    assert p.far == RuleEngine.Get(d.fars, RuleEngine.FarKey(k, p));
    hide RuleEngine.Inv, QuotaLinks.NodesFor, HasTriggerless, Uses, FarsKnown;
    forall i | 0 <= i < |p.urrIds| ensures FarsKnown(NodesOf(s, p.urrIds[i]), s.actions) {
      QuotaLinks.NodesKnown(cfg, d, Key(k.seid, p.urrIds[i]), s.actions);
    }
  }

  /** Witness: a URR waits for the first uplink packet, which is reported and to be withheld.  It is
      discarded if it goes into another tunnel, and passed on if it leaves the tunnel. */
  lemma FirstPacketLeaves(u: Urr, far: Ref, a: Arrival)
    requires PacketEffects.Starts(u, Traffic(a.secs, a.len, a.len, true))
    requires ValidArrival(a) && a.len > 0 && a.uplink
    ensures
      var s := Session(map[1 := u], map[far := FORW], map[]);
      var pdr := Route(Some(far), [1], true);
      var relayed := Handle(Path(None, s), pdr, a.(relayed := true));
      var leaving := Handle(Path(None, s), pdr, a.(relayed := false));
      && relayed.fate == Discarded && leaving.fate == PassedOn && leaving.sent == relayed.sent
      && PacketEffects.SendsStart(leaving.sent, 1)
  {
    var s := Session(map[1 := u], map[far := FORW], map[]);
    var pdr := Route(Some(far), [1], true);
    var t := Traffic(a.secs, a.len, a.len, true);
    PacketEffects.StartSentIff(s, [1], t, 1);
    PacketEffects.ResultIs(s, [1], t);
    assert !Triggerless(s.urrs[1]);
    assert 1 in pdr.ids && 1 in s.urrs;
    hide OnPacket, PacketEffects.Starts, Triggerless;
  }
}
