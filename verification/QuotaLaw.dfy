/** The volume quota under all settings: method, triggers and measurement information of the URR
    may change at any time between one grant and the next. */
module QuotaLaw {
  import opened Base
  import opened Links
  import opened Meter
  import opened Quota
  import opened Usage
  import opened Reports
  import opened QuotaReports
  import opened Thresholds

  // ---------- what counts towards the quota ----------

  /** The packet counts towards the quota of the URR. */
  predicate Counts(u: Urr, t: Traffic) { Measuring(u) && u.triggers.volqu && !(u.triggers.start && t.uplink) }

  /** What measuring does to consumption, quota and flags. */
  lemma MeasureIs(u: Urr, t: Traffic)
    ensures
      var v := Measure(u, t);
      var vol := if u.mbqe then t.volMbqe else t.vol;
      && v.urr.quota == u.quota && v.urr.exhausted == u.exhausted && v.urr.inam == u.inam
      && v.urr.volumeMethod == u.volumeMethod && v.urr.triggers == u.triggers
      && v.urr.consumed == (if Counts(u, t) then Add(u.consumed, vol, t.uplink, u.mnop) else u.consumed)
      && (Volqu in v.raised <==> Counts(u, t) && vol != 0 && Reached(v.urr.consumed, u.quota))
      && (Volqu in v.raised ==> v.exhaust) && |v.raised| <= 2
      && multiset(v.raised)[Volqu] == if Volqu in v.raised then 1 else 0
  {
    hide Record, Reached, Add;
  }

  /** What a command adds to the consumption in one direction. */
  ghost function CountedBy(s: Session, c: Command, id: nat, uplink: bool): nat {
    if c.Packet? && c.traffic.volMbqe != 0 && id in s.urrs && Visited(s, c.ids, id) && Counts(s.urrs[id], c.traffic)
       && c.traffic.uplink == uplink
    then if s.urrs[id].mbqe then c.traffic.volMbqe else c.traffic.vol
    else 0
  }

  /** Volume counted towards the quota during a run. */
  ghost function CountedSince(s: Session, cs: seq<Command>, id: nat, uplink: bool): nat
    decreases |cs|
  {
    if cs == [] then 0
    else
      var n := |cs| - 1;
      CountedSince(s, cs[..n], id, uplink) + CountedBy(RunAll(s, cs[..n]), cs[n], id, uplink)
  }

  /** The consumption stands at these volumes, modulo 2^64. */
  ghost predicate StandsAt(u: Urr, ul: nat, dl: nat) {
    u.consumed.ul == Wrap(ul) && u.consumed.dl == Wrap(dl) && Coherent(u.consumed)
  }

  lemma AddStands(u: Urr, w: Urr, ul: nat, dl: nat, vol: nat, uplink: bool, mnop: bool)
    requires StandsAt(u, ul, dl) && w.consumed == Add(u.consumed, vol, uplink, mnop)
    ensures StandsAt(w, if uplink then ul + vol else ul, if uplink then dl else dl + vol)
  {
    AddWraps(u.consumed, if uplink then ul else dl, vol, uplink, mnop);
    AddOther(u.consumed, vol, !uplink, mnop);
    AddCoheres(u.consumed, vol, uplink, mnop);
    hide Wrap, Add;
  }

  lemma FeedIs(u: Urr, t: Traffic)
    ensures Feed(u, t).consumed == Measure(u, t).urr.consumed && Feed(u, t).quota == Measure(u, t).urr.quota
  {
    hide Measure;
  }

  lemma StripKeeps(u: Urr, w: Urr)
    requires Strip(u) == Strip(w)
    ensures u.consumed == w.consumed && u.quota == w.quota
  {}

  /** A packet, as far as the consumption of one URR goes. */
  lemma PacketCounts(s: Session, ids: seq<nat>, t: Traffic, id: nat, ul: nat, dl: nat)
    requires id in s.urrs && Distinct(ids) && StandsAt(s.urrs[id], ul, dl)
    ensures
      var c := Command.Packet(ids, t);
      var s' := OnPacket(s, ids, t).session;
      && id in s'.urrs && s'.urrs[id].quota == s.urrs[id].quota
      && StandsAt(s'.urrs[id], ul + CountedBy(s, c, id, true), dl + CountedBy(s, c, id, false))
  {
    hide Loop, Emit, Measure, Feed, Strip, Visited, StandsAt, Counts;
    var u := s.urrs[id];
    var l := Loop(s, ids, t);
    LoopFeeds(s, ids, t, id);
    EmitKeepsFlags(l.session, l.pending, t.now, id);
    if t.volMbqe != 0 {
      if Visited(s, ids, id) {
        var w := Feed(u, t);
        StripKeeps(l.session.urrs[id], w);
        FeedIs(u, t);
        MeasureIs(u, t);
        if Counts(u, t) {
          AddStands(u, w, ul, dl, VolumeFor(u, t), t.uplink, u.mnop);
        } else {
          StandsSame(u, w, ul, dl);
        }
        StandsAll(w, l.session.urrs[id], OnPacket(s, ids, t).session.urrs[id]);
      } else {
        StripKeeps(l.session.urrs[id], u);
        StandsAll(u, l.session.urrs[id], OnPacket(s, ids, t).session.urrs[id]);
      }
    }
  }

  lemma StandsSame(u: Urr, w: Urr, ul: nat, dl: nat)
    requires StandsAt(u, ul, dl) && w.consumed == u.consumed
    ensures StandsAt(w, ul, dl)
  {}

  lemma StandsFrame(u: Urr, w: Urr, ul: nat, dl: nat)
    requires w.consumed == u.consumed
    ensures StandsAt(u, ul, dl) ==> StandsAt(w, ul, dl)
  {}

  lemma StandsAll(u: Urr, v: Urr, w: Urr)
    requires u.consumed == v.consumed == w.consumed
    ensures forall ul: nat, dl: nat :: StandsAt(u, ul, dl) ==> StandsAt(v, ul, dl) && StandsAt(w, ul, dl)
  {}

  lemma StepCounts(s: Session, c: Command, id: nat, ul: nat, dl: nat)
    requires id in s.urrs && Quiet(c, id) && (c.Packet? ==> Distinct(c.ids)) && StandsAt(s.urrs[id], ul, dl)
    ensures
      var s' := Step(s, c);
      && id in s'.urrs && s'.urrs[id].quota == s.urrs[id].quota
      && StandsAt(s'.urrs[id], ul + CountedBy(s, c, id, true), dl + CountedBy(s, c, id, false))
  {
    if c.Packet? {
      PacketCounts(s, c.ids, c.traffic, id, ul, dl);
    } else {
      OtherKeepsQuota(s, c, id);
      StandsFrame(s.urrs[id], Step(s, c).urrs[id], ul, dl);
    }
    hide OnPacket, Fill, Visited, Counts, StandsAt;
  }

  lemma OtherKeepsQuota(s: Session, c: Command, id: nat)
    requires id in s.urrs && Quiet(c, id) && !c.Packet?
    ensures
      var s' := Step(s, c);
      id in s'.urrs && s'.urrs[id].quota == s.urrs[id].quota && s'.urrs[id].consumed == s.urrs[id].consumed
  {
    hide Fill, Record;
    if c.Put? { PutKeepsQuota(s, c.id, c.attrs, id); }
  }

  /** The settings that a command other than a grant can change. */
  lemma PutKeepsQuota(s: Session, x: nat, a: UrrAttrs, id: nat)
    requires id in s.urrs && !(x == id && a.quota.Some?)
    ensures
      var s' := Step(s, Put(x, a));
      && id in s'.urrs && s'.urrs[id].quota == s.urrs[id].quota && s'.urrs[id].consumed == s.urrs[id].consumed
      && s'.urrs[id].exhausted == s.urrs[id].exhausted
  {
    FillFieldsQuota(s.urrs[id], a);
    hide SaveAndDrop, Restore, FillFields;
  }

  lemma FillFieldsQuota(u: Urr, a: UrrAttrs)
    ensures
      var w := FillFields(u, a);
      w.quota == u.quota && w.consumed == u.consumed && w.exhausted == u.exhausted
  {
    hide Apply;
  }

  ghost predicate QuietAll(cs: seq<Command>, id: nat) {
    forall i :: 0 <= i < |cs| ==> Quiet(cs[i], id) && (cs[i].Packet? ==> Distinct(cs[i].ids))
  }

  /** CONSUMPTION.  Over every run without a further grant and without deletion of the URR, whatever
      its settings are and become, it has consumed the volume of the packets that reached it
      while they counted. */
  lemma {:induction false} ConsumedIs(s: Session, cs: seq<Command>, id: nat)
    requires id in s.urrs && s.urrs[id].consumed == ZERO && QuietAll(cs, id)
    ensures
      var e := RunAll(s, cs);
      && id in e.urrs && e.urrs[id].quota == s.urrs[id].quota
      && StandsAt(e.urrs[id], CountedSince(s, cs, id, true), CountedSince(s, cs, id, false))
    decreases |cs|
  {
    hide Step, Quiet, CountedBy;
    if cs != [] {
      hide StandsAt;
      var n := |cs| - 1;
      ConsumedIs(s, cs[..n], id);
      var ul, dl := CountedSince(s, cs[..n], id, true), CountedSince(s, cs[..n], id, false);
      StepCounts(RunAll(s, cs[..n]), cs[n], id, ul, dl);
    }
  }

  /** THE VOLQU REPORT, ALWAYS.  Over every such run after a grant: a packet sends a VOLQU report
      about the URR if and only if it names it, is not given up, counts towards the quota, and
      leaves the volume counted since the grant at or above an enabled limit. */
  lemma VolquSentIff(s: Session, cs: seq<Command>, id: nat, ids: seq<nat>, t: Traffic)
    requires id in s.urrs && s.urrs[id].consumed == ZERO && QuietAll(cs, id) && Distinct(ids)
    requires id in RunAll(s, cs).urrs ==>
               CountedSince(s, cs, id, true) + CountedSince(s, cs, id, false)
                 + (if RunAll(s, cs).urrs[id].mbqe then t.volMbqe else t.vol) < U64
    ensures
      var e := RunAll(s, cs);
      && id in e.urrs
      && var u := e.urrs[id];
      var vol := if u.mbqe then t.volMbqe else t.vol;
      var ul := CountedSince(s, cs, id, true) + (if t.uplink then vol else 0);
      var dl := CountedSince(s, cs, id, false) + (if t.uplink then 0 else vol);
      SendsVolqu(OnPacket(e, ids, t).sent, id) <==>
        && id in ids && t.volMbqe != 0 && !HasTriggerless(e, ids)
        && Counts(u, t) && vol != 0 && Exceeds(s.urrs[id].quota, ul, dl)
  {
    hide RunAll, Measure, OnPacket, HasTriggerless, SendsVolqu, CountedSince, Exceeds, Reached, Counts, StandsAt;
    ConsumedIs(s, cs, id);
    var e := RunAll(s, cs);
    var u := e.urrs[id];
    PacketSendsIff(e, ids, t, id);
    MeasureIs(u, t);
    var a, b := CountedSince(s, cs, id, true), CountedSince(s, cs, id, false);
    var w := Measure(u, t).urr;
    if Counts(u, t) {
      AddStands(u, w, a, b, VolumeFor(u, t), t.uplink, u.mnop);
      StandsReached(w, if t.uplink then a + VolumeFor(u, t) else a, if t.uplink then b else b + VolumeFor(u, t));
    }
  }

  lemma StandsReached(u: Urr, ul: nat, dl: nat)
    requires StandsAt(u, ul, dl) && ul + dl < U64
    ensures Reached(u.consumed, u.quota) <==> Exceeds(u.quota, ul, dl)
  {
    ReachedIff(u.consumed, u.quota, ul, dl);
  }

  // ---------- at most one report, always ----------

  /** Some packets that count towards the quota reach an enabled limit; with the START trigger
      uplink packets do not count. */
  predicate Reachable(u: Urr) {
    || (u.quota.tovol && u.quota.total > 0)
    || (u.quota.dlvol && u.quota.dl > 0)
    || (u.quota.ulvol && u.quota.ul > 0 && (u.triggers.start ==> u.consumed.ul >= u.quota.ul))
  }

  /** An exhausted URR that measures against a quota within reach. */
  predicate Open(u: Urr) { u.exhausted && Measuring(u) && u.triggers.volqu && Reachable(u) }

  ghost predicate Shut(s: Session, id: nat) { id in s.urrs && !Open(s.urrs[id]) }

  /** Measuring neither opens a URR nor reports about a shut one that is exhausted. */
  lemma MeasureShut(u: Urr, t: Traffic)
    requires !Open(u)
    ensures
      var v := Measure(u, t);
      && (Volqu in v.raised ==> !u.exhausted)
      && !Open(v.urr.(exhausted := u.exhausted || v.exhaust, inam := u.inam || (v.exhaust && !u.exhausted)))
  {
    MeasureIs(u, t);
    AddUplinkOnly(u.consumed, VolumeFor(u, t), t.uplink, u.mnop);
    hide Measure, Add;
  }

  lemma AddUplinkOnly(v: Volumes, vol: nat, uplink: bool, mnop: bool)
    ensures !uplink ==> Add(v, vol, uplink, mnop).ul == v.ul
  {}

  lemma VisitShut(l: LoopState, x: nat, t: Traffic, id: nat)
    requires Shut(l.session, id)
    ensures
      var l' := Visit(l, x, t);
      && Shut(l'.session, id)
      && Raises(l'.pending, id) + Stage(l.session.urrs[id]) <= Raises(l.pending, id) + Stage(l'.session.urrs[id])
  {
    hide Measure, Tag, SaveAndDrop, Triggerless;
    if x in l.session.urrs {
      var v := Measure(l.session.urrs[x], t);
      MeasureIs(l.session.urrs[x], t);
      TagVolqu(x, v.raised, id);
      RaisesConcat(l.pending, Tag(x, v.raised), id);
      if x != id { VisitOther(l, x, t, id); } else { MeasureShut(l.session.urrs[id], t); }
    }
    hide Raises;
  }

  lemma {:induction false} LoopShut(s: Session, ids: seq<nat>, t: Traffic, id: nat)
    requires Shut(s, id)
    ensures
      var l := Loop(s, ids, t);
      Shut(l.session, id) && Raises(l.pending, id) + Stage(s.urrs[id]) <= Stage(l.session.urrs[id])
    decreases |ids|
  {
    hide Shut, Visit;
    if ids == [] {
      NothingRaised(id);
    } else {
      hide Raises;
      LoopShut(s, ids[..|ids| - 1], t, id);
      VisitShut(Loop(s, ids[..|ids| - 1], t), ids[|ids| - 1], t, id);
    }
  }

  lemma NothingRaised(id: nat) ensures Raises([], id) == 0 {}

  lemma PacketShut(s: Session, ids: seq<nat>, t: Traffic, id: nat)
    requires Shut(s, id)
    ensures
      var out := OnPacket(s, ids, t);
      Shut(out.session, id) && VolquFor(out.sent, id) + Stage(s.urrs[id]) <= Stage(out.session.urrs[id])
  {
    hide Loop, Emit, Raises;
    var l := Loop(s, ids, t);
    LoopShut(s, ids, t, id);
    EmitVolqu(l.session, l.pending, t.now, id);
    EmitKeepsFlags(l.session, l.pending, t.now, id);
  }

  lemma StepShut(s: Session, c: Command, id: nat)
    requires Shut(s, id) && Quiet(c, id)
    ensures
      var s' := Step(s, c);
      && id in s'.urrs && (c.Packet? ==> Shut(s', id))
      && VolquFor(StepSent(s, c), id) + Stage(s.urrs[id]) <= Stage(s'.urrs[id])
  {
    hide OnPacket, Fill, Record, Snapshot;
    match c
    case Packet(ids, t) => PacketShut(s, ids, t, id);
    case Put(x, a) => PutKeepsQuota(s, x, a, id);
    case Query(x, now) =>
    case Delete(x, now) =>
    case Rules(_, _) =>
  }

  /** The URR is shut in every state of the run. */
  ghost predicate AlwaysShut(s: Session, cs: seq<Command>, id: nat) {
    forall i :: 0 <= i <= |cs| ==> Shut(RunAll(s, cs[..i]), id)
  }

  lemma {:induction false} OnceWhileShut(s: Session, cs: seq<Command>, id: nat)
    requires AlwaysShut(s, cs, id) && forall i :: 0 <= i < |cs| ==> Quiet(cs[i], id)
    ensures id in s.urrs && id in RunAll(s, cs).urrs
    ensures VolquFor(RunSent(s, cs), id) + Stage(s.urrs[id]) <= Stage(RunAll(s, cs).urrs[id])
    decreases |cs|
  {
    hide Step, StepSent, Quiet;
    assert cs[..0] == [] && RunAll(s, []) == s;
    assert Shut(RunAll(s, cs[..0]), id);
    if cs != [] {
      var n := |cs| - 1;
      assert forall i :: 0 <= i <= n ==> cs[..n][..i] == cs[..i];
      OnceWhileShut(s, cs[..n], id);
      assert Shut(RunAll(s, cs[..n]), id);
      StepShut(RunAll(s, cs[..n]), cs[n], id);
      VolquConcat(RunSent(s, cs[..n]), StepSent(RunAll(s, cs[..n]), cs[n]), id);
    }
  }

  lemma {:induction false} PacketsStayShut(s: Session, ps: seq<Command>, id: nat)
    requires Shut(s, id) && PacketsOnly(ps)
    ensures AlwaysShut(s, ps, id)
    decreases |ps|
  {
    hide Step, Shut;
    if ps == [] {
      assert forall i :: 0 <= i <= |ps| ==> ps[..i] == [];
    } else {
      var n := |ps| - 1;
      PacketsStayShut(s, ps[..n], id);
      assert forall i :: 0 <= i <= n ==> ps[..n][..i] == ps[..i];
      assert ps[..n + 1] == ps && ps[..n][..n] == ps[..n];
      assert Shut(RunAll(s, ps[..n]), id);
      StepShutPacket(RunAll(s, ps[..n]), ps[n], id);
    }
  }

  lemma StepShutPacket(s: Session, c: Command, id: nat)
    requires Shut(s, id) && c.Packet?
    ensures Shut(Step(s, c), id)
  {
    PacketShut(s, c.ids, c.traffic, id);
    hide OnPacket;
  }

  lemma ShutThenPackets(s: Session, cs: seq<Command>, ps: seq<Command>, id: nat)
    requires AlwaysShut(s, cs, id) && PacketsOnly(ps) && forall i :: 0 <= i < |cs| ==> Quiet(cs[i], id)
    ensures VolquFor(RunSent(s, cs + ps), id) <= 1
  {
    hide RunAll, RunSent, Shut, VolquFor;
    assert cs[..|cs|] == cs;
    var e := RunAll(s, cs);
    assert Shut(RunAll(s, cs[..|cs|]), id);
    PacketsStayShut(e, ps, id);
    OnceWhileShut(s, cs, id);
    assert forall i :: 0 <= i < |ps| ==> Quiet(ps[i], id);
    OnceWhileShut(e, ps, id);
    RunConcat(s, cs, ps);
    VolquConcat(RunSent(s, cs), RunSent(e, ps), id);
  }

  // ---------- an open URR reports as often as one likes ----------

  /** A packet that counts towards the quota of an exhausted URR and leaves it reached. */
  lemma OpenPacket(s: Session, id: nat, t: Traffic)
    requires id in s.urrs && s.urrs[id].exhausted && Counts(s.urrs[id], t) && t.vol == t.volMbqe != 0
    requires Reached(Add(s.urrs[id].consumed, t.vol, t.uplink, s.urrs[id].mnop), s.urrs[id].quota)
    ensures
      var u, p := s.urrs[id], Command.Packet([id], t);
      var s' := Step(s, p);
      && VolquFor(StepSent(s, p), id) == 1 && id in s'.urrs
      && var u' := s'.urrs[id];
      && u'.consumed == Add(u.consumed, t.vol, t.uplink, u.mnop)
      && u'.exhausted && Measuring(u') && u'.triggers == u.triggers && u'.quota == u.quota && u'.mnop == u.mnop
  {
    hide Measure, Reached, Add, Emit, Loop, Tag, Record;
    var v := Measure(s.urrs[id], t);
    MeasureIs(s.urrs[id], t);
    MeasureMnop(s.urrs[id], t);
    TagVolqu(id, v.raised, id);
    LoopOfOne(s, id, t);
    var l := Loop(s, [id], t);
    assert l.pending == Tag(id, v.raised) && l.session.urrs[id] == v.urr && !l.aborted;
    EmitVolqu(l.session, l.pending, t.now, id);
    EmitKeepsFlags(l.session, l.pending, t.now, id);
  }

  lemma MeasureMnop(u: Urr, t: Traffic)
    ensures Measure(u, t).urr.mnop == u.mnop
  {
    hide Record;
  }

  function Octets(n: nat, uplink: bool): Traffic { Traffic(0, n, n, uplink) }

  /** A packet that brings the consumption to a reachable limit, and one more octet. */
  lemma Reaching(u: Urr, a: nat, b: nat) returns (v: nat, uplink: bool)
    requires StandsAt(u, a, b) && a + b + 2 < U64 && Open(u)
    requires u.quota.total + 2 < U64 && u.quota.ul + 2 < U64 && u.quota.dl + 2 < U64
    ensures v > 0 && (uplink ==> !u.triggers.start)
    ensures
      var first := Add(u.consumed, v, uplink, u.mnop);
      Reached(first, u.quota) && Reached(Add(first, 1, uplink, u.mnop), u.quota)
  {
    var q := u.quota;
    if q.tovol && q.total > 0 {
      uplink, v := false, if a + b >= q.total then 1 else q.total - (a + b);
    } else if q.dlvol && q.dl > 0 {
      uplink, v := false, if b >= q.dl then 1 else q.dl - b;
    } else if u.triggers.start {
      uplink, v := false, 1;
    } else {
      uplink, v := true, if a >= q.ul then 1 else q.ul - a;
    }
    TwiceAdded(u.consumed, a, b, v, uplink, u.mnop);
    hide Add, Wrap;
  }

  lemma TwiceAdded(c: Volumes, a: nat, b: nat, v: nat, uplink: bool, mnop: bool)
    requires c.ul == Wrap(a) && c.dl == Wrap(b) && a < U64 && b < U64 && v > 0
    requires (if uplink then a else b) + v + 1 < U64
    ensures
      var first := Add(c, v, uplink, mnop);
      var second := Add(first, 1, uplink, mnop);
      && first.ul == (if uplink then a + v else a) && first.dl == (if uplink then b else b + v)
      && second.ul == (if uplink then a + v + 1 else a) && second.dl == (if uplink then b else b + v + 1)
      && (a + b + v + 1 < U64 ==> first.total == a + b + v && second.total == a + b + v + 1)
  {}

  lemma OpenReportsAgain(s: Session, id: nat, a: nat, b: nat) returns (ps: seq<Command>)
    requires id in s.urrs && Open(s.urrs[id]) && StandsAt(s.urrs[id], a, b) && a + b + 2 < U64
    requires
      var q := s.urrs[id].quota;
      q.total + 2 < U64 && q.ul + 2 < U64 && q.dl + 2 < U64
    ensures PacketsOnly(ps) && VolquFor(RunSent(s, ps), id) == 2
  {
    var u := s.urrs[id];
    var v, up := Reaching(u, a, b);
    hide Step, StepSent, Reached, Add, StandsAt;
    var p1, p2 := Command.Packet([id], Octets(v, up)), Command.Packet([id], Octets(1, up));
    OpenPacket(s, id, Octets(v, up));
    var s1 := Step(s, p1);
    OpenPacket(s1, id, Octets(1, up));
    ps := [p1, p2];
    TwoSent(s, p1, p2, id);
  }

  lemma TwoSent(s: Session, p1: Command, p2: Command, id: nat)
    ensures VolquFor(RunSent(s, [p1, p2]), id) ==
            VolquFor(StepSent(s, p1), id) + VolquFor(StepSent(Step(s, p1), p2), id)
  {
    hide Step, StepSent;
    assert [p1, p2][..1] == [p1] && [p1][..0] == [];
    assert RunAll(s, []) == s && RunSent(s, []) == [];
    assert RunAll(s, [p1]) == Step(s, p1) && RunSent(s, [p1]) == [] + StepSent(s, p1);
    assert [] + StepSent(s, p1) == StepSent(s, p1);
    VolquConcat(StepSent(s, p1), StepSent(Step(s, p1), p2), id);
  }

  lemma {:induction false} CountedPrefix(s: Session, cs: seq<Command>, n: nat, id: nat, uplink: bool)
    requires n <= |cs|
    ensures CountedSince(s, cs[..n], id, uplink) <= CountedSince(s, cs, id, uplink)
    decreases |cs|
  {
    hide CountedBy, RunAll;
    if n < |cs| {
      CountedPrefix(s, cs[..|cs| - 1], n, id, uplink);
      assert cs[..|cs| - 1][..n] == cs[..n];
    } else {
      assert cs[..n] == cs;
    }
  }

  lemma OpenAt(s: Session, cs: seq<Command>, i: nat, id: nat)
    requires id in s.urrs && s.urrs[id].consumed == ZERO && QuietAll(cs, id) && i <= |cs|
    requires CountedSince(s, cs, id, true) + CountedSince(s, cs, id, false) + 2 < U64
    requires
      var q := s.urrs[id].quota;
      q.total + 2 < U64 && q.ul + 2 < U64 && q.dl + 2 < U64
    requires !Shut(RunAll(s, cs[..i]), id)
    ensures !OnceWhatever(s, cs[..i], id)
  {
    hide RunAll, RunSent, CountedSince, StandsAt, Open, Quiet;
    ConsumedIs(s, cs[..i], id);
    CountedPrefix(s, cs, i, id, true);
    CountedPrefix(s, cs, i, id, false);
    var e := RunAll(s, cs[..i]);
    var ps := OpenReportsAgain(e, id, CountedSince(s, cs[..i], id, true), CountedSince(s, cs[..i], id, false));
    RunConcat(s, cs[..i], ps);
    VolquConcat(RunSent(s, cs[..i]), RunSent(e, ps), id);
    assert PacketsOnly(ps) && VolquFor(RunSent(s, cs[..i] + ps), id) >= 2;
  }

  /** ONE REPORT PER GRANT, ALWAYS.  After a grant, and over every run without a further grant and
      without deletion of the URR, whatever its settings are and become: at every point at most
      one VOLQU report about it is sent, whatever packets follow, if and only if it is at no
      point exhausted and measuring against a quota within reach. */
  lemma OnceAlwaysIff(s: Session, cs: seq<Command>, id: nat)
    requires id in s.urrs && s.urrs[id].consumed == ZERO && QuietAll(cs, id)
    requires CountedSince(s, cs, id, true) + CountedSince(s, cs, id, false) + 2 < U64
    requires
      var q := s.urrs[id].quota;
      q.total + 2 < U64 && q.ul + 2 < U64 && q.dl + 2 < U64
    ensures (forall i :: 0 <= i <= |cs| ==> OnceWhatever(s, cs[..i], id)) <==> AlwaysShut(s, cs, id)
  {
    hide RunAll, RunSent, CountedSince, Shut, Quiet, VolquFor;
    if AlwaysShut(s, cs, id) {
      forall i, ps | 0 <= i <= |cs| && PacketsOnly(ps) ensures VolquFor(RunSent(s, cs[..i] + ps), id) <= 1 {
        assert forall j :: 0 <= j <= i ==> cs[..i][..j] == cs[..j];
        ShutThenPackets(s, cs[..i], ps, id);
      }
    } else {
      var i :| 0 <= i <= |cs| && !Shut(RunAll(s, cs[..i]), id);
      OpenAt(s, cs, i, id);
    }
  }
}
