/** Usage measurement and reporting: `update_urr_counter_and_send_report`, the report
    commands of `genl_report.c` and the URR commands of `genl_urr.c`. */
module Usage {
  import opened Base
  import opened Rules
  import opened Meter
  import opened Quota

  datatype Raised = Start | Volth | Volqu

  datatype Pending = Pending(id: nat, raised: Raised)

  datatype Sent = Sent(id: nat, raised: Option<Raised>, volumes: Volumes)

  /** A packet of a PDR: time, volume after and before QoS enforcement, direction. */
  datatype Traffic = Traffic(now: nat, vol: nat, volMbqe: nat, uplink: bool)

  // ---------- one URR and one packet ----------

  /** The check of `increment_and_check_counter`. */
  predicate Reached(v: Volumes, l: Limit) {
    || (l.total > 0 && v.total >= l.total && l.tovol)
    || (l.ul > 0 && v.ul >= l.ul && l.ulvol)
    || (l.dl > 0 && v.dl >= l.dl && l.dlvol)
  }

  function VolumeFor(u: Urr, t: Traffic): nat { if u.mbqe then t.volMbqe else t.vol }

  /** Something happens to the counters of a URR. */
  function Record(u: Urr, e: Event): (r: Urr)
    ensures r == u.(counters := r.counters, history := r.history, reported := r.reported)
  {
    var o := Apply(u.counters, e);
    u.(counters := o.counters, history := u.history + [e], reported := u.reported + o.reports)
  }

  predicate Measuring(u: Urr) { !u.inam && u.volumeMethod }

  /** A measuring URR without any trigger makes the driver give up on the packet. */
  predicate Triggerless(u: Urr) { Measuring(u) && u.triggers.IsZero() }

  datatype Verdict = Verdict(urr: Urr, raised: seq<Raised>, exhaust: bool)

  function Measure(u: Urr, t: Traffic): Verdict {
    if !Measuring(u) then Verdict(u, [], false)
    else if u.triggers.start && t.uplink then Verdict(u, [Start], true)
    else
      var vol := VolumeFor(u, t);
      var u1 := Record(u, Count(u.period, t.now, vol, t.uplink, u.mnop));
      var counter := Select(u1.counters, Second(u.period, t.now, false));
      var th := u.triggers.volth && vol != 0 && Reached(counter, u.threshold);
      var u2 := if u.triggers.volqu then u1.(consumed := Add(u.consumed, vol, t.uplink, u.mnop)) else u1;
      var qu := u.triggers.volqu && vol != 0 && Reached(u2.consumed, u.quota);
      Verdict(u2, (if th then [Volth] else []) + (if qu then [Volqu] else []), qu)
  }

  // ---------- a packet with all the URRs of its PDR ----------

  datatype LoopState = LoopState(session: Session, pending: seq<Pending>, aborted: bool)

  function Tag(id: nat, raised: seq<Raised>): seq<Pending> {
    seq(|raised|, i requires 0 <= i < |raised| => Pending(id, raised[i]))
  }

  function Visit(l: LoopState, id: nat, t: Traffic): LoopState {
    var s := l.session;
    if l.aborted || id !in s.urrs then l
    else if Triggerless(s.urrs[id]) then l.(aborted := true)
    else
      var v := Measure(s.urrs[id], t);
      var s1 := s.(urrs := s.urrs[id := v.urr]);
      LoopState(if v.exhaust then Exhaust(s1, id) else s1, l.pending + Tag(id, v.raised), false)
  }

  function Loop(s: Session, ids: seq<nat>, t: Traffic): LoopState
    decreases |ids|
  {
    if ids == [] then LoopState(s, [], false) else Visit(Loop(s, ids[..|ids| - 1], t), ids[|ids| - 1], t)
  }

  /** A visit that writes behind the `slots` report slots or behind the arrays of saved actions. */
  function VisitOverruns(l: LoopState, id: nat, t: Traffic, slots: nat): bool {
    var s := l.session;
    && !l.aborted && id in s.urrs && !Triggerless(s.urrs[id])
    && var v := Measure(s.urrs[id], t);
    || |l.pending| + |v.raised| > slots
    || (v.exhaust && !v.urr.exhausted && SaveOverruns(NodesOf(s, id), s.actions))
  }

  function LoopOverruns(s: Session, ids: seq<nat>, t: Traffic, slots: nat): bool
    decreases |ids|
  {
    ids != [] &&
    var rest := ids[..|ids| - 1];
    LoopOverruns(s, rest, t, slots) || VisitOverruns(Loop(s, rest, t), ids[|ids| - 1], t, slots)
  }

  /** `convert_urr_to_report`. */
  function Convert(s: Session, id: nat, now: nat): Session {
    if id !in s.urrs then s
    else s.(urrs := s.urrs[id := Record(s.urrs[id], Report(s.urrs[id].period, now))])
  }

  /** The volumes that `convert_urr_to_report` copies. */
  function Snapshot(s: Session, id: nat, now: nat): Volumes {
    if id !in s.urrs then ZERO
    else Select(s.urrs[id].counters, Second(s.urrs[id].period, now, true))
  }

  function Emit(s: Session, pending: seq<Pending>, now: nat): (Session, seq<Sent>)
    decreases |pending|
  {
    if pending == [] then (s, [])
    else
      var (s1, sent) := Emit(s, pending[..|pending| - 1], now);
      var p := pending[|pending| - 1];
      (Convert(s1, p.id, now), sent + [Sent(p.id, Some(p.raised), Snapshot(s1, p.id, now))])
  }

  datatype Result = Forward | NoTrigger | Withhold

  function Withheld(pending: seq<Pending>): bool { exists i :: 0 <= i < |pending| && pending[i].raised == Start }

  datatype PacketOut = PacketOut(session: Session, sent: seq<Sent>, result: Result)

  function OnPacket(s: Session, ids: seq<nat>, t: Traffic): PacketOut {
    if t.volMbqe == 0 then PacketOut(s, [], Forward)
    else
      var l := Loop(s, ids, t);
      if l.aborted then PacketOut(l.session, [], NoTrigger)
      else
        var (s', sent) := Emit(l.session, l.pending, t.now);
        PacketOut(s', sent, if Withheld(l.pending) then Withhold else Forward)
  }

  // ---------- URR commands ----------

  datatype Info = Info(inam: bool, mbqe: bool, mnop: bool)

  /** Attributes of a URR command; absent ones leave the URR as it was. */
  datatype UrrAttrs = UrrAttrs(
    volumeMethod: Option<bool>, triggers: Option<Triggers>, period: Option<nat>,
    info: Option<Info>, threshold: Option<Limit>, quota: Option<Limit>)

  const NO_LIMIT := Limit(0, 0, 0, false, false, false)

  const BLANK := Urr(false, Triggers(false, false, false, false), 0, false, false, false,
                     NO_LIMIT, NO_LIMIT, Counters(ZERO, ZERO), ZERO, false, [], NoArrays, [], [])

  /** The attributes of a command other than the volume quota. */
  function SetAttrs(u: Urr, a: UrrAttrs): Urr {
    u.(volumeMethod := if a.volumeMethod.Some? then a.volumeMethod.value else u.volumeMethod,
       triggers := if a.triggers.Some? then a.triggers.value else u.triggers,
       period := if a.period.Some? then a.period.value else u.period,
       inam := if a.info.Some? then a.info.value.inam else u.inam,
       mbqe := if a.info.Some? then a.info.value.mbqe else u.mbqe,
       mnop := if a.info.Some? then a.info.value.mnop else u.mnop,
       threshold := if a.threshold.Some? then a.threshold.value else u.threshold)
  }

  /** `urr_fill` up to the volume quota. */
  function FillFields(u: Urr, a: UrrAttrs): Urr {
    var w := SetAttrs(u, a);
    if a.triggers.Some? && a.triggers.value.OnlyStart() then Record(w, Clear) else w
  }

  /** `urr_fill` on the stored URR. */
  function Fill(s: Session, id: nat, a: UrrAttrs): Session
    requires id in s.urrs
  {
    var u := FillFields(s.urrs[id], a);
    if a.quota.None? then s.(urrs := s.urrs[id := u])
    else
      var s1 := s.(urrs := s.urrs[id := u.(quota := a.quota.value, consumed := ZERO)]);
      if a.quota.value.total == 0 && u.triggers.OnlyVolqu() then Exhaust(s1, id)
      else Reverse(s1, id)
  }

  datatype Command =
    | Packet(ids: seq<nat>, traffic: Traffic)
    | Query(id: nat, now: nat)
    | Put(id: nat, attrs: UrrAttrs)
    | Delete(id: nat, now: nat)
    | Rules(actions: map<Ref, nat>, nodes: map<nat, seq<Node>>)

  /** One command; FAR and PDR commands may change actions and links at will. */
  function Step(s: Session, c: Command): Session {
    match c
    case Packet(ids, t) => OnPacket(s, ids, t).session
    case Query(id, now) => Convert(s, id, now)
    case Put(id, a) => Fill(if id in s.urrs then s else s.(urrs := s.urrs[id := BLANK]), id, a)
    case Delete(id, now) => s.(urrs := s.urrs - {id})
    case Rules(actions, nodes) => s.(actions := actions, nodes := nodes)
  }

  /** The answer to a report request, and the report made when a URR is deleted. */
  function FinalReport(s: Session, id: nat, now: nat): seq<Sent> {
    if id in s.urrs then [Sent(id, None, Snapshot(s, id, now))] else []
  }

  function RunAll(s: Session, cs: seq<Command>): Session
    decreases |cs|
  {
    if cs == [] then s else Step(RunAll(s, cs[..|cs| - 1]), cs[|cs| - 1])
  }

  // ---------- every run: the counters are what the history says ----------

  ghost predicate Recorded(u: Urr) { Run(Counters(ZERO, ZERO), u.history) == Outcome(u.counters, u.reported) }

  ghost predicate AllRecorded(s: Session) { forall id :: id in s.urrs ==> Recorded(s.urrs[id]) }

  lemma RecordKeeps(u: Urr, e: Event)
    requires Recorded(u)
    ensures Recorded(Record(u, e))
  {
    RunSnoc(Counters(ZERO, ZERO), u.history, e);
  }

  lemma VisitKeeps(l: LoopState, id: nat, t: Traffic)
    requires AllRecorded(l.session)
    ensures AllRecorded(Visit(l, id, t).session)
  {
    hide Run, Apply, Record, SaveAndDrop;
    if id in l.session.urrs {
      var u := l.session.urrs[id];
      RecordKeeps(u, Count(u.period, t.now, VolumeFor(u, t), t.uplink, u.mnop));
    }
  }

  lemma {:induction false} LoopKeeps(s: Session, ids: seq<nat>, t: Traffic)
    requires AllRecorded(s)
    ensures AllRecorded(Loop(s, ids, t).session)
    decreases |ids|
  {
    if ids != [] {
      LoopKeeps(s, ids[..|ids| - 1], t);
      VisitKeeps(Loop(s, ids[..|ids| - 1], t), ids[|ids| - 1], t);
    }
  }

  lemma ConvertKeeps(s: Session, id: nat, now: nat)
    requires AllRecorded(s)
    ensures AllRecorded(Convert(s, id, now))
  {
    if id in s.urrs { RecordKeeps(s.urrs[id], Report(s.urrs[id].period, now)); }
  }

  lemma {:induction false} EmitKeeps(s: Session, pending: seq<Pending>, now: nat)
    requires AllRecorded(s)
    ensures AllRecorded(Emit(s, pending, now).0)
    decreases |pending|
  {
    if pending != [] {
      EmitKeeps(s, pending[..|pending| - 1], now);
      ConvertKeeps(Emit(s, pending[..|pending| - 1], now).0, pending[|pending| - 1].id, now);
    }
  }

  lemma FillKeeps(s: Session, id: nat, a: UrrAttrs)
    requires id in s.urrs && AllRecorded(s)
    ensures AllRecorded(Fill(s, id, a))
  {
    hide Run, SaveAndDrop, Restore, FillFields;
    FillFieldsKeeps(s.urrs[id], a);
  }

  lemma FillFieldsKeeps(u: Urr, a: UrrAttrs)
    requires Recorded(u)
    ensures Recorded(FillFields(u, a))
  {
    hide Run, Record;
    RecordKeeps(SetAttrs(u, a), Clear);
  }

  lemma StepKeeps(s: Session, c: Command)
    requires AllRecorded(s)
    ensures AllRecorded(Step(s, c))
  {
    match c
    case Packet(ids, t) =>
      LoopKeeps(s, ids, t);
      EmitKeeps(Loop(s, ids, t).session, Loop(s, ids, t).pending, t.now);
    case Query(id, now) => ConvertKeeps(s, id, now);
    case Put(id, a) =>
      var s1 := if id in s.urrs then s else s.(urrs := s.urrs[id := BLANK]);
      assert Recorded(BLANK);
      FillKeeps(s1, id, a);
    case Delete(id, now) =>
    case Rules(actions, nodes) =>
  }

  /** In every run of packets, reports and commands, the counters of each URR and the
      reports made from it are the ones its recorded history yields. */
  lemma {:induction false} RunRecorded(cs: seq<Command>, actions: map<Ref, nat>, nodes: map<nat, seq<Node>>)
    ensures AllRecorded(RunAll(Session(map[], actions, nodes), cs))
    decreases |cs|
  {
    if cs != [] {
      RunRecorded(cs[..|cs| - 1], actions, nodes);
      StepKeeps(RunAll(Session(map[], actions, nodes), cs[..|cs| - 1]), cs[|cs| - 1]);
    }
  }

  lemma RecordedAt(s: Session, cs: seq<Command>, id: nat)
    requires s.urrs == map[] && id in RunAll(s, cs).urrs
    ensures Recorded(RunAll(s, cs).urrs[id])
  {
    assert s == Session(map[], s.actions, s.nodes);
    RunRecorded(cs, s.actions, s.nodes);
    hide RunAll, Recorded;
  }

  /** Volume measured = volume reported + volume held, in one direction (modulo 2^64, and
      exactly while the volume measured is below 2^64). */
  ghost predicate Balanced(u: Urr, uplink: bool) {
    var accounted := Sum(u.reported, uplink) + Dir(u.counters.bytes, uplink) + Dir(u.counters.bytes2, uplink);
    && accounted % U64 == Counted(u.history, uplink) % U64
    && (Counted(u.history, uplink) < U64 ==> accounted == Counted(u.history, uplink))
    && Coherent(u.counters.bytes) && Coherent(u.counters.bytes2)
  }

  lemma RecordedIsBalanced(u: Urr, uplink: bool)
    requires Recorded(u) && Clear !in u.history
    ensures Balanced(u, uplink)
  {
    hide Counted, Sum, Run, Coherent;
    var k := Conservation(u.history, uplink);
    ModMultiple(Counted(u.history, uplink) - k * U64, k);
    TotalsCohere(u.history);
  }

  /** CONSERVATION IN THE SYSTEM.  The books of every URR of every reachable session that
      was never refilled by a START trigger are balanced. */
  lemma SessionConserves(cs: seq<Command>, actions: map<Ref, nat>, nodes: map<nat, seq<Node>>, id: nat, uplink: bool)
    ensures
      var s := RunAll(Session(map[], actions, nodes), cs);
      id in s.urrs && Clear !in s.urrs[id].history ==> Balanced(s.urrs[id], uplink)
  {
    hide RunAll, Balanced, Recorded;
    RunRecorded(cs, actions, nodes);
    var s := RunAll(Session(map[], actions, nodes), cs);
    if id in s.urrs && Clear !in s.urrs[id].history { RecordedIsBalanced(s.urrs[id], uplink); }
  }

  /** PERIODIC REPORTS IN THE SYSTEM.  Whenever the history of a URR is periodic and ends
      with a report, that report carries the volume of the previous period if it is the
      first of its period, and nothing otherwise. */
  lemma SessionReportsPreviousPeriod(cs: seq<Command>, actions: map<Ref, nat>, nodes: map<nat, seq<Node>>,
                                     id: nat, uplink: bool)
    ensures
      var s := RunAll(Session(map[], actions, nodes), cs);
      id in s.urrs && s.urrs[id].history != [] && s.urrs[id].history[|s.urrs[id].history| - 1].Report? ==>
        var u := s.urrs[id];
        var prefix, e := u.history[..|u.history| - 1], u.history[|u.history| - 1];
        && u.reported != []
        && (Periodic(e.period, u.history) ==>
              var q := PeriodOf(e.period, e);
              Dir(u.reported[|u.reported| - 1], uplink) ==
                if ReportedIn(e.period, prefix, q) then 0 else Wrap(CountedIn(e.period, prefix, q - 1, uplink)))
  {
    hide RunAll, Periodic, CountedIn, ReportedIn, Wrap, PeriodOf;
    RunRecorded(cs, actions, nodes);
    var s := RunAll(Session(map[], actions, nodes), cs);
    if id in s.urrs && s.urrs[id].history != [] && s.urrs[id].history[|s.urrs[id].history| - 1].Report? {
      var es := s.urrs[id].history;
      assert Recorded(s.urrs[id]);
      if Periodic(es[|es| - 1].period, es) { ReportCarriesPreviousPeriod(es[|es| - 1].period, es, uplink); }
    }
  }

  lemma ModMultiple(x: nat, k: nat)
    ensures (x + k * U64) % U64 == x % U64
  {}

  // ---------- a triggerless URR silences its PDR ----------

  /** Visiting URRs never makes another URR triggerless or not. */
  lemma VisitTriggerless(l: LoopState, id: nat, t: Traffic, x: nat)
    ensures
      var l' := Visit(l, id, t);
      && (x in l'.session.urrs <==> x in l.session.urrs)
      && (x in l.session.urrs ==> (Triggerless(l'.session.urrs[x]) <==> Triggerless(l.session.urrs[x])))
  {
    hide Record, SaveAndDrop;
  }

  lemma {:induction false} LoopTriggerless(s: Session, ids: seq<nat>, t: Traffic, x: nat)
    ensures
      var l := Loop(s, ids, t);
      && (x in l.session.urrs <==> x in s.urrs)
      && (x in s.urrs ==> (Triggerless(l.session.urrs[x]) <==> Triggerless(s.urrs[x])))
    decreases |ids|
  {
    if ids != [] {
      LoopTriggerless(s, ids[..|ids| - 1], t, x);
      VisitTriggerless(Loop(s, ids[..|ids| - 1], t), ids[|ids| - 1], t, x);
    }
  }

  ghost predicate HasTriggerless(s: Session, ids: seq<nat>) {
    exists i :: 0 <= i < |ids| && ids[i] in s.urrs && Triggerless(s.urrs[ids[i]])
  }

  lemma TriggerlessPrefix(s: Session, ids: seq<nat>, n: nat)
    requires n <= |ids|
    ensures HasTriggerless(s, ids[..n]) ==> HasTriggerless(s, ids)
  {
    if i :| 0 <= i < n && ids[..n][i] in s.urrs && Triggerless(s.urrs[ids[..n][i]]) {
      assert ids[i] in s.urrs && Triggerless(s.urrs[ids[i]]);
    }
  }

  /** The packet is given up, and with it every report that other URRs of the PDR have
      raised already, if and only if one of its URRs is measuring without a trigger. */
  lemma {:induction false} AbortsIff(s: Session, ids: seq<nat>, t: Traffic)
    ensures Loop(s, ids, t).aborted <==> HasTriggerless(s, ids)
    ensures t.volMbqe != 0 && HasTriggerless(s, ids) ==>
              OnPacket(s, ids, t).sent == [] && OnPacket(s, ids, t).result == NoTrigger
    decreases |ids|
  {
    hide Triggerless, Measure, Exhaust;
    if ids != [] {
      var n := |ids| - 1;
      var rest, x := ids[..n], ids[n];
      AbortsIff(s, rest, t);
      LoopTriggerless(s, rest, t, x);
      TriggerlessPrefix(s, ids, n);
      if HasTriggerless(s, ids) {
        var i :| 0 <= i < |ids| && ids[i] in s.urrs && Triggerless(s.urrs[ids[i]]);
        if i < n { assert rest[i] in s.urrs && Triggerless(s.urrs[rest[i]]); }
      }
    }
  }

  // ---------- what is raised is sent ----------

  lemma {:induction false} EmitSendsAll(s: Session, pending: seq<Pending>, now: nat)
    ensures
      var sent := Emit(s, pending, now).1;
      && |sent| == |pending|
      && forall i :: 0 <= i < |sent| ==> sent[i].id == pending[i].id && sent[i].raised == Some(pending[i].raised)
    decreases |pending|
  {
    if pending != [] { EmitSendsAll(s, pending[..|pending| - 1], now); }
  }

  lemma TagMembers(id: nat, raised: seq<Raised>, p: Pending)
    ensures p in Tag(id, raised) <==> p.id == id && p.raised in raised
  {
    if p.id == id && p.raised in raised {
      var i :| 0 <= i < |raised| && raised[i] == p.raised;
      assert Tag(id, raised)[i] == p;
    }
  }

  /** The loop does not touch URRs that the PDR does not name, and raises nothing for them. */
  lemma {:induction false} LoopUntouched(s: Session, ids: seq<nat>, t: Traffic, x: nat)
    requires x !in ids
    ensures
      var l := Loop(s, ids, t);
      && (x in l.session.urrs <==> x in s.urrs)
      && (x in s.urrs ==> l.session.urrs[x] == s.urrs[x])
      && forall p :: p in l.pending ==> p.id != x
    decreases |ids|
  {
    hide Measure, SaveAndDrop, Triggerless;
    if ids != [] {
      var n := |ids| - 1;
      LoopUntouched(s, ids[..n], t, x);
      assert ids[n] in ids;
    }
  }

  /** With distinct URR ids and no triggerless URR, a report is pending for a URR exactly
      when measuring that URR raised it. */
  lemma {:induction false} LoopRaises(s: Session, ids: seq<nat>, t: Traffic, x: nat, r: Raised)
    requires forall i, j :: 0 <= i < j < |ids| ==> ids[i] != ids[j]
    requires !HasTriggerless(s, ids) && x in ids && x in s.urrs
    ensures Pending(x, r) in Loop(s, ids, t).pending <==> r in Measure(s.urrs[x], t).raised
    decreases |ids|
  {
    hide Measure, Exhaust, Triggerless, Tag;
    var n := |ids| - 1;
    var rest, y := ids[..n], ids[n];
    TriggerlessPrefix(s, ids, n);
    AbortsIff(s, rest, t);
    AbortsIff(s, ids, t);
    LoopUntouched(s, rest, t, y);
    if y in s.urrs { TagMembers(y, Measure(s.urrs[y], t).raised, Pending(x, r)); }
    if x != y { LoopRaises(s, rest, t, x, r); }
  }

  /** REPORTS SENT.  Of a packet whose PDR names distinct URRs, none of them triggerless, a
      report of kind `r` is sent for URR `x` exactly when measuring it raises `r`. */
  lemma ReportSentIff(s: Session, ids: seq<nat>, t: Traffic, x: nat, r: Raised)
    requires forall i, j :: 0 <= i < j < |ids| ==> ids[i] != ids[j]
    requires t.volMbqe != 0 && !HasTriggerless(s, ids) && x in ids && x in s.urrs
    ensures
      var sent := OnPacket(s, ids, t).sent;
      (exists i :: 0 <= i < |sent| && sent[i].id == x && sent[i].raised == Some(r)) <==>
        r in Measure(s.urrs[x], t).raised
  {
    hide Measure, HasTriggerless, Loop, Emit;
    LoopRaises(s, ids, t, x, r);
    AbortsIff(s, ids, t);
    var l := Loop(s, ids, t);
    EmitSendsAll(l.session, l.pending, t.now);
    var sent := OnPacket(s, ids, t).sent;
    if Pending(x, r) in l.pending {
      var i :| 0 <= i < |l.pending| && l.pending[i] == Pending(x, r);
      assert sent[i].id == x && sent[i].raised == Some(r);
    }
    if i :| 0 <= i < |sent| && sent[i].id == x && sent[i].raised == Some(r) {
      assert l.pending[i] == Pending(x, r);
    }
  }

  // ---------- volume quota ----------

  /** One packet as a single URR sees it, including the flags its own exhaustion sets. */
  function Feed(u: Urr, t: Traffic): Urr {
    var v := Measure(u, t);
    if v.exhaust && !v.urr.exhausted then v.urr.(inam := true, exhausted := true) else v.urr
  }

  predicate Exceeds(q: Limit, ul: nat, dl: nat) {
    || (q.tovol && 0 < q.total <= ul + dl)
    || (q.ulvol && 0 < q.ul <= ul)
    || (q.dlvol && 0 < q.dl <= dl)
  }

  /** A URR that measures against a fresh volume quota. */
  ghost predicate Armed(u: Urr) {
    && Measuring(u) && u.triggers.volqu && !u.triggers.start
    && !u.exhausted && u.consumed == ZERO
  }

  // ---------- the driver's code ----------

  /** The increments of `increment_and_check_counter`. */
  method Increment(v: Volumes, vol: nat, uplink: bool, mnop: bool) returns (r: Volumes)
    requires vol != 0
    ensures r == Add(v, vol, uplink, mnop)
  {
    hide Wrap;
    r := v;
    if mnop {
      if uplink { r := r.(ulPkts := Wrap(r.ulPkts + 1)); } else { r := r.(dlPkts := Wrap(r.dlPkts + 1)); }
      r := r.(totalPkts := Wrap(r.ulPkts + r.dlPkts));
    }
    if uplink { r := r.(ul := Wrap(r.ul + vol)); } else { r := r.(dl := Wrap(r.dl + vol)); }
    r := r.(total := Wrap(r.ul + r.dl));
  }

  /** `increment_and_check_counter`. */
  method IncrementAndCheck(v: Volumes, limit: Option<Limit>, vol: nat, uplink: bool, mnop: bool)
    returns (r: Volumes, hit: bool)
    ensures r == Add(v, vol, uplink, mnop)
    ensures hit <==> vol != 0 && limit.Some? && Reached(r, limit.value)
  {
    if vol == 0 { return v, false; }
    hide Add;
    r := Increment(v, vol, uplink, mnop);
    if limit.None? { return r, false; }
    var l := limit.value;
    if l.total > 0 && r.total >= l.total && l.tovol { return r, true; }
    if l.ul > 0 && r.ul >= l.ul && l.ulvol { return r, true; }
    if l.dl > 0 && r.dl >= l.dl && l.dlvol { return r, true; }
    return r, false;
  }

  /** Counting a packet is recording it. */
  lemma CountIsRecord(u: Urr, e: Event)
    requires e.Count?
    ensures
      var second := Second(e.period, e.now, false);
      var counter := Add(Select(u.counters, second), e.vol, e.uplink, e.countPkts);
      && Record(u, e) == u.(counters := Store(u.counters, second, counter), history := u.history + [e])
      && Select(Record(u, e).counters, second) == counter
  {
    hide Add, Second;
    assert u.reported + [] == u.reported;
  }

  /** The counting part of the measuring loop. */
  method MeasureUrr(u: Urr, t: Traffic) returns (v: Verdict)
    requires !Triggerless(u)
    ensures v == Measure(u, t)
  {
    hide Add, Reached, Second, Record;
    if u.inam || !u.volumeMethod { return Verdict(u, [], false); }
    if u.triggers.start && t.uplink { return Verdict(u, [Start], true); }
    var vol := if u.mbqe then t.volMbqe else t.vol;
    var second := Second(u.period, t.now, false);
    var limit := if u.triggers.volth then Some(u.threshold) else None;
    var counter, th := IncrementAndCheck(Select(u.counters, second), limit, vol, t.uplink, u.mnop);
    var raised := if th then [Volth] else [];
    var e := Count(u.period, t.now, vol, t.uplink, u.mnop);
    var u1 := u.(counters := Store(u.counters, second, counter), history := u.history + [e]);
    CountIsRecord(u, e);
    hide Store, Select;
    if !u.triggers.volqu { return Verdict(u1, raised, false); }
    var consumed, qu := IncrementAndCheck(u.consumed, Some(u.quota), vol, t.uplink, u.mnop);
    if qu { raised := raised + [Volqu]; }
    return Verdict(u1.(consumed := consumed), raised, qu);
  }

  lemma ClearIsRecord(u: Urr)
    ensures Record(u, Clear) == u.(counters := Counters(ZERO, ZERO), history := u.history + [Clear])
  {
    assert u.reported + [] == u.reported;
  }

  /** The attributes that `urr_fill` looks at before the volume quota, one by one. */
  method SetEach(u: Urr, a: UrrAttrs) returns (w: Urr)
    ensures w == SetAttrs(u, a)
  {
    var byVolume, triggers, period, threshold := u.volumeMethod, u.triggers, u.period, u.threshold;
    var inam, mbqe, mnop := u.inam, u.mbqe, u.mnop;
    if a.volumeMethod.Some? { byVolume := a.volumeMethod.value; }
    if a.triggers.Some? { triggers := a.triggers.value; }
    if a.period.Some? { period := a.period.value; }
    if a.info.Some? { inam, mbqe, mnop := a.info.value.inam, a.info.value.mbqe, a.info.value.mnop; }
    if a.threshold.Some? { threshold := a.threshold.value; }
    w := u.(volumeMethod := byVolume, triggers := triggers, period := period,
            inam := inam, mbqe := mbqe, mnop := mnop, threshold := threshold);
  }

  method SetFields(u: Urr, a: UrrAttrs) returns (w: Urr)
    ensures w == FillFields(u, a)
  {
    hide Record, SetAttrs;
    w := SetEach(u, a);
    if a.triggers.Some? && a.triggers.value.OnlyStart() {
      ClearIsRecord(w);
      w := w.(counters := Counters(ZERO, ZERO), history := w.history + [Clear]);
    }
  }

  class UsageEngine {
    var urrs: map<nat, Urr>
    var actions: map<Ref, nat>
    var nodes: map<nat, seq<Node>>

    ghost function View(): Session
      reads this
    {
      Session(urrs, actions, nodes)
    }

    constructor (actions: map<Ref, nat>, nodes: map<nat, seq<Node>>)
      ensures View() == Session(map[], actions, nodes)
    {
      urrs := map[];
      this.actions, this.nodes := actions, nodes;
    }

    /** `urr_quota_exhaust_action`; `overrun` says that it writes behind its arrays. */
    method ExhaustAction(id: nat) returns (overrun: bool)
      requires id in urrs
      modifies this`urrs, this`actions
      ensures View() == Exhaust(old(View()), id)
      ensures overrun == (!old(urrs)[id].exhausted && SaveOverruns(NodesOf(old(View()), id), old(actions)))
    {
      overrun := false;
      if urrs[id].exhausted { return; }
      var related := if id in nodes then nodes[id] else [];
      var saved := [];
      for i := 0 to |related|
        invariant urrs == old(urrs)
        invariant (saved, actions) == SaveAndDrop(related[..i], old(actions))
        invariant overrun == SaveOverruns(related[..i], old(actions))
      {
        assert related[..i + 1][..i] == related[..i];
        if |saved| >= MAX_SAVED { overrun := true; }
        var n := related[i];
        if HasAction(n, actions) {
          saved := saved + [Saved(n.pdrId, actions[n.far.value])];
          actions := actions[n.far.value := DROP];
        }
      }
      assert related[..|related|] == related;
      var arrays := if |saved| > 0 then Held else urrs[id].arrays;
      urrs := urrs[id := urrs[id].(saved := saved, arrays := arrays, inam := true, exhausted := true)];
    }

    /** `urr_reverse_quota_exhaust_action`: for every node, every saved entry in order. */
    method ReverseAction(id: nat)
      requires id in urrs
      modifies this`urrs, this`actions
      ensures View() == Reverse(old(View()), id)
    {
      if !urrs[id].exhausted { return; }
      var related := if id in nodes then nodes[id] else [];
      var saved := urrs[id].saved;
      for i := 0 to |related|
        invariant urrs == old(urrs)
        invariant actions == Restore(related[..i], saved, old(actions))
      {
        assert related[..i + 1][..i] == related[..i];
        var n := related[i];
        ghost var before := actions;
        for j := 0 to |saved|
          invariant urrs == old(urrs)
          invariant
            var a := Recall(saved[..j], n.pdrId);
            actions == if HasAction(n, before) && a.Some? then before[n.far.value := a.value] else before
        {
          assert saved[..j + 1][..j] == saved[..j];
          if saved[j].pdrId == n.pdrId && HasAction(n, actions) {
            actions := actions[n.far.value := saved[j].action];
          }
        }
        assert saved[..|saved|] == saved;
      }
      assert related[..|related|] == related;
      var arrays := if urrs[id].arrays == NoArrays then NoArrays else Freed;
      urrs := urrs[id := urrs[id].(exhausted := false, arrays := arrays)];
    }

    /** `convert_urr_to_report`: copy the counter of the previous period and zero it. */
    method ConvertToReport(id: nat, now: nat) returns (v: Volumes)
      requires id in urrs
      modifies this`urrs
      ensures View() == Convert(old(View()), id, now)
      ensures v == Snapshot(old(View()), id, now)
    {
      var u := urrs[id];
      var second := Second(u.period, now, true);
      v := Select(u.counters, second);
      urrs := urrs[id := u.(counters := Store(u.counters, second, ZERO),
                            history := u.history + [Report(u.period, now)],
                            reported := u.reported + [v])];
    }

    /** The body of the measuring loop for one URR. */
    method MeasureOne(id: nat, t: Traffic) returns (raised: seq<Raised>, overrun: bool)
      requires id in urrs && !Triggerless(urrs[id])
      modifies this`urrs, this`actions
      ensures
        var v := Measure(old(urrs)[id], t);
        var s1 := old(View()).(urrs := old(urrs)[id := v.urr]);
        && raised == v.raised
        && View() == (if v.exhaust then Exhaust(s1, id) else s1)
        && overrun == (v.exhaust && !v.urr.exhausted && SaveOverruns(NodesOf(old(View()), id), old(actions)))
    {
      hide Measure, Exhaust, SaveOverruns;
      overrun := false;
      var v := MeasureUrr(urrs[id], t);
      urrs := urrs[id := v.urr];
      if v.exhaust { overrun := ExhaustAction(id); }
      raised := v.raised;
    }

    /** The measuring loop of `update_urr_counter_and_send_report`. */
    method MeasureAll(ids: seq<nat>, t: Traffic) returns (pending: seq<Pending>, aborted: bool, overrun: bool)
      modifies this`urrs, this`actions
      ensures aborted == Loop(old(View()), ids, t).aborted && View() == Loop(old(View()), ids, t).session
      ensures !aborted ==> pending == Loop(old(View()), ids, t).pending
      ensures overrun == LoopOverruns(old(View()), ids, t, |ids|)
    {
      hide Measure, Exhaust, Triggerless, Tag, SaveOverruns;
      pending, overrun := [], false;
      for i := 0 to |ids|
        invariant nodes == old(nodes)
        invariant LoopState(View(), pending, false) == Loop(old(View()), ids[..i], t)
        invariant overrun == LoopOverruns(old(View()), ids[..i], t, |ids|)
      {
        LoopTurn(old(View()), ids, t, i);
        OverrunTurn(old(View()), ids, t, i);
        var id := ids[i];
        if id in urrs {
          if Triggerless(urrs[id]) {
            AbortStays(old(View()), ids, t, i + 1);
            OverrunStays(old(View()), ids, t, i + 1, |ids|);
            return [], true, overrun;
          }
          var raised, over := MeasureOne(id, t);
          if |pending| + |raised| > |ids| || over { overrun := true; }
          pending := pending + Tag(id, raised);
        }
      }
      assert ids[..|ids|] == ids;
      return pending, false, overrun;
    }

    /** The reporting loop. */
    method ReportAll(pending: seq<Pending>, now: nat) returns (sent: seq<Sent>, withhold: bool)
      modifies this`urrs
      ensures (View(), sent) == Emit(old(View()), pending, now)
      ensures withhold == Withheld(pending)
    {
      hide Convert, Snapshot;
      sent, withhold := [], false;
      for i := 0 to |pending|
        invariant nodes == old(nodes) && actions == old(actions)
        invariant (View(), sent) == Emit(old(View()), pending[..i], now)
        invariant withhold == Withheld(pending[..i])
      {
        assert pending[..i + 1][..i] == pending[..i];
        if pending[i].raised == Start { withhold := true; }
        var v := MaybeConvert(pending[i].id, now);
        sent := sent + [Sent(pending[i].id, Some(pending[i].raised), v)];
      }
      assert pending[..|pending|] == pending;
    }

    method MaybeConvert(id: nat, now: nat) returns (v: Volumes)
      modifies this`urrs
      ensures View() == Convert(old(View()), id, now)
      ensures v == Snapshot(old(View()), id, now)
    {
      v := ZERO;
      if id in urrs { v := ConvertToReport(id, now); }
    }

    /** `update_urr_counter_and_send_report`; `overrun` says that it writes behind one of its
        arrays, of which the report slots have one entry per URR of the PDR. */
    method UpdateAndReport(ids: seq<nat>, t: Traffic) returns (sent: seq<Sent>, result: Result, overrun: bool)
      modifies this`urrs, this`actions
      ensures PacketOut(View(), sent, result) == OnPacket(old(View()), ids, t)
      ensures overrun == (t.volMbqe != 0 && LoopOverruns(old(View()), ids, t, |ids|))
    {
      hide Loop, Emit, LoopOverruns;
      if t.volMbqe == 0 { return [], Forward, false; }
      var pending, aborted, over := MeasureAll(ids, t);
      overrun := over;
      if aborted { return [], NoTrigger, overrun; }
      var withhold;
      sent, withhold := ReportAll(pending, t.now);
      result := if withhold then Withhold else Forward;
    }

    /** The request for a report of one URR. */
    method QueryUrr(id: nat, now: nat) returns (sent: seq<Sent>)
      modifies this`urrs
      ensures View() == Step(old(View()), Query(id, now)) && sent == FinalReport(old(View()), id, now)
    {
      sent := [];
      if id in urrs {
        var v := ConvertToReport(id, now);
        sent := [Sent(id, None, v)];
      }
    }

    /** `gtp5g_genl_del_urr`: report, then free. */
    method DeleteUrr(id: nat, now: nat) returns (sent: seq<Sent>)
      modifies this`urrs
      ensures View() == Step(old(View()), Delete(id, now)) && sent == FinalReport(old(View()), id, now)
    {
      sent := [];
      if id !in urrs { return; }
      var v := ConvertToReport(id, now);
      sent := [Sent(id, None, v)];
      urrs := urrs - {id};
    }

    /** `urr_fill` on a stored URR. */
    method FillUrr(id: nat, a: UrrAttrs) returns (overrun: bool)
      requires id in urrs
      modifies this`urrs, this`actions
      ensures View() == Fill(old(View()), id, a)
      ensures
        var u := FillFields(old(urrs)[id], a);
        overrun == (a.quota.Some? && a.quota.value.total == 0 && u.triggers.OnlyVolqu() && !u.exhausted
                    && SaveOverruns(NodesOf(old(View()), id), old(actions)))
    {
      hide SaveAndDrop, Restore, FillFields, SaveOverruns;
      overrun := false;
      var u := SetFields(urrs[id], a);
      if a.quota.None? {
        urrs := urrs[id := u];
        return;
      }
      urrs := urrs[id := u.(quota := a.quota.value, consumed := ZERO)];
      if a.quota.value.total == 0 && u.triggers.OnlyVolqu() {
        overrun := ExhaustAction(id);
      } else if urrs[id].exhausted {
        ReverseAction(id);
      }
    }
  }

  lemma LoopTurn(s: Session, ids: seq<nat>, t: Traffic, i: nat)
    requires i < |ids|
    ensures Loop(s, ids[..i + 1], t) == Visit(Loop(s, ids[..i], t), ids[i], t)
  {
    assert ids[..i + 1][..i] == ids[..i];
  }

  lemma OverrunTurn(s: Session, ids: seq<nat>, t: Traffic, i: nat)
    requires i < |ids|
    ensures LoopOverruns(s, ids[..i + 1], t, |ids|) ==
            (LoopOverruns(s, ids[..i], t, |ids|) || VisitOverruns(Loop(s, ids[..i], t), ids[i], t, |ids|))
  {
    hide Loop, VisitOverruns;
    assert ids[..i + 1][..i] == ids[..i];
  }

  lemma {:induction false} OverrunStays(s: Session, ids: seq<nat>, t: Traffic, n: nat, slots: nat)
    requires n <= |ids| && Loop(s, ids[..n], t).aborted
    ensures LoopOverruns(s, ids, t, slots) == LoopOverruns(s, ids[..n], t, slots)
    decreases |ids|
  {
    hide Loop;
    if n < |ids| {
      var rest := ids[..|ids| - 1];
      assert rest[..n] == ids[..n];
      OverrunStays(s, rest, t, n, slots);
      AbortStays(s, rest, t, n);
    } else {
      assert ids[..n] == ids;
    }
  }

  lemma {:induction false} AbortStays(s: Session, ids: seq<nat>, t: Traffic, n: nat)
    requires n <= |ids| && Loop(s, ids[..n], t).aborted
    ensures Loop(s, ids, t) == Loop(s, ids[..n], t)
    decreases |ids|
  {
    hide Measure, Exhaust, Triggerless;
    if n < |ids| {
      assert ids[..|ids| - 1][..n] == ids[..n];
      AbortStays(s, ids[..|ids| - 1], t, n);
    } else {
      assert ids[..n] == ids;
    }
  }
}
