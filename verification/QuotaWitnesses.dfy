/** Runs of commands from an empty session on which the quota reports and the quota actions do
    not do what they are for. */
module QuotaWitnesses {
  import opened Base
  import opened Rules
  import opened Meter
  import opened Quota
  import opened Usage
  import opened Reports
  import opened QuotaReports
  import opened QuotaLaw

  // ---------- the commands ----------

  const VOLQU_ONLY := Triggers(false, false, true, false)
  const TEN_OCTETS := Limit(10, 0, 0, true, false, false)

  /** Grants ten octets, to a new or an old URR. */
  function GrantTen(id: nat): Command {
    Put(id, UrrAttrs(Some(true), Some(VOLQU_ONLY), None, None, None, Some(TEN_OCTETS)))
  }

  /** Grants nothing, and so exhausts the URR. */
  function GrantNothing(id: nat): Command {
    Put(id, UrrAttrs(Some(true), Some(VOLQU_ONLY), None, None, None, Some(NO_LIMIT)))
  }

  /** Creates a URR that measures without trigger. */
  function NoTriggers(id: nat): Command { Put(id, UrrAttrs(Some(true), None, None, None, None, None)) }

  /** Clears the inactive-measurement bit. */
  function Reopen(id: nat): Command { Put(id, UrrAttrs(None, None, None, Some(Info(false, false, false)), None, None)) }

  const TEN := Traffic(0, 10, 10, true)

  function SendTen(ids: seq<nat>): Command { Command.Packet(ids, TEN) }

  /** One octet for one URR. */
  function Ping(id: nat): Command { Command.Packet([id], QuotaLaw.Octets(1, true)) }

  // ---------- single commands ----------

  /** A URR that has just been granted ten octets. */
  const GRANTED := BLANK.(volumeMethod := true, triggers := VOLQU_ONLY, quota := TEN_OCTETS)

  /** A URR with a quota of ten octets that has consumed so many, all of them uplink. */
  ghost predicate Consumed(u: Urr, n: nat) {
    && u.volumeMethod && u.triggers == VOLQU_ONLY && u.quota == TEN_OCTETS
    && u.consumed.ul == u.consumed.total == n && u.consumed.dl == 0
  }

  /** A URR that spends its quota with ten octets. */
  ghost predicate Ready(u: Urr) {
    && !Triggerless(u) && !u.exhausted && Consumed(u, 0)
    && var v := Measure(u, TEN);
       v.raised == [Volqu] && v.exhaust && !v.urr.exhausted && Consumed(v.urr, 10)
  }

  lemma GrantedIsReady()
    ensures Ready(GRANTED)
  {
    hide Ready;
    ReadyIf(GRANTED, TEN);
  }

  /** Whatever the counters hold, ten octets of ten spend the quota. */
  lemma ReadyIf(u: Urr, t: Traffic)
    requires u.volumeMethod && u.triggers == VOLQU_ONLY && !u.inam && !u.exhausted && u.quota == TEN_OCTETS
    requires u.consumed == ZERO && t == TEN
    ensures Ready(u)
  {
    ReachTen(u.consumed, u.quota, t.vol, t.uplink, u.mnop);
    ReachTen(u.consumed, u.quota, t.volMbqe, t.uplink, u.mnop);
    hide Record, Second, Add, Reached;
    var v := Measure(u, t);
    assert v.raised == [] + [Volqu] == [Volqu];
  }

  lemma ReachTen(v: Volumes, q: Limit, vol: nat, uplink: bool, mnop: bool)
    requires v == ZERO && q == TEN_OCTETS && vol == 10
    ensures Reached(Add(v, vol, uplink, mnop), q)
    ensures
      var w := Add(v, vol, uplink, mnop);
      uplink ==> w.ul == w.total == 10 && w.dl == 0
  {}

  lemma GrantStep(s: Session, id: nat)
    requires id !in s.urrs
    ensures Step(s, GrantTen(id)) == s.(urrs := s.urrs[id := GRANTED]) && StepSent(s, GrantTen(id)) == []
  {
    assert FillFields(BLANK, GrantTen(id).attrs) == GRANTED.(quota := NO_LIMIT);
  }

  lemma NoTriggersStep(s: Session, id: nat)
    requires id !in s.urrs
    ensures
      var u := BLANK.(volumeMethod := true);
      Triggerless(u) && Step(s, NoTriggers(id)) == s.(urrs := s.urrs[id := u])
  {}

  /** A further grant to an exhausted URR reverses its quota action. */
  lemma RegrantStep(s: Session, id: nat)
    requires id in s.urrs && s.urrs[id].exhausted
    ensures
      var s' := Step(s, GrantTen(id));
      && s'.actions == Restore(NodesOf(s, id), s.urrs[id].saved, s.actions) && s'.nodes == s.nodes
      && s'.urrs.Keys == s.urrs.Keys && !s'.urrs[id].exhausted
      && s'.urrs[id].arrays == ArraysAfterFree(s.urrs[id])
      && forall x :: x in s.urrs && x != id ==> s'.urrs[x] == s.urrs[x]
  {
    hide Restore, Record;
  }

  /** A grant of nothing to a new URR or to one that is not exhausted. */
  lemma NothingStep(s: Session, id: nat)
    requires id in s.urrs ==> !s.urrs[id].exhausted
    ensures
      var u := if id in s.urrs then s.urrs[id] else BLANK;
      var s' := Step(s, GrantNothing(id));
      var (saved, acts) := SaveAndDrop(NodesOf(s, id), s.actions);
      && s'.actions == acts && s'.nodes == s.nodes
      && id in s'.urrs && s'.urrs[id].exhausted && s'.urrs[id].saved == saved
      && s'.urrs[id].arrays == ArraysAfterSave(u, saved)
  {
    hide SaveAndDrop, Record;
  }

  lemma ReopenStep(s: Session, id: nat, n: nat)
    requires id in s.urrs && s.urrs[id].exhausted && Consumed(s.urrs[id], n)
    ensures
      var s' := Step(s, Reopen(id));
      && StepSent(s, Reopen(id)) == []
      && id in s'.urrs && s'.urrs[id].exhausted && !s'.urrs[id].inam && Consumed(s'.urrs[id], n)
  {}

  /** One octet more on a URR that was reopened. */
  lemma PingStep(s: Session, id: nat, n: nat)
    requires id in s.urrs && s.urrs[id].exhausted && !s.urrs[id].inam && Consumed(s.urrs[id], n) && 10 <= n < U64 - 1
    ensures
      var s' := Step(s, Ping(id));
      && VolquFor(StepSent(s, Ping(id)), id) == 1
      && id in s'.urrs && s'.urrs[id].exhausted && !s'.urrs[id].inam && Consumed(s'.urrs[id], n + 1)
  {
    AddOne(s.urrs[id].consumed, n, s.urrs[id].mnop);
    hide Step, StepSent, Add;
    OpenPacket(s, id, QuotaLaw.Octets(1, true));
  }

  lemma AddOne(v: Volumes, n: nat, mnop: bool)
    requires v.ul == v.total == n < U64 - 1 && v.dl == 0
    ensures
      var w := Add(v, 1, true, mnop);
      w.ul == w.total == n + 1 && w.dl == 0
  {}

  /** A visit of a URR that spends its quota. */
  lemma VisitReady(s: Session, id: nat)
    requires id in s.urrs && Ready(s.urrs[id])
    ensures
      var l := Visit(LoopState(s, [], false), id, TEN);
      var (saved, acts) := SaveAndDrop(NodesOf(s, id), s.actions);
      && !l.aborted && l.pending == [Pending(id, Volqu)]
      && l.session.actions == acts && l.session.nodes == s.nodes && l.session.urrs.Keys == s.urrs.Keys
      && l.session.urrs[id].exhausted && l.session.urrs[id].inam && l.session.urrs[id].saved == saved
      && Consumed(l.session.urrs[id], 10)
      && forall x :: x in s.urrs && x != id ==> l.session.urrs[x] == s.urrs[x]
  {
    VisitOne(s, id, TEN, Volqu);
    hide Measure, SaveAndDrop, Triggerless, Visit;
  }

  /** Sending one report. */
  lemma EmitVolquOne(s: Session, id: nat, now: nat)
    requires id in s.urrs
    ensures
      var (s', sent) := Emit(s, [Pending(id, Volqu)], now);
      && |sent| == 1 && sent[0].id == id && sent[0].raised == Some(Volqu)
      && s'.actions == s.actions && s'.nodes == s.nodes && s'.urrs.Keys == s.urrs.Keys
      && s'.urrs[id].exhausted == s.urrs[id].exhausted && s'.urrs[id].saved == s.urrs[id].saved
      && (Consumed(s.urrs[id], 10) ==> Consumed(s'.urrs[id], 10))
      && forall x :: x in s.urrs && x != id ==> s'.urrs[x] == s.urrs[x]
  {
    EmitOne(s, id, Volqu, now);
    hide Record, Snapshot, Emit;
  }

  /** A packet of ten octets that spends the quota of the only URR of its PDR. */
  lemma SpendStep(s: Session, id: nat)
    requires id in s.urrs && Ready(s.urrs[id])
    ensures
      var s' := Step(s, SendTen([id]));
      var (saved, acts) := SaveAndDrop(NodesOf(s, id), s.actions);
      && VolquFor(StepSent(s, SendTen([id])), id) == 1
      && s'.actions == acts && s'.nodes == s.nodes && s'.urrs.Keys == s.urrs.Keys
      && s'.urrs[id].exhausted && s'.urrs[id].saved == saved && Consumed(s'.urrs[id], 10)
      && forall x :: x in s.urrs && x != id ==> s'.urrs[x] == s.urrs[x]
  {
    hide Ready, Visit, Loop, Emit, SaveAndDrop;
    LoopOfOne(s, id, TEN);
    VisitReady(s, id);
    var l := Loop(s, [id], TEN);
    EmitVolquOne(l.session, id, 0);
    VolquOne(Emit(l.session, l.pending, 0).1, id);
  }

  lemma VolquOne(sent: seq<Sent>, id: nat)
    requires |sent| == 1 && sent[0].id == id && sent[0].raised == Some(Volqu)
    ensures VolquFor(sent, id) == 1
  {
    assert sent[..0] == [];
  }

  // ---------- runs ----------

  lemma RunSnocIs(s: Session, cs: seq<Command>, c: Command)
    ensures RunAll(s, cs + [c]) == Step(RunAll(s, cs), c)
  {
    hide Step;
    assert (cs + [c])[..|cs|] == cs;
  }

  /** One more command in front of a run. */
  lemma SentCons(s: Session, c: Command, cs: seq<Command>, id: nat)
    ensures VolquFor(RunSent(s, [c] + cs), id) == VolquFor(StepSent(s, c), id) + VolquFor(RunSent(Step(s, c), cs), id)
  {
    hide Step, StepSent;
    assert [c][..0] == [];
    assert RunAll(s, []) == s && RunSent(s, []) == [];
    assert [] + StepSent(s, c) == StepSent(s, c);
    RunConcat(s, [c], cs);
    VolquConcat(StepSent(s, c), RunSent(Step(s, c), cs), id);
  }

  /** Grant ten octets, send ten, clear the inactive-measurement bit, send two packets of one
      octet: the one grant is reported as exhausted three times. */
  lemma RepeatedQuotaReports(s: Session)
    requires s.urrs == map[]
    ensures VolquFor(RunSent(s, [GrantTen(1), SendTen([1]), Reopen(1), Ping(1), Ping(1)]), 1) == 3
  {
    hide Step, StepSent, GrantTen, SendTen, Reopen, Ping, Consumed, Ready, SaveAndDrop, RunSent;
    var c0, c1, c2, p := GrantTen(1), SendTen([1]), Reopen(1), Ping(1);
    var s1 := Step(s, c0);
    var s2 := Step(s1, c1);
    var s3 := Step(s2, c2);
    var s4 := Step(s3, p);
    GrantStep(s, 1);
    GrantedIsReady();
    SpendStep(s1, 1);
    ReopenStep(s2, 1, 10);
    PingStep(s3, 1, 10);
    PingStep(s4, 1, 11);
    TwoSent(s3, p, p, 1);
    SentCons(s2, c2, [p, p], 1);
    SentCons(s1, c1, [c2] + [p, p], 1);
    SentCons(s, c0, [c1] + ([c2] + [p, p]), 1);
    assert [c0] + ([c1] + ([c2] + [p, p])) == [c0, c1, c2, p, p];
  }

  /** The packet whose report is lost. */
  lemma LostPacket(s: Session)
    requires 1 in s.urrs && 2 in s.urrs && Ready(s.urrs[1]) && Triggerless(s.urrs[2])
    ensures
      var out := OnPacket(s, [1, 2], TEN);
      && out.sent == [] && out.session.actions == SaveAndDrop(NodesOf(s, 1), s.actions).1
      && 1 in out.session.urrs && out.session.urrs[1].exhausted && out.session.urrs[1].inam
  {
    hide Ready, Measure, Emit, SaveAndDrop, Triggerless, Loop;
    var ids := [1, 2];
    assert ids[..1] == [1] && ids[..2] == ids && ids[1] == 2;
    LoopOfOne(s, 1, TEN);
    VisitReady(s, 1);
    LoopTurn(s, ids, TEN, 1);
  }

  lemma SilentAfter(s: Session, ps: seq<Command>, id: nat)
    requires id in s.urrs && s.urrs[id].exhausted && s.urrs[id].inam && PacketsOnly(ps)
    ensures VolquFor(RunSent(s, ps), id) == 0
  {
    hide RunAll, RunSent;
    forall i | 0 <= i < |ps| ensures Quiet(ps[i], id) && !Reopens(RunAll(s, ps[..i]), ps[i], id) {}
    QuotaAtMostOnce(s, ps, id);
  }

  lemma OneNodeDrops(n: Node, actions: map<Ref, nat>)
    requires HasAction(n, actions)
    ensures SaveAndDrop([n], actions) == ([Saved(n.pdrId, actions[n.far.value])], actions[n.far.value := DROP])
  {
    assert [n][..0] == [];
    assert SaveAndDrop([], actions) == ([], actions);
    assert [] + [Saved(n.pdrId, actions[n.far.value])] == [Saved(n.pdrId, actions[n.far.value])];
  }

  lemma OneNodeRestores(n: Node, action: nat, actions: map<Ref, nat>)
    requires HasAction(n, actions)
    ensures Restore([n], [Saved(n.pdrId, action)], actions) == actions[n.far.value := action]
  {
    assert [n][..0] == [];
    assert Restore([], [Saved(n.pdrId, action)], actions) == actions;
    assert Recall([Saved(n.pdrId, action)], n.pdrId) == Some(action);
  }

  /** Ten octets for a PDR whose second URR measures without trigger exhaust the quota of the
      first one.  Its FAR drops from then on, and no report is sent by this or any later
      packet. */
  lemma LostQuotaReport(s: Session, ps: seq<Command>)
    requires s == Session(map[], map[7 := 2], map[1 := [Node(10, Some(7))]]) && PacketsOnly(ps)
    ensures
      var e := RunAll(s, [GrantTen(1), NoTriggers(2)]);
      var p := SendTen([1, 2]);
      && StepSent(e, p) == [] && Step(e, p).actions == map[7 := DROP]
      && VolquFor(RunSent(Step(e, p), ps), 1) == 0
  {
    hide Ready, Step, StepSent, SaveAndDrop, RunAll, RunSent, Triggerless;
    hide GrantTen, NoTriggers, SendTen, GRANTED, BLANK;
    var s1 := Step(s, GrantTen(1));
    var e := Step(s1, NoTriggers(2));
    GrantStep(s, 1);
    GrantedIsReady();
    NoTriggersStep(s1, 2);
    OneNodeDrops(Node(10, Some(7)), s.actions);
    assert map[7 := 2][7 := DROP] == map[7 := DROP];
    TwoCommands(s, GrantTen(1), NoTriggers(2));
    LostStep(e);
    SilentAfter(Step(e, SendTen([1, 2])), ps, 1);
  }

  lemma LostStep(s: Session)
    requires 1 in s.urrs && 2 in s.urrs && Ready(s.urrs[1]) && Triggerless(s.urrs[2])
    ensures
      var s' := Step(s, SendTen([1, 2]));
      && StepSent(s, SendTen([1, 2])) == [] && s'.actions == SaveAndDrop(NodesOf(s, 1), s.actions).1
      && 1 in s'.urrs && s'.urrs[1].exhausted && s'.urrs[1].inam
  {
    hide Ready, OnPacket, SaveAndDrop, Triggerless;
    LostPacket(s);
  }

  lemma TwoCommands(s: Session, a: Command, b: Command)
    ensures RunAll(s, [a, b]) == Step(Step(s, a), b)
  {
    hide Step;
    assert [a, b][..1] == [a] && [a][..0] == [];
    assert RunAll(s, []) == s && RunAll(s, [a]) == Step(s, a);
  }

  /** Two URRs of two PDRs with one FAR.  Both are spent and then granted again in the same
      order: the FAR forwards while the second URR is still exhausted, and drops for good when
      neither is. */
  lemma SharedFarDropsForGood(s: Session)
    requires s == Session(map[], map[7 := 2], map[1 := [Node(10, Some(7))], 2 := [Node(11, Some(7))]])
    ensures
      var cs := [GrantTen(1), GrantTen(2), SendTen([1]), SendTen([2]), GrantTen(1)];
      var e, f := RunAll(s, cs), RunAll(s, cs + [GrantTen(2)]);
      && e.actions == map[7 := 2] && 2 in e.urrs && e.urrs[2].exhausted
      && f.actions == map[7 := DROP] && f.urrs.Keys == {1, 2} && !f.urrs[1].exhausted && !f.urrs[2].exhausted
  {
    hide Step, Ready, SaveAndDrop, Restore, GrantTen, SendTen, RunAll, GRANTED;
    var s1 := Step(s, GrantTen(1));
    var s2 := Step(s1, GrantTen(2));
    var s3 := Step(s2, SendTen([1]));
    var s4 := Step(s3, SendTen([2]));
    var s5 := Step(s4, GrantTen(1));
    BothGranted(s);
    BothSpent(s2);
    RegrantStep(s4, 1);
    OneNodeRestores(Node(10, Some(7)), 2, map[7 := DROP]);
    assert map[7 := DROP][7 := 2] == map[7 := 2];
    RegrantStep(s5, 2);
    OneNodeRestores(Node(11, Some(7)), DROP, map[7 := 2]);
    assert map[7 := 2][7 := DROP] == map[7 := DROP];
    SixCommands(s, [GrantTen(1), GrantTen(2), SendTen([1]), SendTen([2]), GrantTen(1)], GrantTen(2));
  }

  lemma BothGranted(s: Session)
    requires s.urrs == map[]
    ensures
      var s' := Step(Step(s, GrantTen(1)), GrantTen(2));
      s' == s.(urrs := map[1 := GRANTED, 2 := GRANTED]) && Ready(GRANTED)
  {
    hide Step, Ready, GrantTen, GRANTED;
    GrantStep(s, 1);
    GrantStep(Step(s, GrantTen(1)), 2);
    GrantedIsReady();
  }

  lemma BothSpent(s: Session)
    requires s.actions == map[7 := 2] && s.nodes == map[1 := [Node(10, Some(7))], 2 := [Node(11, Some(7))]]
    requires s.urrs.Keys == {1, 2} && Ready(s.urrs[1]) && Ready(s.urrs[2])
    ensures
      var s' := Step(Step(s, SendTen([1])), SendTen([2]));
      && s'.actions == map[7 := DROP] && s'.nodes == s.nodes && s'.urrs.Keys == {1, 2}
      && s'.urrs[1].exhausted && s'.urrs[1].saved == [Saved(10, 2)]
      && s'.urrs[2].exhausted && s'.urrs[2].saved == [Saved(11, DROP)]
  {
    hide Step, Ready, SendTen, SaveAndDrop;
    OneNodeDrops(Node(10, Some(7)), map[7 := 2]);
    OneNodeDrops(Node(11, Some(7)), map[7 := DROP]);
    assert map[7 := 2][7 := DROP] == map[7 := DROP] && map[7 := DROP][7 := DROP] == map[7 := DROP];
    var s1 := Step(s, SendTen([1]));
    SpendStep(s, 1);
    SpendStep(s1, 2);
  }

  lemma SixCommands(s: Session, cs: seq<Command>, c: Command)
    requires |cs| == 5
    ensures
      var e := Step(Step(Step(Step(Step(s, cs[0]), cs[1]), cs[2]), cs[3]), cs[4]);
      RunAll(s, cs) == e && RunAll(s, cs + [c]) == Step(e, c)
  {
    hide Step;
    RunSnocIs(s, cs, c);
    assert cs[..4][..3] == cs[..3] && cs[..3][..2] == cs[..2] && cs[..2][..1] == cs[..1] && cs[..1][..0] == [];
    assert RunAll(s, []) == s;
    assert RunAll(s, cs[..1]) == Step(s, cs[0]);
    assert RunAll(s, cs[..2]) == Step(RunAll(s, cs[..1]), cs[1]);
    assert RunAll(s, cs[..3]) == Step(RunAll(s, cs[..2]), cs[2]);
    assert RunAll(s, cs[..4]) == Step(RunAll(s, cs[..3]), cs[3]);
  }

  /** EXHAUST AND REVERSE BY COMMANDS.  A grant of nothing and a grant of ten octets to a new URR
      are one exhaust and one reverse action: `Cycle` says what becomes of the FARs. */
  lemma GrantCycle(s: Session, id: nat)
    requires s.urrs == map[]
    ensures RunAll(s, [GrantNothing(id), GrantTen(id)]).actions == Cycle(NodesOf(s, id), s.actions)
  {
    hide Step, GrantNothing, GrantTen, SaveAndDrop, Restore, RunAll;
    NothingStep(s, id);
    RegrantStep(Step(s, GrantNothing(id)), id);
    TwoCommands(s, GrantNothing(id), GrantTen(id));
  }

  /** Two PDRs with one forwarding FAR, or one PDR met twice: the FAR keeps dropping. */
  lemma SharedFarStaysDropped(s: Session, other: nat)
    requires s == Session(map[], map[7 := 2], map[1 := [Node(10, Some(7)), Node(other, Some(7))]])
    ensures RunAll(s, [GrantNothing(1), GrantTen(1)]).actions == map[7 := DROP]
  {
    hide RunAll, Cycle, Uses, BackTo, LastUser, LastWithId;
    GrantCycle(s, 1);
    var nodes := NodesOf(s, 1);
    assert nodes[0].far == Some(7) && nodes[1].far == Some(7);
    SharedIsUsed(nodes, 0, 1, 7);
    BackToOwn(nodes, s.actions, 7);
    CycleIs(nodes, s.actions);
    assert Cycle(nodes, s.actions).Keys == {7};
  }

  lemma SharedIsUsed(nodes: seq<Node>, i: nat, j: nat, f: Ref)
    requires i < j < |nodes| && nodes[i].far == Some(f) && nodes[j].far == Some(f)
    ensures Uses(nodes, f) && Shared(nodes, f)
  {}

  /** PDRs of two sessions with one id, met in one bucket: the first FAR comes back with the
      action of the second. */
  lemma ForeignActionRestored(s: Session)
    requires s == Session(map[], map[7 := 2, 8 := 4], map[1 := [Node(10, Some(7)), Node(10, Some(8))]])
    ensures RunAll(s, [GrantNothing(1), GrantTen(1)]).actions == map[7 := 4, 8 := 4]
  {
    hide RunAll, Cycle, Uses, BackTo, LastUser, LastWithId;
    GrantCycle(s, 1);
    SecondOfTwo(10, 7, 8, s.actions);
    CycleIs(NodesOf(s, 1), s.actions);
    var r := Cycle(NodesOf(s, 1), s.actions);
    assert r.Keys == {7, 8} && r[7] == 4 && r[8] == 4;
  }
}
