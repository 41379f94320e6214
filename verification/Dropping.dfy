/** How long a FAR drops: the quota actions of `urr.c` over whole runs, and the deletion of an
    exhausted URR (`genl_urr.c`). */
module Dropping {
  import opened Base
  import opened Rules
  import opened Meter
  import opened Quota
  import opened Usage
  import opened QuotaWitnesses

  /** The action a reverse action gives to `f`, if it gives one: that recalled at the last node
      which uses `f` and has an entry. */
  function Returns(nodes: seq<Node>, saved: seq<Saved>, f: Ref): Option<nat>
    decreases |nodes|
  {
    if nodes == [] then None
    else
      var n := nodes[|nodes| - 1];
      if n.far == Some(f) && Recall(saved, n.pdrId).Some? then Recall(saved, n.pdrId)
      else Returns(nodes[..|nodes| - 1], saved, f)
  }

  lemma {:induction false} RestoreIs(nodes: seq<Node>, saved: seq<Saved>, actions: map<Ref, nat>, f: Ref)
    requires f in actions
    ensures
      var r := Returns(nodes, saved, f);
      Restore(nodes, saved, actions)[f] == if r.Some? then r.value else actions[f]
    decreases |nodes|
  {
    if nodes != [] { RestoreIs(nodes[..|nodes| - 1], saved, actions, f); }
  }

  lemma {:induction false} ReturnsFrom(nodes: seq<Node>, saved: seq<Saved>, f: Ref)
    requires Returns(nodes, saved, f).Some?
    ensures exists i :: 0 <= i < |nodes| && nodes[i].far == Some(f)
                        && Recall(saved, nodes[i].pdrId) == Returns(nodes, saved, f)
    decreases |nodes|
  {
    var n := |nodes| - 1;
    if nodes[n].far == Some(f) && Recall(saved, nodes[n].pdrId).Some? {
    } else {
      ReturnsFrom(nodes[..n], saved, f);
      var i :| 0 <= i < n && nodes[..n][i].far == Some(f)
               && Recall(saved, nodes[..n][i].pdrId) == Returns(nodes[..n], saved, f);
      assert nodes[i] == nodes[..n][i];
    }
  }

  /** What an exhaust action saves for a FAR that drops already. */
  lemma SavedWhileDropping(nodes: seq<Node>, actions: map<Ref, nat>, f: Ref)
    requires FarsKnown(nodes, actions) && IdsName(nodes) && f in actions && actions[f] == DROP
    ensures Returns(nodes, SaveAndDrop(nodes, actions).0, f) in {None, Some(DROP)}
  {
    var saved := SaveAndDrop(nodes, actions).0;
    if Returns(nodes, saved, f).Some? {
      ReturnsFrom(nodes, saved, f);
      var i :| 0 <= i < |nodes| && nodes[i].far == Some(f) && Recall(saved, nodes[i].pdrId) == Returns(nodes, saved, f);
      SavedFor(nodes, actions, nodes[i].pdrId);
      var j := LastWithId(nodes, nodes[i].pdrId).value;
      assert nodes[j].far == nodes[i].far;
    }
  }

  // ---------- the invariant ----------

  /** No exhausted URR remembers another action than drop for `f`. */
  ghost predicate Forgotten(s: Session, f: Ref) {
    forall x :: x in s.urrs && s.urrs[x].exhausted ==> Returns(NodesOf(s, x), s.urrs[x].saved, f) in {None, Some(DROP)}
  }

  /** `f` drops and nobody will lift it. */
  ghost predicate StaysDown(s: Session, f: Ref) { f in s.actions && s.actions[f] == DROP && Forgotten(s, f) }

  /** PDR ids stand for one FAR each, and all FARs are known. */
  ghost predicate Tidy(s: Session) {
    forall x :: x in s.nodes ==> IdsName(s.nodes[x]) && FarsKnown(s.nodes[x], s.actions)
  }

  lemma TidyNodes(s: Session, x: nat)
    requires Tidy(s)
    ensures IdsName(NodesOf(s, x)) && FarsKnown(NodesOf(s, x), s.actions)
  {}

  /** The same actions and links, and no URR exhausted that was not. */
  ghost predicate SameBooks(s: Session, s': Session) {
    && s'.actions == s.actions && s'.nodes == s.nodes
    && forall x :: x in s'.urrs && s'.urrs[x].exhausted ==>
         x in s.urrs && s.urrs[x].exhausted && s'.urrs[x].saved == s.urrs[x].saved
  }

  lemma BooksKeep(s: Session, s': Session, f: Ref)
    requires SameBooks(s, s') && StaysDown(s, f) && Tidy(s)
    ensures StaysDown(s', f) && Tidy(s')
  {
    hide Returns, IdsName, FarsKnown;
    forall x | x in s'.urrs && s'.urrs[x].exhausted
      ensures Returns(NodesOf(s', x), s'.urrs[x].saved, f) in {None, Some(DROP)}
    {
      assert x in s.urrs && NodesOf(s', x) == NodesOf(s, x);
    }
  }

  lemma TidyFrame(s: Session, s': Session)
    requires Tidy(s) && s'.nodes == s.nodes && s'.actions.Keys == s.actions.Keys
    ensures Tidy(s')
  {}

  lemma ExhaustKeeps(s: Session, y: nat, f: Ref)
    requires StaysDown(s, f) && Tidy(s)
    ensures StaysDown(Exhaust(s, y), f) && Tidy(Exhaust(s, y))
  {
    var s' := Exhaust(s, y);
    if y in s.urrs && !s.urrs[y].exhausted {
      var nodes := NodesOf(s, y);
      TidyNodes(s, y);
      DropEffect(nodes, s.actions);
      SavedWhileDropping(nodes, s.actions, f);
      TidyFrame(s, s');
      hide SaveAndDrop, Returns, Uses, Tidy, IdsName, FarsKnown;
      forall x | x in s'.urrs && s'.urrs[x].exhausted
        ensures Returns(NodesOf(s', x), s'.urrs[x].saved, f) in {None, Some(DROP)}
      {
        assert NodesOf(s', x) == NodesOf(s, x);
        if x != y { assert s'.urrs[x] == s.urrs[x]; }
      }
    }
  }

  lemma ReverseKeeps(s: Session, y: nat, f: Ref)
    requires StaysDown(s, f) && Tidy(s)
    ensures StaysDown(Reverse(s, y), f) && Tidy(Reverse(s, y))
  {
    var s' := Reverse(s, y);
    if y in s.urrs && s.urrs[y].exhausted {
      RestoreIs(NodesOf(s, y), s.urrs[y].saved, s.actions, f);
      TidyFrame(s, s');
      hide Restore, Returns, Tidy;
      forall x | x in s'.urrs && s'.urrs[x].exhausted
        ensures Returns(NodesOf(s', x), s'.urrs[x].saved, f) in {None, Some(DROP)}
      {
        assert x != y && NodesOf(s', x) == NodesOf(s, x) && s'.urrs[x] == s.urrs[x];
      }
    }
  }

  // ---------- packets and commands ----------

  lemma MeasureBooks(u: Urr, t: Traffic)
    ensures Measure(u, t).urr.exhausted == u.exhausted && Measure(u, t).urr.saved == u.saved
  {
    hide Record;
  }

  lemma VisitKeepsDown(l: LoopState, x: nat, t: Traffic, f: Ref)
    requires StaysDown(l.session, f) && Tidy(l.session)
    ensures StaysDown(Visit(l, x, t).session, f) && Tidy(Visit(l, x, t).session)
  {
    var s := l.session;
    if x in s.urrs {
      MeasureBooks(s.urrs[x], t);
      var s1 := s.(urrs := s.urrs[x := Measure(s.urrs[x], t).urr]);
      hide Measure;
      assert SameBooks(s, s1);
      hide StaysDown, Tidy, Exhaust, SameBooks;
      BooksKeep(s, s1, f);
      ExhaustKeeps(s1, x, f);
    }
  }

  lemma {:induction false} LoopKeepsDown(s: Session, ids: seq<nat>, t: Traffic, f: Ref)
    requires StaysDown(s, f) && Tidy(s)
    ensures StaysDown(Loop(s, ids, t).session, f) && Tidy(Loop(s, ids, t).session)
    decreases |ids|
  {
    hide StaysDown, Tidy, Visit;
    if ids != [] {
      LoopKeepsDown(s, ids[..|ids| - 1], t, f);
      VisitKeepsDown(Loop(s, ids[..|ids| - 1], t), ids[|ids| - 1], t, f);
    }
  }

  lemma {:induction false} EmitBooks(s: Session, pending: seq<Pending>, now: nat)
    ensures SameBooks(s, Emit(s, pending, now).0)
    decreases |pending|
  {
    hide Record, Snapshot;
    if pending != [] { EmitBooks(s, pending[..|pending| - 1], now); }
  }

  lemma PacketKeepsDown(s: Session, ids: seq<nat>, t: Traffic, f: Ref)
    requires StaysDown(s, f) && Tidy(s)
    ensures StaysDown(OnPacket(s, ids, t).session, f) && Tidy(OnPacket(s, ids, t).session)
  {
    hide StaysDown, Tidy, Loop, Emit, SameBooks;
    var l := Loop(s, ids, t);
    LoopKeepsDown(s, ids, t, f);
    EmitBooks(l.session, l.pending, t.now);
    BooksKeep(l.session, Emit(l.session, l.pending, t.now).0, f);
  }

  lemma FillBooks(s: Session, x: nat, a: UrrAttrs, u: Urr)
    requires u == if x in s.urrs then s.urrs[x] else BLANK
    ensures
      var w := FillFields(u, a);
      && SameBooks(s, s.(urrs := s.urrs[x := w]))
      && (a.quota.Some? ==> SameBooks(s, s.(urrs := s.urrs[x := w.(quota := a.quota.value, consumed := ZERO)])))
  {
    hide Record;
  }

  lemma PutKeepsDown(s: Session, x: nat, a: UrrAttrs, f: Ref)
    requires StaysDown(s, f) && Tidy(s)
    ensures StaysDown(Step(s, Put(x, a)), f) && Tidy(Step(s, Put(x, a)))
  {
    hide StaysDown, Tidy, Exhaust, Reverse, FillFields, SameBooks;
    var u := if x in s.urrs then s.urrs[x] else BLANK;
    var w := FillFields(u, a);
    FillBooks(s, x, a, u);
    var s0 := if x in s.urrs then s else s.(urrs := s.urrs[x := BLANK]);
    assert s0.urrs[x := w] == s.urrs[x := w];
    BooksKeep(s, s.(urrs := s.urrs[x := w]), f);
    if a.quota.Some? {
      var v := w.(quota := a.quota.value, consumed := ZERO);
      var s1 := s.(urrs := s.urrs[x := v]);
      assert s0.urrs[x := v] == s.urrs[x := v];
      BooksKeep(s, s1, f);
      ExhaustKeeps(s1, x, f);
      ReverseKeeps(s1, x, f);
    }
  }

  lemma StepKeepsDown(s: Session, c: Command, f: Ref)
    requires StaysDown(s, f) && Tidy(s) && !c.Rules?
    ensures StaysDown(Step(s, c), f) && Tidy(Step(s, c))
  {
    match c
    case Packet(ids, t) => PacketKeepsDown(s, ids, t, f);
    case Put(x, a) => PutKeepsDown(s, x, a, f);
    case Query(x, now) =>
      assert SameBooks(s, Convert(s, x, now)) by { hide Record; }
      BooksKeep(s, Convert(s, x, now), f);
    case Delete(x, now) =>
      assert SameBooks(s, s.(urrs := s.urrs - {x}));
      BooksKeep(s, s.(urrs := s.urrs - {x}), f);
    hide StaysDown, Tidy, OnPacket, Fill, SameBooks;
  }

  /** No FAR or PDR command. */
  ghost predicate NoRules(cs: seq<Command>) { forall i :: 0 <= i < |cs| ==> !cs[i].Rules? }

  lemma {:induction false} RunKeepsDown(s: Session, cs: seq<Command>, f: Ref)
    requires StaysDown(s, f) && Tidy(s) && NoRules(cs)
    ensures StaysDown(RunAll(s, cs), f)
    ensures Tidy(RunAll(s, cs))
    decreases |cs|
  {
    hide StaysDown, Tidy, Step;
    if cs != [] {
      RunKeepsDown(s, cs[..|cs| - 1], f);
      StepKeepsDown(RunAll(s, cs[..|cs| - 1]), cs[|cs| - 1], f);
    }
  }

  // ---------- for good ----------

  ghost predicate DropsAfter(s: Session, cs: seq<Command>, f: Ref) {
    f in RunAll(s, cs).actions && RunAll(s, cs).actions[f] == DROP
  }

  /** FOR GOOD, EXACTLY.  A FAR drops after every run of packets, requests and URR commands if and
      only if it drops now and no exhausted URR remembers another action for it. */
  lemma DropsForGoodIff(s: Session, f: Ref)
    requires Tidy(s)
    ensures (forall cs :: NoRules(cs) ==> DropsAfter(s, cs, f)) <==> StaysDown(s, f)
  {
    if StaysDown(s, f) {
      forall cs | NoRules(cs) ensures DropsAfter(s, cs, f) { RunKeepsDown(s, cs, f); }
    }
    if forall cs :: NoRules(cs) ==> DropsAfter(s, cs, f) {
      assert RunAll(s, []) == s;
      assert NoRules([]) && DropsAfter(s, [], f);
      forall x | x in s.urrs && s.urrs[x].exhausted
        ensures Returns(NodesOf(s, x), s.urrs[x].saved, f) in {None, Some(DROP)}
      {
        LiftedByGrant(s, x, f);
        assert NoRules([GrantTen(x)]) && DropsAfter(s, [GrantTen(x)], f);
      }
    }
    hide RunAll, Tidy;
  }

  lemma LiftedByGrant(s: Session, x: nat, f: Ref)
    requires x in s.urrs && s.urrs[x].exhausted && f in s.actions
    ensures
      var r := Returns(NodesOf(s, x), s.urrs[x].saved, f);
      var e := RunAll(s, [GrantTen(x)]);
      f in e.actions && e.actions[f] == if r.Some? then r.value else s.actions[f]
  {
    hide Step, Restore, Returns, GrantTen;
    assert [GrantTen(x)][..0] == [];
    assert RunAll(s, []) == s && RunAll(s, [GrantTen(x)]) == Step(s, GrantTen(x));
    RegrantStep(s, x);
    RestoreIs(NodesOf(s, x), s.urrs[x].saved, s.actions, f);
  }

  /** DELETION.  A URR is deleted; a FAR that drops goes on dropping, whatever packets and URR
      commands follow, if and only if no other exhausted URR remembers another action for it:
      the deleted one takes what it remembers with it. */
  lemma DeletionDropsForGoodIff(s: Session, id: nat, now: nat, f: Ref)
    requires Tidy(s) && f in s.actions && s.actions[f] == DROP
    ensures
      var s' := Step(s, Delete(id, now));
      (forall cs :: NoRules(cs) ==> DropsAfter(s', cs, f)) <==>
        forall x :: x in s.urrs && x != id && s.urrs[x].exhausted ==>
                      Returns(NodesOf(s, x), s.urrs[x].saved, f) in {None, Some(DROP)}
  {
    var s' := Step(s, Delete(id, now));
    TidyFrame(s, s');
    DropsForGoodIff(s', f);
    assert forall x :: NodesOf(s', x) == NodesOf(s, x);
    assert forall x :: x in s'.urrs <==> x in s.urrs && x != id;
    hide Returns, DropsAfter, Tidy;
  }

  /** A URR exhausts the FAR of its PDR and is deleted: the FAR drops for good. */
  lemma DeletedUrrDropsForGood(s: Session, cs: seq<Command>)
    requires s == Session(map[], map[7 := 2], map[1 := [Node(10, Some(7))]]) && NoRules(cs)
    ensures
      var e := RunAll(s, [GrantNothing(1), Delete(1, 0)]);
      e.urrs == map[] && e.actions == map[7 := DROP] && DropsAfter(e, cs, 7)
  {
    hide GrantNothing, SaveAndDrop, RunAll;
    var s1 := Step(s, GrantNothing(1));
    NothingStep(s, 1);
    OneNodeDrops(Node(10, Some(7)), s.actions);
    assert map[7 := 2][7 := DROP] == map[7 := DROP];
    TwoCommands(s, GrantNothing(1), Delete(1, 0));
    NothingKeys(s, 1);
    var e := Step(s1, Delete(1, 0));
    assert e.urrs == map[];
    assert Tidy(e) && StaysDown(e, 7);
    RunKeepsDown(e, cs, 7);
  }

  lemma NothingKeys(s: Session, id: nat)
    requires s.urrs == map[]
    ensures Step(s, GrantNothing(id)).urrs.Keys == {id}
  {
    hide SaveAndDrop;
  }
}
