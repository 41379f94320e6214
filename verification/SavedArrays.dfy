/** The arrays in which a URR keeps the saved FAR actions: when the reverse action of `urr.c`
    releases them a second time. */
module SavedArrays {
  import opened Base
  import opened Rules
  import opened Meter
  import opened Quota
  import opened Usage
  import Reports
  import opened QuotaReports
  import opened QuotaWitnesses

  /** The URR is exhausted and has saved something. */
  predicate Holds(u: Urr) { u.exhausted && u.saved != [] }

  ghost predicate ArraysRight(u: Urr) { u.arrays == Held <==> Holds(u) }

  /** From `u` to `w` arrays are allocated exactly when `w` holds something, and none is
      forgotten. */
  ghost predicate Follows(u: Urr, w: Urr) {
    ArraysRight(w) && (w.arrays != NoArrays <==> u.arrays != NoArrays || Holds(w))
  }

  /** Measuring and exhausting: a URR that holds something keeps it. */
  ghost predicate Keeps(u: Urr, w: Urr) { Follows(u, w) && (Holds(u) ==> Holds(w)) }

  lemma VisitKeepsArrays(l: LoopState, x: nat, t: Traffic, id: nat)
    requires id in l.session.urrs && ArraysRight(l.session.urrs[id])
    ensures
      var s' := Visit(l, x, t).session;
      id in s'.urrs && Keeps(l.session.urrs[id], s'.urrs[id])
  {
    if x != id {
      VisitOther(l, x, t, id);
    } else {
      MeasureKeepsArrays(l.session.urrs[id], t);
    }
    hide Measure, SaveAndDrop, Triggerless;
  }

  lemma MeasureKeepsArrays(u: Urr, t: Traffic)
    ensures
      var w := Measure(u, t).urr;
      w.exhausted == u.exhausted && w.saved == u.saved && w.arrays == u.arrays
  {
    hide Record;
  }

  lemma {:induction false} LoopKeepsArrays(s: Session, ids: seq<nat>, t: Traffic, id: nat)
    requires id in s.urrs && ArraysRight(s.urrs[id])
    ensures
      var s' := Loop(s, ids, t).session;
      id in s'.urrs && Keeps(s.urrs[id], s'.urrs[id])
    decreases |ids|
  {
    hide Visit;
    if ids != [] {
      LoopKeepsArrays(s, ids[..|ids| - 1], t, id);
      VisitKeepsArrays(Loop(s, ids[..|ids| - 1], t), ids[|ids| - 1], t, id);
    }
  }

  lemma StepFollows(s: Session, c: Command, id: nat)
    requires id in s.urrs ==> ArraysRight(s.urrs[id])
    ensures
      var s' := Step(s, c);
      id in s'.urrs ==> Follows(if id in s.urrs then s.urrs[id] else BLANK, s'.urrs[id])
  {
    hide OnPacket, Fill, Record, Follows, ArraysRight;
    match c
    case Packet(ids, t) => PacketFollows(s, ids, t, id);
    case Put(x, a) => PutFollows(s, x, a, id);
    case Query(x, now) => if id in s.urrs { SameFollows(s.urrs[id], Convert(s, x, now).urrs[id]); }
    case Delete(x, now) => if id in s.urrs { SameFollows(s.urrs[id], s.urrs[id]); }
    case Rules(_, _) => if id in s.urrs { SameFollows(s.urrs[id], s.urrs[id]); }
  }

  lemma SameFollows(u: Urr, w: Urr)
    requires ArraysRight(u) && w.arrays == u.arrays && w.saved == u.saved && w.exhausted == u.exhausted
    ensures Follows(u, w)
  {}

  lemma PutFollows(s: Session, x: nat, a: UrrAttrs, id: nat)
    requires id in s.urrs ==> ArraysRight(s.urrs[id])
    ensures
      var s' := Step(s, Put(x, a));
      id in s'.urrs ==> Follows(if id in s.urrs then s.urrs[id] else BLANK, s'.urrs[id])
  {
    var s0 := if x in s.urrs then s else s.(urrs := s.urrs[x := BLANK]);
    hide SaveAndDrop, Restore, FillFields, Exhaust, Reverse;
    if x == id {
      FillFollows(s0, x, a);
    } else {
      FillOther(s0, x, a, id);
      if id in s.urrs { SameFollows(s.urrs[id], s.urrs[id]); }
    }
  }

  lemma FillOther(s: Session, x: nat, a: UrrAttrs, id: nat)
    requires x in s.urrs && x != id
    ensures
      var s' := Fill(s, x, a);
      (id in s'.urrs <==> id in s.urrs) && (id in s.urrs ==> s'.urrs[id] == s.urrs[id])
  {
    hide SaveAndDrop, Restore, FillFields;
  }

  lemma FillFollows(s: Session, x: nat, a: UrrAttrs)
    requires x in s.urrs && ArraysRight(s.urrs[x])
    ensures x in Fill(s, x, a).urrs && Follows(s.urrs[x], Fill(s, x, a).urrs[x])
  {
    FillFieldsArrays(s.urrs[x], a);
    hide FillFields, Exhaust, Reverse;
    var u := FillFields(s.urrs[x], a);
    if a.quota.Some? { ActionFollows(s.(urrs := s.urrs[x := u.(quota := a.quota.value, consumed := ZERO)]), x); }
  }

  lemma FillFieldsArrays(u: Urr, a: UrrAttrs)
    ensures
      var w := FillFields(u, a);
      w.exhausted == u.exhausted && w.saved == u.saved && w.arrays == u.arrays
  {
    hide Apply;
  }

  lemma ActionFollows(s: Session, id: nat)
    requires id in s.urrs && ArraysRight(s.urrs[id])
    ensures id in Exhaust(s, id).urrs && Follows(s.urrs[id], Exhaust(s, id).urrs[id])
    ensures id in Reverse(s, id).urrs && Follows(s.urrs[id], Reverse(s, id).urrs[id])
  {
    hide SaveAndDrop, Restore;
  }

  lemma PacketFollows(s: Session, ids: seq<nat>, t: Traffic, id: nat)
    requires id in s.urrs ==> ArraysRight(s.urrs[id])
    ensures
      var s' := OnPacket(s, ids, t).session;
      (id in s'.urrs <==> id in s.urrs) && (id in s.urrs ==> Follows(s.urrs[id], s'.urrs[id]))
  {
    hide Loop, Emit;
    Reports.PacketReports(s, ids, t, id);
    if id in s.urrs {
      LoopKeepsArrays(s, ids, t, id);
      var l := Loop(s, ids, t);
      EmitKeepsFlags(l.session, l.pending, t.now, id);
    }
  }

  /** Since it was created, the URR has been exhausted with something to save. */
  predicate HasHeld(s: Session, cs: seq<Command>, id: nat)
    decreases |cs|
  {
    cs != [] &&
    var e := RunAll(s, cs);
    id in e.urrs && (HasHeld(s, cs[..|cs| - 1], id) || Holds(e.urrs[id]))
  }

  lemma {:induction false} RunArrays(s: Session, cs: seq<Command>, id: nat)
    requires s.urrs == map[]
    ensures
      var e := RunAll(s, cs);
      && (HasHeld(s, cs, id) ==> id in e.urrs)
      && (id in e.urrs ==> ArraysRight(e.urrs[id]) && (e.urrs[id].arrays != NoArrays <==> HasHeld(s, cs, id)))
    decreases |cs|
  {
    hide Step, ArraysRight;
    if cs != [] {
      var n := |cs| - 1;
      RunArrays(s, cs[..n], id);
      StepFollows(RunAll(s, cs[..n]), cs[n], id);
    }
  }

  /** The reverse action of the driver would free arrays that are freed already. */
  predicate FreesTwice(s: Session, id: nat) {
    id in s.urrs && s.urrs[id].exhausted && s.urrs[id].arrays == Freed
  }

  /** RELEASED ONCE, EXACTLY.  In every run the reverse action of an exhausted URR releases its
      arrays at most once, except exactly when the exhaustion had nothing to save and an
      earlier one of the same URR had. */
  lemma FreesTwiceIff(s: Session, cs: seq<Command>, id: nat)
    requires s.urrs == map[]
    ensures
      var e := RunAll(s, cs);
      FreesTwice(e, id) <==> id in e.urrs && e.urrs[id].exhausted && e.urrs[id].saved == [] && HasHeld(s, cs, id)
  {
    RunArrays(s, cs, id);
    hide RunAll, HasHeld;
  }

  /** A related PDR makes the first exhaustion save something; it is removed, and the next
      exhaustion saves nothing.  The grant that reverses it would free the arrays again. */
  lemma FreedTwice(s: Session)
    requires s == Session(map[], map[7 := 2], map[1 := [Node(10, Some(7))]])
    ensures FreesTwice(RunAll(s, [GrantNothing(1), GrantTen(1), Command.Rules(map[7 := 2], map[]), GrantNothing(1)]), 1)
  {
    hide GrantNothing, GrantTen, SaveAndDrop, Restore, RunAll;
    var c0, c1, c2 := GrantNothing(1), GrantTen(1), Command.Rules(map[7 := 2], map[]);
    OneNodeDrops(Node(10, Some(7)), s.actions);
    var s1 := Step(s, c0);
    NothingStep(s, 1);
    var s2 := Step(s1, c1);
    RegrantStep(s1, 1);
    var s3 := Step(s2, c2);
    assert s3 == s2.(actions := map[7 := 2], nodes := map[]);
    assert SaveAndDrop([], map[7 := 2]) == ([], map[7 := 2]) by { NoNodes(map[7 := 2]); }
    NothingStep(s3, 1);
    TwoCommands(s, c0, c1);
    RunSnocIs(s, [c0, c1], c2);
    RunSnocIs(s, [c0, c1] + [c2], c0);
    assert [c0, c1] + [c2] + [c0] == [c0, c1, c2, c0];
  }

  lemma NoNodes(actions: map<Ref, nat>)
    ensures SaveAndDrop([], actions) == ([], actions)
  {}
}
