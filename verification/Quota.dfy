/** URRs of a session, and the quota actions of `urr.c` that switch the FARs of their
    related PDRs to dropping and back. */
module Quota {
  import opened Base
  import opened Rules
  import opened Meter

  const DROP: nat := 1

  /** Report triggers of a URR, as far as the driver tells them apart. */
  datatype Triggers = Triggers(start: bool, volth: bool, volqu: bool, other: bool) {
    predicate IsZero() { !start && !volth && !volqu && !other }
    predicate OnlyStart() { start && !volth && !volqu && !other }
    predicate OnlyVolqu() { volqu && !start && !volth && !other }
  }

  /** `struct Volume`: limits with the flags that enable them. */
  datatype Limit = Limit(total: nat, ul: nat, dl: nat, tovol: bool, ulvol: bool, dlvol: bool)

  datatype Saved = Saved(pdrId: nat, action: nat)

  /** The arrays that hold the saved entries: never allocated, held, or freed with the pointers
      to them left in the URR. */
  datatype Arrays = NoArrays | Held | Freed

  /** A URR; `history` and `reported` record what happened to its counters. */
  datatype Urr = Urr(
    volumeMethod: bool, triggers: Triggers, period: nat,
    inam: bool, mbqe: bool, mnop: bool,
    threshold: Limit, quota: Limit,
    counters: Counters, consumed: Volumes,
    exhausted: bool, saved: seq<Saved>, arrays: Arrays,
    history: seq<Event>, reported: seq<Volumes>)

  /** A node of the related-URR bucket whose PDR names the URR. */
  datatype Node = Node(pdrId: nat, far: Option<Ref>)

  /** URRs, FAR actions, and per URR the related PDRs that name it. */
  datatype Session = Session(urrs: map<nat, Urr>, actions: map<Ref, nat>, nodes: map<nat, seq<Node>>)

  // ---------- quota actions ----------

  predicate HasAction(n: Node, actions: map<Ref, nat>) { n.far.Some? && n.far.value in actions }

  /** The saving loop of `urr_quota_exhaust_action`. */
  function SaveAndDrop(nodes: seq<Node>, actions: map<Ref, nat>): (seq<Saved>, map<Ref, nat>)
    decreases |nodes|
  {
    if nodes == [] then ([], actions)
    else
      var (saved, acts) := SaveAndDrop(nodes[..|nodes| - 1], actions);
      var n := nodes[|nodes| - 1];
      if HasAction(n, acts)
      then (saved + [Saved(n.pdrId, acts[n.far.value])], acts[n.far.value := DROP])
      else (saved, acts)
  }

  /** The last saved action of a PDR id wins. */
  function Recall(saved: seq<Saved>, pdrId: nat): Option<nat>
    decreases |saved|
  {
    if saved == [] then None
    else if saved[|saved| - 1].pdrId == pdrId then Some(saved[|saved| - 1].action)
    else Recall(saved[..|saved| - 1], pdrId)
  }

  /** The restoring loops of `urr_reverse_quota_exhaust_action`. */
  function Restore(nodes: seq<Node>, saved: seq<Saved>, actions: map<Ref, nat>): (r: map<Ref, nat>)
    ensures r.Keys == actions.Keys
    decreases |nodes|
  {
    if nodes == [] then actions
    else
      var acts := Restore(nodes[..|nodes| - 1], saved, actions);
      var n := nodes[|nodes| - 1];
      var a := Recall(saved, n.pdrId);
      if HasAction(n, acts) && a.Some? then acts[n.far.value := a.value] else acts
  }

  function NodesOf(s: Session, id: nat): seq<Node> { if id in s.nodes then s.nodes[id] else [] }

  /** New arrays are allocated only if there is something to save. */
  function ArraysAfterSave(u: Urr, saved: seq<Saved>): Arrays { if saved != [] then Held else u.arrays }

  function ArraysAfterFree(u: Urr): Arrays { if u.arrays == NoArrays then NoArrays else Freed }

  function Exhaust(s: Session, id: nat): Session {
    if id !in s.urrs || s.urrs[id].exhausted then s
    else
      var u := s.urrs[id];
      var (saved, acts) := SaveAndDrop(NodesOf(s, id), s.actions);
      s.(actions := acts,
         urrs := s.urrs[id := u.(saved := saved, arrays := ArraysAfterSave(u, saved), inam := true, exhausted := true)])
  }

  function Reverse(s: Session, id: nat): Session {
    if id !in s.urrs || !s.urrs[id].exhausted then s
    else
      var u := s.urrs[id];
      s.(actions := Restore(NodesOf(s, id), u.saved, s.actions),
         urrs := s.urrs[id := u.(exhausted := false, arrays := ArraysAfterFree(u))])
  }

  function ExhaustTimes(s: Session, id: nat, n: nat): Session {
    if n == 0 then s else Exhaust(ExhaustTimes(s, id, n - 1), id)
  }

  // ---------- what exhausting does ----------

  /** Every FAR pointer of a related PDR points to a FAR. */
  ghost predicate FarsKnown(nodes: seq<Node>, actions: map<Ref, nat>) {
    forall i :: 0 <= i < |nodes| && nodes[i].far.Some? ==> nodes[i].far.value in actions
  }

  /** `f` is the FAR of one of the nodes. */
  ghost predicate Uses(nodes: seq<Node>, f: Ref) { exists i :: 0 <= i < |nodes| && nodes[i].far == Some(f) }

  /** `f` is the FAR of two different nodes. */
  ghost predicate Shared(nodes: seq<Node>, f: Ref) {
    exists i, j :: 0 <= i < j < |nodes| && nodes[i].far == Some(f) && nodes[j].far == Some(f)
  }

  /** The actions after the FARs of the nodes were set to drop. */
  ghost function Dropped(nodes: seq<Node>, actions: map<Ref, nat>): map<Ref, nat> {
    map f | f in actions :: if Uses(nodes, f) then DROP else actions[f]
  }

  lemma UsesSnoc(nodes: seq<Node>, f: Ref)
    requires nodes != []
    ensures Uses(nodes, f) <==> Uses(nodes[..|nodes| - 1], f) || nodes[|nodes| - 1].far == Some(f)
  {
    var rest := nodes[..|nodes| - 1];
    if i :| 0 <= i < |rest| && rest[i].far == Some(f) { assert nodes[i].far == Some(f); }
    if i :| 0 <= i < |nodes| && nodes[i].far == Some(f) {
      if i < |rest| { assert rest[i].far == Some(f); }
    }
  }

  lemma {:induction false} DropEffect(nodes: seq<Node>, actions: map<Ref, nat>)
    requires FarsKnown(nodes, actions)
    ensures SaveAndDrop(nodes, actions).1 == Dropped(nodes, actions)
    decreases |nodes|
  {
    if nodes != [] {
      var rest, n := nodes[..|nodes| - 1], nodes[|nodes| - 1];
      DropEffect(rest, actions);
      forall f: Ref ensures Uses(nodes, f) <==> Uses(rest, f) || n.far == Some(f) { UsesSnoc(nodes, f); }
    }
  }

  /** Entries of the arrays in which the exhaust action saves ids and actions. */
  const MAX_SAVED: nat := 255

  function FarNodes(nodes: seq<Node>): nat
    decreases |nodes|
  {
    if nodes == [] then 0 else FarNodes(nodes[..|nodes| - 1]) + (if nodes[|nodes| - 1].far.Some? then 1 else 0)
  }

  /** The arrays suffice exactly when fewer than 255 of the nodes before the last one have a
      FAR: every node is first written to the slot behind the saved ones. */
  lemma SavesFitIff(nodes: seq<Node>, actions: map<Ref, nat>)
    requires FarsKnown(nodes, actions) && nodes != []
    ensures (forall i :: 0 <= i < |nodes| ==> |SaveAndDrop(nodes[..i], actions).0| < 255) <==>
            FarNodes(nodes[..|nodes| - 1]) < 255
  {
    var n := |nodes| - 1;
    forall i | 0 <= i <= n
      ensures |SaveAndDrop(nodes[..i], actions).0| == FarNodes(nodes[..i]) <= FarNodes(nodes[..n])
    {
      SavedSize(nodes[..i], actions);
      FarNodesGrow(nodes[..n], i);
      assert nodes[..n][..i] == nodes[..i];
    }
    hide SaveAndDrop, FarNodes;
  }

  /** The exhaust loop writes behind the arrays. */
  function SaveOverruns(nodes: seq<Node>, actions: map<Ref, nat>): bool
    decreases |nodes|
  {
    nodes != [] &&
    var rest := nodes[..|nodes| - 1];
    SaveOverruns(rest, actions) || |SaveAndDrop(rest, actions).0| >= MAX_SAVED
  }

  lemma {:induction false} SaveOverrunsIff(nodes: seq<Node>, actions: map<Ref, nat>)
    requires FarsKnown(nodes, actions)
    ensures SaveOverruns(nodes, actions) <==> nodes != [] && FarNodes(nodes[..|nodes| - 1]) >= 255
    decreases |nodes|
  {
    if nodes != [] {
      var rest := nodes[..|nodes| - 1];
      SaveOverrunsIff(rest, actions);
      SavedSize(rest, actions);
      if rest != [] { FarNodesGrow(rest, |rest| - 1); }
    }
  }

  /** So more than 255 PDRs with FARs are too many. */
  lemma TooManyPdrs(nodes: seq<Node>, actions: map<Ref, nat>)
    requires FarsKnown(nodes, actions) && |nodes| > 255 && forall i :: 0 <= i < |nodes| ==> nodes[i].far.Some?
    ensures exists i :: 0 <= i < |nodes| && |SaveAndDrop(nodes[..i], actions).0| >= 255
  {
    SavesFitIff(nodes, actions);
    AllHaveFars(nodes[..|nodes| - 1]);
    hide SaveAndDrop, FarNodes;
  }

  lemma {:induction false} AllHaveFars(nodes: seq<Node>)
    requires forall i :: 0 <= i < |nodes| ==> nodes[i].far.Some?
    ensures FarNodes(nodes) == |nodes|
    decreases |nodes|
  {
    if nodes != [] { AllHaveFars(nodes[..|nodes| - 1]); }
  }

  lemma {:induction false} SavedSize(nodes: seq<Node>, actions: map<Ref, nat>)
    requires FarsKnown(nodes, actions)
    ensures |SaveAndDrop(nodes, actions).0| == FarNodes(nodes)
    decreases |nodes|
  {
    if nodes != [] {
      SavedSize(nodes[..|nodes| - 1], actions);
      DropEffect(nodes[..|nodes| - 1], actions);
    }
  }

  lemma {:induction false} FarNodesGrow(nodes: seq<Node>, i: nat)
    requires i <= |nodes|
    ensures FarNodes(nodes[..i]) <= FarNodes(nodes)
    decreases |nodes|
  {
    if i < |nodes| {
      assert nodes[..|nodes| - 1][..i] == nodes[..i];
      FarNodesGrow(nodes[..|nodes| - 1], i);
    } else {
      assert nodes[..i] == nodes;
    }
  }

  // ---------- what reversing does ----------

  /** The last node that uses `f`. */
  ghost function LastUser(nodes: seq<Node>, f: Ref): (r: Option<nat>)
    ensures r.None? <==> !Uses(nodes, f)
    ensures r.Some? ==> r.value < |nodes| && nodes[r.value].far == Some(f)
    ensures r.Some? ==> forall j :: r.value < j < |nodes| ==> nodes[j].far != Some(f)
    decreases |nodes|
  {
    if nodes == [] then None
    else
      UsesSnoc(nodes, f);
      if nodes[|nodes| - 1].far == Some(f) then Some(|nodes| - 1) else LastUser(nodes[..|nodes| - 1], f)
  }

  /** The last node of a PDR with this id that has a FAR. */
  ghost function LastWithId(nodes: seq<Node>, pdrId: nat): (r: Option<nat>)
    ensures r.Some? ==> r.value < |nodes| && nodes[r.value].pdrId == pdrId && nodes[r.value].far.Some?
    ensures forall j :: (if r.Some? then r.value + 1 else 0) <= j < |nodes| ==>
                          nodes[j].pdrId != pdrId || nodes[j].far.None?
    decreases |nodes|
  {
    if nodes == [] then None
    else if nodes[|nodes| - 1].pdrId == pdrId && nodes[|nodes| - 1].far.Some? then Some(|nodes| - 1)
    else LastWithId(nodes[..|nodes| - 1], pdrId)
  }

  /** What the exhaust action saves at node `i`: the action of its FAR, or the drop it has
      just written itself if an earlier node uses the same FAR. */
  ghost function SavedAt(nodes: seq<Node>, actions: map<Ref, nat>, i: nat): nat
    requires FarsKnown(nodes, actions) && i < |nodes| && nodes[i].far.Some?
  {
    var f := nodes[i].far.value;
    if Uses(nodes[..i], f) then DROP else actions[f]
  }

  /** Of all entries saved under a PDR id the last one is recalled. */
  lemma {:induction false} SavedFor(nodes: seq<Node>, actions: map<Ref, nat>, pdrId: nat)
    requires FarsKnown(nodes, actions)
    ensures
      Recall(SaveAndDrop(nodes, actions).0, pdrId) ==
        match LastWithId(nodes, pdrId)
        case None => None
        case Some(j) => Some(SavedAt(nodes, actions, j))
    decreases |nodes|
  {
    if nodes != [] {
      var rest, n := nodes[..|nodes| - 1], nodes[|nodes| - 1];
      SavedFor(rest, actions, pdrId);
      DropEffect(rest, actions);
      var j := LastWithId(nodes, pdrId);
      if j.Some? && j.value < |rest| { assert rest[..j.value] == nodes[..j.value]; }
    }
  }

  /** The last node that uses `f` decides what `f` becomes. */
  lemma {:induction false} RestoreEffect(nodes: seq<Node>, saved: seq<Saved>, actions: map<Ref, nat>, f: Ref)
    requires FarsKnown(nodes, actions) && f in actions
    requires forall i :: 0 <= i < |nodes| && nodes[i].far.Some? ==> Recall(saved, nodes[i].pdrId).Some?
    ensures
      Restore(nodes, saved, actions)[f] ==
        match LastUser(nodes, f)
        case None => actions[f]
        case Some(i) => Recall(saved, nodes[i].pdrId).value
    decreases |nodes|
  {
    if nodes != [] { RestoreEffect(nodes[..|nodes| - 1], saved, actions, f); }
  }

  /** The action that `f` has after its URR was exhausted and the exhaustion reversed: what
      was saved at the last node with the PDR id of the last node that uses `f`. */
  ghost function BackTo(nodes: seq<Node>, actions: map<Ref, nat>, f: Ref): nat
    requires FarsKnown(nodes, actions) && Uses(nodes, f)
  {
    var i := LastUser(nodes, f).value;
    SavedAt(nodes, actions, LastWithId(nodes, nodes[i].pdrId).value)
  }

  /** Reversing on whatever actions there are by then. */
  lemma RestoreAfterDrop(nodes: seq<Node>, actions: map<Ref, nat>, now: map<Ref, nat>, f: Ref)
    requires FarsKnown(nodes, actions) && now.Keys == actions.Keys && f in actions
    ensures Restore(nodes, SaveAndDrop(nodes, actions).0, now)[f] ==
            if Uses(nodes, f) then BackTo(nodes, actions, f) else now[f]
  {
    var saved := SaveAndDrop(nodes, actions).0;
    forall i | 0 <= i < |nodes| && nodes[i].far.Some? ensures Recall(saved, nodes[i].pdrId).Some? {
      SavedFor(nodes, actions, nodes[i].pdrId);
    }
    RestoreEffect(nodes, saved, now, f);
    if Uses(nodes, f) { SavedFor(nodes, actions, nodes[LastUser(nodes, f).value].pdrId); }
  }

  /** Equal PDR ids name PDRs with equal FARs, as within one session. */
  ghost predicate IdsName(nodes: seq<Node>) {
    forall i, j :: 0 <= i < j < |nodes| && nodes[i].pdrId == nodes[j].pdrId ==> nodes[i].far == nodes[j].far
  }

  /** Then a FAR comes back unless two nodes share it. */
  lemma BackToOwn(nodes: seq<Node>, actions: map<Ref, nat>, f: Ref)
    requires FarsKnown(nodes, actions) && Uses(nodes, f) && IdsName(nodes)
    ensures BackTo(nodes, actions, f) == if Shared(nodes, f) then DROP else actions[f]
  {
    var i := LastUser(nodes, f).value;
    var j := LastWithId(nodes, nodes[i].pdrId).value;
    assert i == j;
    if k :| 0 <= k < i && nodes[..i][k].far == Some(f) { assert nodes[k].far == Some(f); }
    if k, m :| 0 <= k < m < |nodes| && nodes[k].far == Some(f) && nodes[m].far == Some(f) {
      assert nodes[..i][k].far == Some(f);
    }
  }

  lemma {:induction false} ExhaustOnce(s: Session, id: nat, n: nat)
    requires n > 0
    ensures ExhaustTimes(s, id, n) == Exhaust(s, id)
  {
    if n > 1 {
      ExhaustOnce(s, id, n - 1);
    } else {
      assert ExhaustTimes(s, id, 0) == s;
    }
  }

  /** Every used FAR gets back the action it had. */
  ghost predicate ComesBack(nodes: seq<Node>, actions: map<Ref, nat>)
    requires FarsKnown(nodes, actions)
  {
    forall f :: f in actions && Uses(nodes, f) ==> BackTo(nodes, actions, f) == actions[f]
  }

  /** The actions after an exhaust and a reverse action over the same nodes. */
  function Cycle(nodes: seq<Node>, actions: map<Ref, nat>): map<Ref, nat> {
    var (saved, dropped) := SaveAndDrop(nodes, actions);
    Restore(nodes, saved, dropped)
  }

  lemma CycleAt(nodes: seq<Node>, actions: map<Ref, nat>, f: Ref)
    requires FarsKnown(nodes, actions)
    ensures Cycle(nodes, actions).Keys == actions.Keys
    ensures f in actions ==>
              Cycle(nodes, actions)[f] == if Uses(nodes, f) then BackTo(nodes, actions, f) else actions[f]
  {
    hide FarsKnown, Uses, BackTo, Restore, SaveAndDrop;
    DropEffect(nodes, actions);
    if f in actions { RestoreAfterDrop(nodes, actions, Dropped(nodes, actions), f); }
  }

  lemma CycleIs(nodes: seq<Node>, actions: map<Ref, nat>)
    requires FarsKnown(nodes, actions)
    ensures
      var r := Cycle(nodes, actions);
      && r.Keys == actions.Keys
      && (forall f :: f in actions ==> r[f] == if Uses(nodes, f) then BackTo(nodes, actions, f) else actions[f])
      && (r == actions <==> ComesBack(nodes, actions))
  {
    hide FarsKnown, Uses, BackTo, Cycle;
    var r := Cycle(nodes, actions);
    CycleAt(nodes, actions, 0);
    forall f | f in actions ensures r[f] == if Uses(nodes, f) then BackTo(nodes, actions, f) else actions[f] {
      CycleAt(nodes, actions, f);
    }
    if r != actions { var f :| f in actions && r[f] != actions[f]; }
  }

  /** EXHAUST AND REVERSE, EXACTLY, whatever PDRs the walk meets: after any number of exhaust
      actions exactly the related FARs drop, and one reverse action then gives every FAR the
      action `BackTo` names. */
  lemma ReverseRestoresIff(s: Session, id: nat, n: nat)
    requires n > 0 && id in s.urrs && !s.urrs[id].exhausted
    requires FarsKnown(NodesOf(s, id), s.actions)
    ensures
      var nodes := NodesOf(s, id);
      var e := ExhaustTimes(s, id, n);
      var r := Reverse(e, id);
      && e.actions == Dropped(nodes, s.actions) && r.actions.Keys == s.actions.Keys
      && (forall f :: f in s.actions ==>
            r.actions[f] == if Uses(nodes, f) then BackTo(nodes, s.actions, f) else s.actions[f])
      && (r.actions == s.actions <==> ComesBack(nodes, s.actions))
  {
    hide Uses, BackTo, ComesBack, SaveAndDrop, Restore;
    ExhaustOnce(s, id, n);
    DropEffect(NodesOf(s, id), s.actions);
    CycleIs(NodesOf(s, id), s.actions);
  }

  /** Where PDR ids name their FARs, everything comes back if and only if each FAR of two
      nodes was dropping to begin with. */
  lemma ComesBackIff(nodes: seq<Node>, actions: map<Ref, nat>)
    requires FarsKnown(nodes, actions) && IdsName(nodes)
    ensures ComesBack(nodes, actions) <==> forall f :: f in actions && Shared(nodes, f) ==> actions[f] == DROP
  {
    forall f | f in actions && Uses(nodes, f)
      ensures BackTo(nodes, actions, f) == if Shared(nodes, f) then DROP else actions[f]
    {
      BackToOwn(nodes, actions, f);
    }
    forall f: Ref | Shared(nodes, f) ensures Uses(nodes, f) {
      var i, j :| 0 <= i < j < |nodes| && nodes[i].far == Some(f) && nodes[j].far == Some(f);
    }
    hide BackTo, Uses, Shared;
  }

  /** Two nodes with one PDR id and different FARs: both get what the second node saved. */
  lemma SecondOfTwo(id: nat, f: Ref, g: Ref, actions: map<Ref, nat>)
    requires f != g && f in actions && g in actions
    ensures
      var nodes := [Node(id, Some(f)), Node(id, Some(g))];
      && Uses(nodes, f) && Uses(nodes, g) && FarsKnown(nodes, actions)
      && BackTo(nodes, actions, f) == actions[g] && BackTo(nodes, actions, g) == actions[g]
  {
    var nodes := [Node(id, Some(f)), Node(id, Some(g))];
    assert nodes[0].far == Some(f) && nodes[1].far == Some(g);
    assert Uses(nodes, f) && Uses(nodes, g);
    assert LastUser(nodes, f) == Some(0);
    assert LastUser(nodes, g) == Some(1);
    assert LastWithId(nodes, id) == Some(1);
    assert !Uses(nodes[..1], g);
  }

  // ---------- two URRs ----------

  /** The FAR actions when the URR of `na` is exhausted first and that of `nb` second, then
      after one reverse action, and after both in either order. */
  lemma TwoRestores(na: seq<Node>, nb: seq<Node>, acts: map<Ref, nat>, f: Ref)
    requires FarsKnown(na, acts) && FarsKnown(nb, acts) && IdsName(nb) && f in acts
    requires ComesBack(na, acts) && ComesBack(nb, acts)
    ensures
      var (sa, da) := SaveAndDrop(na, acts);
      var (sb, dab) := SaveAndDrop(nb, da);
      var first, inner := Restore(na, sa, dab), Restore(nb, sb, dab);
      && da == Dropped(na, acts) && dab == Dropped(nb, da)
      && first[f] == (if Uses(na, f) then acts[f] else dab[f])
      && Restore(nb, sb, first)[f] == (if Uses(nb, f) then da[f] else first[f])
      && Restore(na, sa, inner)[f] == acts[f]
  {
    hide Uses, Shared, BackTo, IdsName, ComesBack, Restore, SaveAndDrop;
    DropEffect(na, acts);
    var (sa, da) := SaveAndDrop(na, acts);
    DropEffect(nb, da);
    var (sb, dab) := SaveAndDrop(nb, da);
    if Uses(nb, f) { BackToDropped(na, nb, acts, f); }
    if Uses(na, f) { ComesBackAt(na, acts, f); }
    RestoreAfterDrop(na, acts, dab, f);
    RestoreAfterDrop(nb, da, Restore(na, sa, dab), f);
    RestoreAfterDrop(nb, da, dab, f);
    RestoreAfterDrop(na, acts, Restore(nb, sb, dab), f);
  }

  lemma ComesBackAt(nodes: seq<Node>, actions: map<Ref, nat>, f: Ref)
    requires FarsKnown(nodes, actions) && ComesBack(nodes, actions) && f in actions && Uses(nodes, f)
    ensures BackTo(nodes, actions, f) == actions[f]
  {}

  /** What comes back to the FARs of `nb` when those of `na` were dropping. */
  lemma BackToDropped(na: seq<Node>, nb: seq<Node>, acts: map<Ref, nat>, f: Ref)
    requires FarsKnown(nb, acts) && IdsName(nb) && ComesBack(nb, acts) && f in acts && Uses(nb, f)
    ensures
      var da := Dropped(na, acts);
      FarsKnown(nb, da) && BackTo(nb, da, f) == da[f]
  {
    hide Uses, Shared, BackTo, IdsName, ComesBack;
    BackToOwn(nb, acts, f);
    BackToOwn(nb, Dropped(na, acts), f);
    ComesBackAt(nb, acts, f);
  }

  lemma TwoRestoresIff(na: seq<Node>, nb: seq<Node>, acts: map<Ref, nat>)
    requires FarsKnown(na, acts) && FarsKnown(nb, acts) && IdsName(nb)
    requires ComesBack(na, acts) && ComesBack(nb, acts)
    ensures
      var (sa, da) := SaveAndDrop(na, acts);
      var (sb, dab) := SaveAndDrop(nb, da);
      var first, inner := Restore(na, sa, dab), Restore(nb, sb, dab);
      var apart := forall f :: f in acts && Uses(na, f) && Uses(nb, f) ==> acts[f] == DROP;
      && Restore(na, sa, inner) == acts
      && first.Keys == acts.Keys
      && ((forall f :: f in acts && Uses(nb, f) ==> first[f] == DROP) <==> apart)
      && (Restore(nb, sb, first) == acts <==> apart)
  {
    hide Uses, BackTo, IdsName, ComesBack, SaveAndDrop, Restore;
    var (sa, da) := SaveAndDrop(na, acts);
    var (sb, dab) := SaveAndDrop(nb, da);
    DropEffect(na, acts);
    DropEffect(nb, da);
    hide FarsKnown;
    var first, inner := Restore(na, sa, dab), Restore(nb, sb, dab);
    var last := Restore(nb, sb, first);
    forall f | f in acts
      ensures first[f] == (if Uses(na, f) then acts[f] else dab[f])
      ensures last[f] == (if Uses(nb, f) then da[f] else first[f])
      ensures Restore(na, sa, inner)[f] == acts[f]
    {
      TwoRestores(na, nb, acts, f);
    }
    if last != acts { var f :| f in acts && last[f] != acts[f]; }
  }

  /** Two URRs that each come back alone.  Reversing in the opposite order restores
      everything.  Reversing in the order of exhaustion lifts the drop of the second URR
      early, and does not restore everything, exactly when both URRs use a FAR that was
      not dropping. */
  lemma TwoUrrsRestoreIff(s: Session, a: nat, b: nat)
    requires a != b && a in s.urrs && b in s.urrs && !s.urrs[a].exhausted && !s.urrs[b].exhausted
    requires
      var na, nb := NodesOf(s, a), NodesOf(s, b);
      && FarsKnown(na, s.actions) && FarsKnown(nb, s.actions) && IdsName(na) && IdsName(nb)
      && ComesBack(na, s.actions) && ComesBack(nb, s.actions)
    ensures
      var na, nb := NodesOf(s, a), NodesOf(s, b);
      var both := Exhaust(Exhaust(s, a), b);
      var first := Reverse(both, a);
      var apart := forall f :: f in s.actions && Uses(na, f) && Uses(nb, f) ==> s.actions[f] == DROP;
      && Reverse(Reverse(both, b), a).actions == s.actions
      && first.actions.Keys == s.actions.Keys
      && ((forall f :: f in s.actions && Uses(nb, f) ==> first.actions[f] == DROP) <==> apart)
      && (Reverse(first, b).actions == s.actions <==> apart)
  {
    hide Uses, IdsName, FarsKnown, ComesBack, SaveAndDrop, Restore;
    var na, nb := NodesOf(s, a), NodesOf(s, b);
    TwoRestoresIff(na, nb, s.actions);
    var (sa, da) := SaveAndDrop(na, s.actions);
    var (sb, dab) := SaveAndDrop(nb, da);
    var both := Exhaust(Exhaust(s, a), b);
    assert both.actions == dab && both.urrs[a].saved == sa && both.urrs[b].saved == sb;
    assert Reverse(both, a).actions == Restore(na, sa, dab) && Reverse(both, b).actions == Restore(nb, sb, dab);
    assert Reverse(Reverse(both, a), b).actions == Restore(nb, sb, Restore(na, sa, dab));
    assert Reverse(Reverse(both, b), a).actions == Restore(na, sa, Restore(nb, sb, dab));
    hide Exhaust, Reverse;
  }

  // ---------- any number of URRs ----------

  function ExhaustAll(s: Session, ids: seq<nat>): Session
    decreases |ids|
  {
    if ids == [] then s else Exhaust(ExhaustAll(s, ids[..|ids| - 1]), ids[|ids| - 1])
  }

  /** The last one first. */
  function ReverseAll(s: Session, ids: seq<nat>): Session
    decreases |ids|
  {
    if ids == [] then s else ReverseAll(Reverse(s, ids[|ids| - 1]), ids[..|ids| - 1])
  }

  /** Some of the actions have been set to drop. */
  ghost predicate Lowered(acts: map<Ref, nat>, d: map<Ref, nat>) {
    d.Keys == acts.Keys && forall f :: f in acts ==> d[f] == DROP || d[f] == acts[f]
  }

  /** What comes back alone also comes back where other URRs have made FARs drop. */
  lemma CycleLowered(nodes: seq<Node>, acts: map<Ref, nat>, d: map<Ref, nat>)
    requires FarsKnown(nodes, acts) && IdsName(nodes) && ComesBack(nodes, acts) && Lowered(acts, d)
    ensures FarsKnown(nodes, d) && Cycle(nodes, d) == d
  {
    assert FarsKnown(nodes, d);
    CycleIs(nodes, d);
    forall f | f in d && Uses(nodes, f) ensures BackTo(nodes, d, f) == d[f] {
      BackToOwn(nodes, d, f);
      BackToOwn(nodes, acts, f);
      ComesBackAt(nodes, acts, f);
    }
    hide Uses, Shared, BackTo, IdsName, Cycle;
  }

  /** A URR that is not exhausted and comes back alone. */
  ghost predicate Restorable(s: Session, id: nat) {
    && id in s.urrs && !s.urrs[id].exhausted
    && var nodes := NodesOf(s, id);
       FarsKnown(nodes, s.actions) && IdsName(nodes) && ComesBack(nodes, s.actions)
  }

  lemma {:induction false} ExhaustAllIs(s: Session, ids: seq<nat>)
    requires forall i :: 0 <= i < |ids| ==> Restorable(s, ids[i])
    ensures
      var e := ExhaustAll(s, ids);
      && Lowered(s.actions, e.actions) && e.nodes == s.nodes && e.urrs.Keys == s.urrs.Keys
      && forall x :: x in s.urrs && x !in ids ==> e.urrs[x] == s.urrs[x]
    decreases |ids|
  {
    if ids != [] {
      var n := |ids| - 1;
      ExhaustAllIs(s, ids[..n]);
      var e := ExhaustAll(s, ids[..n]);
      assert Restorable(s, ids[n]);
      assert FarsKnown(NodesOf(e, ids[n]), e.actions);
      DropEffect(NodesOf(e, ids[n]), e.actions);
      assert forall x :: x in ids <==> x in ids[..n] || x == ids[n];
      hide SaveAndDrop, Uses, Restorable, FarsKnown;
    }
  }

  /** The sessions look the same to the reverse actions of these URRs. */
  ghost predicate Alike(s: Session, r: Session, ids: seq<nat>) {
    && s.actions == r.actions && s.nodes == r.nodes
    && forall i :: 0 <= i < |ids| ==> ids[i] in s.urrs && ids[i] in r.urrs && s.urrs[ids[i]] == r.urrs[ids[i]]
  }

  lemma {:induction false} ReverseAllAlike(s: Session, r: Session, ids: seq<nat>)
    requires Alike(s, r, ids)
    ensures ReverseAll(s, ids).actions == ReverseAll(r, ids).actions
    decreases |ids|
  {
    if ids != [] {
      var n := |ids| - 1;
      assert ids[n] in s.urrs;
      hide Restore;
      assert Alike(Reverse(s, ids[n]), Reverse(r, ids[n]), ids[..n]);
      ReverseAllAlike(Reverse(s, ids[n]), Reverse(r, ids[n]), ids[..n]);
    }
  }

  /** Exhausting one more URR and reversing it at once. */
  lemma OneCycle(s: Session, e: Session, b: nat, ids: seq<nat>)
    requires Restorable(s, b) && Lowered(s.actions, e.actions) && e.nodes == s.nodes
    requires b in e.urrs && e.urrs[b] == s.urrs[b] && b !in ids && forall i :: 0 <= i < |ids| ==> ids[i] in e.urrs
    ensures Alike(Reverse(Exhaust(e, b), b), e, ids)
  {
    CycleLowered(NodesOf(s, b), s.actions, e.actions);
    hide SaveAndDrop, Restore, FarsKnown, IdsName, ComesBack, Lowered;
    var r := Reverse(Exhaust(e, b), b);
    assert r.actions == Cycle(NodesOf(e, b), e.actions);
  }

  /** LAST IN, FIRST OUT.  Any number of URRs, each of which comes back alone, may share FARs at
      will: reversed in the opposite order of their exhaustion they restore everything. */
  lemma {:induction false} LifoRestores(s: Session, ids: seq<nat>)
    requires forall i :: 0 <= i < |ids| ==> Restorable(s, ids[i])
    requires forall i, j :: 0 <= i < j < |ids| ==> ids[i] != ids[j]
    ensures ReverseAll(ExhaustAll(s, ids), ids).actions == s.actions
    decreases |ids|
  {
    if ids != [] {
      var n := |ids| - 1;
      var rest, b := ids[..n], ids[n];
      LifoRestores(s, rest);
      ExhaustAllIs(s, rest);
      var e := ExhaustAll(s, rest);
      assert Restorable(s, b) && b !in rest && b in s.urrs;
      assert forall i :: 0 <= i < n ==> Restorable(s, rest[i]) && rest[i] in e.urrs;
      hide Restorable, Lowered, Exhaust, Reverse;
      OneCycle(s, e, b, rest);
      ReverseAllAlike(Reverse(Exhaust(e, b), b), e, rest);
    }
  }
}
