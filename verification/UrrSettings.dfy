/** The settings of a URR: those of the commands that created and changed it. */
module UrrSettings {
  import opened Base
  import opened Meter
  import opened Quota
  import opened Usage
  import opened Reports
  import opened QuotaReports

  datatype Setting = VolumeMethod | TriggerSet | Seconds | BeforeQos | PacketNumbers | Threshold | VolumeQuota

  datatype Value = Flag(b: bool) | TriggersOf(t: Triggers) | Number(n: nat) | LimitOf(l: Limit)

  /** What a command carries for a setting. */
  function Carried(a: UrrAttrs, f: Setting): Option<Value> {
    match f
    case VolumeMethod => if a.volumeMethod.Some? then Some(Flag(a.volumeMethod.value)) else None
    case TriggerSet => if a.triggers.Some? then Some(TriggersOf(a.triggers.value)) else None
    case Seconds => if a.period.Some? then Some(Number(a.period.value)) else None
    case BeforeQos => if a.info.Some? then Some(Flag(a.info.value.mbqe)) else None
    case PacketNumbers => if a.info.Some? then Some(Flag(a.info.value.mnop)) else None
    case Threshold => if a.threshold.Some? then Some(LimitOf(a.threshold.value)) else None
    case VolumeQuota => if a.quota.Some? then Some(LimitOf(a.quota.value)) else None
  }

  function Held(u: Urr, f: Setting): Value {
    match f
    case VolumeMethod => Flag(u.volumeMethod)
    case TriggerSet => TriggersOf(u.triggers)
    case Seconds => Number(u.period)
    case BeforeQos => Flag(u.mbqe)
    case PacketNumbers => Flag(u.mnop)
    case Threshold => LimitOf(u.threshold)
    case VolumeQuota => LimitOf(u.quota)
  }

  /** A URR that no command has told anything: nothing is set. */
  function Default(f: Setting): Value {
    match f
    case TriggerSet => TriggersOf(Triggers(false, false, false, false))
    case Seconds => Number(0)
    case Threshold => LimitOf(Limit(0, 0, 0, false, false, false))
    case VolumeQuota => LimitOf(Limit(0, 0, 0, false, false, false))
    case _ => Flag(false)
  }

  // ---------- one command ----------

  lemma FieldsHold(u: Urr, a: UrrAttrs, f: Setting)
    ensures Held(FillFields(u, a), f) ==
            if Carried(a, f).Some? && !f.VolumeQuota? then Carried(a, f).value else Held(u, f)
  {
    hide Apply;
  }

  lemma BlankHolds(f: Setting)
    ensures Held(BLANK, f) == Default(f)
  {}

  lemma GrantHolds(u: Urr, a: UrrAttrs, f: Setting)
    ensures a.quota.Some? ==>
              Held(u.(quota := a.quota.value, consumed := ZERO), f) ==
                if f.VolumeQuota? then LimitOf(a.quota.value) else Held(u, f)
    ensures f.VolumeQuota? && a.quota.Some? ==> Carried(a, f) == Some(LimitOf(a.quota.value))
    ensures f.VolumeQuota? ==> (Carried(a, f).Some? <==> a.quota.Some?)
  {}

  /** The quota actions leave the settings alone. */
  lemma ActionsHold(s: Session, x: nat, id: nat, f: Setting)
    requires id in s.urrs
    ensures id in Exhaust(s, x).urrs && Held(Exhaust(s, x).urrs[id], f) == Held(s.urrs[id], f)
    ensures id in Reverse(s, x).urrs && Held(Reverse(s, x).urrs[id], f) == Held(s.urrs[id], f)
  {
    hide SaveAndDrop, Restore;
  }

  lemma PutHolds(s: Session, x: nat, a: UrrAttrs, id: nat, f: Setting)
    requires id in s.urrs || x == id
    ensures
      var s' := Step(s, Put(x, a));
      && id in s'.urrs
      && Held(s'.urrs[id], f) ==
           (if x == id && Carried(a, f).Some? then Carried(a, f).value
            else if id in s.urrs then Held(s.urrs[id], f) else Default(f))
  {
    hide FillFields, Exhaust, Reverse, BLANK, Held, Carried, Default;
    BlankHolds(f);
    var u0 := if x in s.urrs then s.urrs[x] else BLANK;
    var u := FillFields(u0, a);
    FieldsHold(u0, a, f);
    GrantHolds(u, a, f);
    if a.quota.Some? {
      var s0 := if x in s.urrs then s else s.(urrs := s.urrs[x := BLANK]);
      var s1 := s0.(urrs := s0.urrs[x := u.(quota := a.quota.value, consumed := ZERO)]);
      ActionsHold(s1, x, id, f);
    }
  }

  /** Whether a URR is inactive after a command that is no grant: as the command says, else as it was. */
  lemma PutInactive(s: Session, id: nat, a: UrrAttrs)
    requires a.quota.None?
    ensures
      var s' := Step(s, Put(id, a));
      && id in s'.urrs
      && s'.urrs[id].inam ==
           (if a.info.Some? then a.info.value.inam else id in s.urrs && s.urrs[id].inam)
  {
    hide Record;
  }

  lemma MeasureHolds(u: Urr, t: Traffic, f: Setting)
    ensures Held(Measure(u, t).urr, f) == Held(u, f)
  {
    hide Record, Reached, Add;
  }

  lemma VisitHolds(l: LoopState, x: nat, t: Traffic, id: nat, f: Setting)
    requires id in l.session.urrs
    ensures
      var s' := Visit(l, x, t).session;
      id in s'.urrs && Held(s'.urrs[id], f) == Held(l.session.urrs[id], f)
  {
    if x in l.session.urrs { MeasureHolds(l.session.urrs[x], t, f); }
    hide Measure, SaveAndDrop, Triggerless;
  }

  lemma {:induction false} LoopHolds(s: Session, ids: seq<nat>, t: Traffic, id: nat, f: Setting)
    requires id in s.urrs
    ensures
      var s' := Loop(s, ids, t).session;
      id in s'.urrs && Held(s'.urrs[id], f) == Held(s.urrs[id], f)
    decreases |ids|
  {
    hide Visit, Held;
    if ids != [] {
      LoopHolds(s, ids[..|ids| - 1], t, id, f);
      VisitHolds(Loop(s, ids[..|ids| - 1], t), ids[|ids| - 1], t, id, f);
    }
  }

  lemma PacketHolds(s: Session, ids: seq<nat>, t: Traffic, id: nat, f: Setting)
    requires id in s.urrs
    ensures
      var s' := OnPacket(s, ids, t).session;
      id in s'.urrs && Held(s'.urrs[id], f) == Held(s.urrs[id], f)
  {
    hide Loop, Emit;
    var l := Loop(s, ids, t);
    LoopHolds(s, ids, t, id, f);
    EmitKeepsFlags(l.session, l.pending, t.now, id);
  }

  /** Only a command about the URR changes its settings, and only those it carries. */
  lemma StepHolds(s: Session, c: Command, id: nat, f: Setting)
    requires id in Step(s, c).urrs
    ensures
      && Held(Step(s, c).urrs[id], f) ==
           (if c.Put? && c.id == id && Carried(c.attrs, f).Some? then Carried(c.attrs, f).value
            else if id in s.urrs then Held(s.urrs[id], f) else Default(f))
      && (id !in s.urrs ==> c.Put? && c.id == id)
  {
    UrrStaysIff(s, c, id);
    match c
    case Packet(ids, t) => PacketHolds(s, ids, t, id, f);
    case Query(x, now) => ConvertHolds(s, x, now, id, f);
    case Put(x, a) => PutHolds(s, x, a, id, f);
    case Delete(_, _) =>
    case Rules(_, _) =>
    hide OnPacket, Convert, Fill, Held, Carried;
  }

  lemma ConvertHolds(s: Session, x: nat, now: nat, id: nat, f: Setting)
    requires id in s.urrs
    ensures
      var s' := Convert(s, x, now);
      id in s'.urrs && Held(s'.urrs[id], f) == Held(s.urrs[id], f)
  {
    hide Apply;
  }

  // ---------- whole runs ----------

  /** What the last command since the creation of the URR that carried the setting carried. */
  function LastCarried(cs: seq<Command>, id: nat, f: Setting): Option<Value>
    decreases |cs|
  {
    if cs == [] then None
    else
      var c := cs[|cs| - 1];
      if c.Delete? && c.id == id then None
      else if c.Put? && c.id == id && Carried(c.attrs, f).Some? then Carried(c.attrs, f)
      else LastCarried(cs[..|cs| - 1], id, f)
  }

  /** SET AS COMMANDED.  In every run from a session without URRs, every setting of a URR is the one
      of the last command since its creation that carried it, and nothing if none did; no
      packet, report or other command changes it. */
  lemma {:induction false} HeldIsLastCarried(s: Session, cs: seq<Command>, id: nat, f: Setting)
    requires s.urrs == map[]
    ensures
      var e := RunAll(s, cs);
      var last := LastCarried(cs, id, f);
      if id in e.urrs then Held(e.urrs[id], f) == (if last.Some? then last.value else Default(f)) else last == None
    decreases |cs|
  {
    hide Step, Held, Carried, Default;
    if cs != [] {
      var n := |cs| - 1;
      HeldIsLastCarried(s, cs[..n], id, f);
      var e := RunAll(s, cs[..n]);
      UrrStaysIff(e, cs[n], id);
      if id in Step(e, cs[n]).urrs { StepHolds(e, cs[n], id, f); }
    }
  }
}
