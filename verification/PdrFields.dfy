/** What an installed PDR holds: the values of the commands that created and replaced it, one
    command and whole runs. */
module PdrFields {
  import opened Base
  import opened Rules
  import opened Classifier
  import opened Links
  import opened RuleEngine

  /** The parts of a PDR; a QER or URR id is a part that is there or not. */
  datatype Field = Precedence | FarId | UeAddress | Tunnel | Filter | QerId(id: nat) | UrrId(id: nat)

  datatype Value = Number(n: nat) | Address(a: bv32) | TunnelOf(f: FTeid) | FilterOf(s: Sdf) | Named

  function Map<T>(o: Option<T>, f: T -> Value): Option<Value> { if o.Some? then Some(f(o.value)) else None }

  function PdiValue(pdi: Option<Pdi>, f: Field): Option<Value> {
    if pdi.None? then None
    else match f
      case UeAddress => Map(pdi.value.ueAddr, x => Address(x))
      case Tunnel => Map(pdi.value.fTeid, x => TunnelOf(x))
      case Filter => Map(pdi.value.sdf, x => FilterOf(x))
      case _ => None
  }

  /** What a command carries for a field. */
  function Carried(a: PdrAttrs, f: Field): Option<Value> {
    match f
    case Precedence => Map(a.precedence, x => Number(x))
    case FarId => Map(a.farId, x => Number(x))
    case QerId(id) => if id in a.qerIds then Some(Named) else None
    case UrrId(id) => if id in a.urrIds then Some(Named) else None
    case _ => PdiValue(a.pdi, f)
  }

  /** What a PDR holds in a field; precedence and FAR id are never absent. */
  function Held(p: Pdr, f: Field): Option<Value> {
    match f
    case Precedence => Some(Number(p.precedence))
    case FarId => Some(Number(p.farId))
    case QerId(id) => if id in p.qerIds then Some(Named) else None
    case UrrId(id) => if id in p.urrIds then Some(Named) else None
    case _ => PdiValue(p.pdi, f)
  }

  // ---------- one command ----------

  /** The command creates or replaces the PDR. */
  ghost predicate Accepted(cfg: Config, s: Dev, c: Command, k: Key) {
    Inv(cfg, s) && c.PutPdr? && c.key == k && Step(cfg, s, c).1 == Ok
  }

  lemma FilledHolds(p: Pdr, a: PdrAttrs, f: Field)
    ensures Held(FillPdr(p, a), f) == if Carried(a, f).Some? then Carried(a, f) else Held(p, f)
  {}

  lemma BlankHolds(f: Field)
    ensures f.Precedence? || f.FarId? || Held(BLANK, f) == None
  {}

  /** The PDRs after the end of a PDR command. */
  lemma FillPdrs(cfg: Config, s: Dev, x: Key, p0: Pdr, a: PdrAttrs)
    requires Inv(cfg, s) && cfg.size > 0
    ensures
      var (s', st) := FillAndInstall(cfg, s, x, p0, a);
      var p := FillPdr(p0, a);
      if st == Ok then
        FarKey(x, p) in s.fars && s'.pdrs == s.pdrs[x := Linked(cfg, s, x, p, s.fars[FarKey(x, p)])]
      else s'.pdrs == s.pdrs - {x}
  {
    RelatedSize(cfg, s);
    hide Inv, Relink, Renode, Linked, FillPdr, Unlink;
  }

  /** The PDRs after a PDR command. */
  lemma PutPdrs(cfg: Config, s: Dev, x: Key, flags: Flags, a: PdrAttrs)
    requires Inv(cfg, s) && cfg.size > 0
    ensures
      var (s', st) := DoPutPdr(cfg, s, x, flags, a);
      var p := FillPdr(if x in s.pdrs then s.pdrs[x] else BLANK, a);
      if st == Ok then
        && FarKey(x, p) in s.fars && s'.pdrs == s.pdrs[x := Linked(cfg, s, x, p, s.fars[FarKey(x, p)])]
        && (x !in s.pdrs ==> a.precedence.Some? && a.farId.Some?)
      else s'.pdrs == if st == Invalid then s.pdrs - {x} else s.pdrs
  {
    assert x !in s.pdrs ==> s.pdrs - {x} == s.pdrs;
    hide Inv, FillAndInstall, Linked, FillPdr, HasPoison;
    FillPdrs(cfg, s, x, if x in s.pdrs then s.pdrs[x] else BLANK, a);
  }

  /** STORED AS COMMANDED.  An accepted command leaves in every field what it carries, and else
      what the PDR held before; no other command changes any field of any PDR, and only an
      accepted one creates a PDR. */
  lemma StepHolds(cfg: Config, s: Dev, c: Command, k: Key, f: Field)
    requires Inv(cfg, s) && k in Step(cfg, s, c).0.pdrs
    ensures
      var p := Step(cfg, s, c).0.pdrs[k];
      && Held(p, f) ==
           (if Accepted(cfg, s, c, k) && Carried(c.attrs, f).Some? then Carried(c.attrs, f)
            else if k in s.pdrs then Held(s.pdrs[k], f) else None)
      && (k !in s.pdrs ==> Accepted(cfg, s, c, k))
  {
    RelatedSize(cfg, s);
    hide Inv, DoPutPdr, Linked, FillPdr, Held, Carried, DoDelPdr, DoPutFar, DoDelFar, DoPutQer, DoDelQer;
    if c.PutPdr? {
      PutPdrs(cfg, s, c.key, c.flags, c.attrs);
      if Accepted(cfg, s, c, k) {
        var p0 := if k in s.pdrs then s.pdrs[k] else BLANK;
        FilledHolds(p0, c.attrs, f);
        var p := FillPdr(p0, c.attrs);
        LinkedHolds(cfg, s, k, p, s.fars[FarKey(k, p)], f);
        BlankHolds(f);
        CarriedNew(c.attrs, f);
      }
    } else {
      OthersHold(cfg, s, c, k, f);
    }
  }

  lemma CarriedNew(a: PdrAttrs, f: Field)
    ensures f.Precedence? && a.precedence.Some? ==> Carried(a, f).Some?
    ensures f.FarId? && a.farId.Some? ==> Carried(a, f).Some?
  {}

  lemma LinkedHolds(cfg: Config, s: Dev, k: Key, p: Pdr, far: Ref, f: Field)
    requires cfg.size > 0
    ensures Held(Linked(cfg, s, k, p, far), f) == Held(p, f)
  {
    hide SlotOf, NextNode, RateOf;
  }

  lemma OthersHold(cfg: Config, s: Dev, c: Command, k: Key, f: Field)
    requires Inv(cfg, s) && !c.PutPdr? && k in Step(cfg, s, c).0.pdrs
    ensures k in s.pdrs && Held(Step(cfg, s, c).0.pdrs[k], f) == Held(s.pdrs[k], f)
  {
    hide Inv, DoPutFar, DoDelFar, DoPutQer, DoDelQer, DoDelPdr;
    match c
    case PutFar(fk, flags, hasAction, paramsOk) => PutFarPdrs(cfg, s, fk, flags, hasAction, paramsOk);
    case DelFar(fk) => DelFarPdrs(cfg, s, fk);
    case PutQer(qk, flags, hasMbr) => PutQerPdrs(s, qk, flags, hasMbr);
    case DelQer(qk) => DelQerPdrs(cfg, s, qk);
    case DelPdr(x) => DelPdrPdrs(cfg, s, x);
  }

  // ---------- whole runs ----------

  /** The `i`-th command of the run creates or replaces the PDR and carries the field. */
  ghost predicate Sets(cfg: Config, t: seq<Dev>, cs: seq<Command>, i: nat, k: Key, f: Field)
    requires |t| == |cs| + 1
  {
    i < |cs| && Accepted(cfg, t[i], cs[i], k) && Carried(cs[i].attrs, f).Some?
  }

  /** No command from the `n`-th on does so. */
  ghost predicate NoneFrom(cfg: Config, t: seq<Dev>, cs: seq<Command>, n: nat, k: Key, f: Field)
    requires |t| == |cs| + 1
  {
    forall j: nat :: n <= j < |cs| ==> !Sets(cfg, t, cs, j, k, f)
  }

  /** It is the last one to do so, and the PDR stays installed after it. */
  ghost predicate SetsLast(cfg: Config, t: seq<Dev>, cs: seq<Command>, i: nat, k: Key, f: Field, v: Value)
    requires |t| == |cs| + 1
  {
    && Sets(cfg, t, cs, i, k, f) && Carried(cs[i].attrs, f) == Some(v)
    && StaysFrom(t, i + 1, k) && NoneFrom(cfg, t, cs, i + 1, k, f)
  }

  /** One more command in front of a run. */
  lemma SetsShift(cfg: Config, s: Dev, c: Command, t: seq<Dev>, cs: seq<Command>, i: nat, k: Key, f: Field)
    requires |t| == |cs| + 1
    ensures Sets(cfg, [s] + t, [c] + cs, i + 1, k, f) <==> Sets(cfg, t, cs, i, k, f)
    ensures Sets(cfg, [s] + t, [c] + cs, 0, k, f) <==> Accepted(cfg, s, c, k) && Carried(c.attrs, f).Some?
    ensures StaysFrom([s] + t, i + 1, k) <==> StaysFrom(t, i, k)
  {
    hide Accepted, Carried;
    var u, ds := [s] + t, [c] + cs;
    if i < |cs| { assert u[i + 1] == t[i] && ds[i + 1] == cs[i]; }
    assert forall j :: i <= j < |t| ==> u[j + 1] == t[j];
    assert forall j :: i + 1 <= j < |u| ==> u[j] == t[j - 1];
  }

  lemma NoneShift(cfg: Config, s: Dev, c: Command, t: seq<Dev>, cs: seq<Command>, n: nat, k: Key, f: Field)
    requires |t| == |cs| + 1
    ensures NoneFrom(cfg, [s] + t, [c] + cs, n + 1, k, f) <==> NoneFrom(cfg, t, cs, n, k, f)
  {
    hide Sets;
    forall j: nat ensures Sets(cfg, [s] + t, [c] + cs, j + 1, k, f) <==> Sets(cfg, t, cs, j, k, f) {
      SetsShift(cfg, s, c, t, cs, j, k, f);
    }
    if NoneFrom(cfg, t, cs, n, k, f) {
      forall j: nat | n + 1 <= j < |cs| + 1 ensures !Sets(cfg, [s] + t, [c] + cs, j, k, f) {
        SetsShift(cfg, s, c, t, cs, j - 1, k, f);
      }
    }
  }

  lemma SetsLastShift(cfg: Config, s: Dev, c: Command, t: seq<Dev>, cs: seq<Command>,
                      i: nat, k: Key, f: Field, v: Value)
    requires |t| == |cs| + 1
    ensures SetsLast(cfg, [s] + t, [c] + cs, i + 1, k, f, v) <==> SetsLast(cfg, t, cs, i, k, f, v)
  {
    hide StaysFrom, Accepted, Carried, NoneFrom;
    SetsShift(cfg, s, c, t, cs, i, k, f);
    SetsShift(cfg, s, c, t, cs, i + 1, k, f);
    NoneShift(cfg, s, c, t, cs, i + 1, k, f);
    assert i < |cs| ==> ([c] + cs)[i + 1] == cs[i];
  }

  lemma SetsCons(cfg: Config, s: Dev, c: Command, t: seq<Dev>, cs: seq<Command>, k: Key, f: Field, v: Value)
    requires |t| == |cs| + 1
    ensures
      var sets := Accepted(cfg, s, c, k) && Carried(c.attrs, f).Some?;
      && (NoneFrom(cfg, [s] + t, [c] + cs, 0, k, f) <==> !sets && NoneFrom(cfg, t, cs, 0, k, f))
      && ((exists i: nat :: SetsLast(cfg, [s] + t, [c] + cs, i, k, f, v)) <==>
            || (exists i: nat :: SetsLast(cfg, t, cs, i, k, f, v))
            || (sets && Carried(c.attrs, f) == Some(v) && StaysFrom(t, 0, k) && NoneFrom(cfg, t, cs, 0, k, f)))
  {
    hide Sets, StaysFrom, Accepted, Carried, SetsLast, NoneFrom;
    var u, ds := [s] + t, [c] + cs;
    SetsShift(cfg, s, c, t, cs, 0, k, f);
    NoneShift(cfg, s, c, t, cs, 0, k, f);
    NoneSplit(cfg, u, ds, k, f);
    SetsLastFirst(cfg, u, ds, k, f, v);
    if i: nat :| SetsLast(cfg, u, ds, i, k, f, v) {
      if i > 0 { SetsLastShift(cfg, s, c, t, cs, i - 1, k, f, v); }
    }
    if i: nat :| SetsLast(cfg, t, cs, i, k, f, v) { SetsLastShift(cfg, s, c, t, cs, i, k, f, v); }
  }

  lemma SetsLastFirst(cfg: Config, t: seq<Dev>, cs: seq<Command>, k: Key, f: Field, v: Value)
    requires |t| == |cs| + 1 && cs != []
    ensures SetsLast(cfg, t, cs, 0, k, f, v) <==>
              && Sets(cfg, t, cs, 0, k, f) && Carried(cs[0].attrs, f) == Some(v)
              && StaysFrom(t, 1, k) && NoneFrom(cfg, t, cs, 1, k, f)
  {
    hide Accepted, Carried, StaysFrom, NoneFrom;
  }

  lemma NoneSplit(cfg: Config, t: seq<Dev>, cs: seq<Command>, k: Key, f: Field)
    requires |t| == |cs| + 1 && cs != []
    ensures NoneFrom(cfg, t, cs, 0, k, f) <==> !Sets(cfg, t, cs, 0, k, f) && NoneFrom(cfg, t, cs, 1, k, f)
  {
    hide Sets;
  }

  /** EVERY RUN.  After every admissible run from the empty device, a field of an installed PDR
      holds a value if and only if the last accepted command since its creation that carried
      the field carried that value. */
  lemma HeldIsLastCommanded(cfg: Config, cs: seq<Command>, k: Key, f: Field, v: Value)
    requires cfg.size > 0 && Inv(cfg, Init(cfg)) && AdmissibleRun(cfg, Init(cfg), cs)
    requires k in Run(cfg, Init(cfg), cs).pdrs
    ensures Held(Run(cfg, Init(cfg), cs).pdrs[k], f) == Some(v) <==>
              exists i: nat :: SetsLast(cfg, Trace(cfg, Init(cfg), cs), cs, i, k, f, v)
  {
    hide Inv, AdmissibleRun, Run, Trace, Init, SetsLast, NoneFrom, Held;
    HeldFrom(cfg, Init(cfg), cs, k, f, v);
    NotAtFirst(cfg, cs, k);
  }

  lemma {:induction false} HeldFrom(cfg: Config, s: Dev, cs: seq<Command>, k: Key, f: Field, v: Value)
    requires Inv(cfg, s) && AdmissibleRun(cfg, s, cs) && k in Run(cfg, s, cs).pdrs
    ensures
      var t := Trace(cfg, s, cs);
      Held(Run(cfg, s, cs).pdrs[k], f) == Some(v) <==>
        || (exists i: nat :: SetsLast(cfg, t, cs, i, k, f, v))
        || (StaysFrom(t, 0, k) && NoneFrom(cfg, t, cs, 0, k, f) && Held(s.pdrs[k], f) == Some(v))
    decreases |cs|
  {
    hide Inv, Admissible, Step, Held, Carried;
    if cs != [] {
      StepInvIff(cfg, s, cs[0]);
      var s1 := Step(cfg, s, cs[0]).0;
      var t1 := Trace(cfg, s1, cs[1..]);
      HeldFrom(cfg, s1, cs[1..], k, f, v);
      assert Trace(cfg, s, cs) == [s] + t1 && cs == [cs[0]] + cs[1..];
      SetsCons(cfg, s, cs[0], t1, cs[1..], k, f, v);
      MovedCons(s, t1, k);
      if k in s1.pdrs { StepHolds(cfg, s, cs[0], k, f); }
      hide Accepted, SetsLast, NoneFrom;
    }
  }
}
