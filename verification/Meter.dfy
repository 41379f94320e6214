/** Double-buffered usage counters of a URR: `get_usage_report_counter`,
    `increment_and_check_counter` and `convert_urr_to_report`. */
module Meter {
  import opened Base

  /** `struct VolumeMeasurement`; all counters are `u64`. */
  datatype Volumes = Volumes(total: nat, ul: nat, dl: nat, totalPkts: nat, ulPkts: nat, dlPkts: nat)

  const ZERO := Volumes(0, 0, 0, 0, 0, 0)

  /** `increment_and_check_counter` without the check. */
  function Add(v: Volumes, vol: nat, uplink: bool, countPkts: bool): Volumes {
    if vol == 0 then v
    else
      var p := if !countPkts then v
               else if uplink then v.(ulPkts := Wrap(v.ulPkts + 1), totalPkts := Wrap(Wrap(v.ulPkts + 1) + v.dlPkts))
               else v.(dlPkts := Wrap(v.dlPkts + 1), totalPkts := Wrap(v.ulPkts + Wrap(v.dlPkts + 1)));
      if uplink then p.(ul := Wrap(v.ul + vol), total := Wrap(Wrap(v.ul + vol) + v.dl))
      else p.(dl := Wrap(v.dl + vol), total := Wrap(v.ul + Wrap(v.dl + vol)))
  }

  /** The two counters of a URR. */
  datatype Counters = Counters(bytes: Volumes, bytes2: Volumes)

  /** What happens to the counters of one URR, with the period in force and the clock. */
  datatype Event =
    | Count(period: nat, now: nat, vol: nat, uplink: bool, countPkts: bool)
    | Report(period: nat, now: nat)
    | Clear

  /** `get_usage_report_counter`: true selects the second counter. */
  function Second(period: nat, now: nat, previous: bool): bool {
    period != 0 && ((now % U32 / period) % 2 == 1) != previous
  }

  function Select(c: Counters, second: bool): Volumes { if second then c.bytes2 else c.bytes }

  function Store(c: Counters, second: bool, v: Volumes): Counters {
    if second then c.(bytes2 := v) else c.(bytes := v)
  }

  datatype Outcome = Outcome(counters: Counters, reports: seq<Volumes>)

  function Apply(c: Counters, e: Event): Outcome {
    match e
    case Count(period, now, vol, uplink, pkts) =>
      var w := Second(period, now, false);
      Outcome(Store(c, w, Add(Select(c, w), vol, uplink, pkts)), [])
    case Report(period, now) =>
      var w := Second(period, now, true);
      Outcome(Store(c, w, ZERO), [Select(c, w)])
    case Clear => Outcome(Counters(ZERO, ZERO), [])
  }

  /** The counters and the reports after a sequence of events. */
  function Run(c: Counters, es: seq<Event>): Outcome
    decreases |es|
  {
    if es == [] then Outcome(c, [])
    else
      var r := Run(c, es[..|es| - 1]);
      var o := Apply(r.counters, es[|es| - 1]);
      Outcome(o.counters, r.reports + o.reports)
  }

  lemma RunSnoc(c: Counters, es: seq<Event>, e: Event)
    ensures
      var r := Run(c, es);
      var o := Apply(r.counters, e);
      Run(c, es + [e]) == Outcome(o.counters, r.reports + o.reports)
  {
    assert (es + [e])[..|es|] == es;
  }

  lemma {:induction false} RunAppend(c: Counters, a: seq<Event>, b: seq<Event>)
    ensures
      var r := Run(c, a);
      var q := Run(r.counters, b);
      Run(c, a + b) == Outcome(q.counters, r.reports + q.reports)
    decreases |b|
  {
    if b == [] {
      assert a + b == a;
    } else {
      var n := |b| - 1;
      RunAppend(c, a, b[..n]);
      assert (a + b)[..|a + b| - 1] == a + b[..n];
    }
    hide Apply;
  }

  /** The events since the last reset. */
  function SinceClear(es: seq<Event>): (r: seq<Event>)
    ensures Clear !in r
    decreases |es|
  {
    if es == [] then []
    else
      var n := |es| - 1;
      if es[n].Clear? then [] else SinceClear(es[..n]) + [es[n]]
  }

  lemma {:induction false} SinceClearAppend(es: seq<Event>, fs: seq<Event>)
    requires Clear !in fs
    ensures SinceClear(es + fs) == SinceClear(es) + fs
    decreases |fs|
  {
    if fs == [] {
      assert es + fs == es;
    } else {
      var n := |fs| - 1;
      SinceClearAppend(es, fs[..n]);
      assert (es + fs)[..|es + fs| - 1] == es + fs[..n];
      assert fs == fs[..n] + [fs[n]];
      assert fs[n] in fs;
    }
  }

  /** A reset forgets everything: the counters are those of the events since then. */
  lemma {:induction false} ClearForgets(es: seq<Event>)
    ensures Run(Counters(ZERO, ZERO), es).counters == Run(Counters(ZERO, ZERO), SinceClear(es)).counters
    decreases |es|
  {
    if es != [] {
      var n := |es| - 1;
      ClearForgets(es[..n]);
      if !es[n].Clear? { RunSnoc(Counters(ZERO, ZERO), SinceClear(es[..n]), es[n]); }
    }
  }

  // ---------- conservation ----------

  function Dir(v: Volumes, uplink: bool): nat { if uplink then v.ul else v.dl }

  function Sum(vs: seq<Volumes>, uplink: bool): nat {
    if vs == [] then 0 else Sum(vs[..|vs| - 1], uplink) + Dir(vs[|vs| - 1], uplink)
  }

  /** Volume presented for counting in one direction. */
  function Counted(es: seq<Event>, uplink: bool): nat {
    if es == [] then 0
    else
      var e := es[|es| - 1];
      Counted(es[..|es| - 1], uplink) + (if e.Count? && e.uplink == uplink then e.vol else 0)
  }

  ghost predicate Coherent(v: Volumes) { v.total == Wrap(v.ul + v.dl) }

  lemma WrapMultiple(x: nat) returns (k: nat)
    ensures x == Wrap(x) + k * U64
  {
    k := x / U64;
  }

  /** How a single event moves volume, with the multiple of 2^64 a counter drops. */
  lemma ApplyConserves(c: Counters, e: Event, uplink: bool) returns (k: nat)
    requires !e.Clear?
    ensures
      var o := Apply(c, e);
      Dir(c.bytes, uplink) + Dir(c.bytes2, uplink) + (if e.Count? && e.uplink == uplink then e.vol else 0)
        == Sum(o.reports, uplink) + Dir(o.counters.bytes, uplink) + Dir(o.counters.bytes2, uplink) + k * U64
  {
    k := 0;
    if e.Count? {
      var v := Select(c, Second(e.period, e.now, false));
      if e.uplink == uplink && e.vol != 0 { k := WrapMultiple(Dir(v, uplink) + e.vol); }
    } else {
      var v := Select(c, Second(e.period, e.now, true));
      assert Apply(c, e).reports == [v];
      SumOne(v, uplink);
    }
  }

  lemma SumOne(v: Volumes, uplink: bool)
    ensures Sum([v], uplink) == Dir(v, uplink)
  {}

  lemma {:induction false} SumConcat(a: seq<Volumes>, b: seq<Volumes>, uplink: bool)
    ensures Sum(a + b, uplink) == Sum(a, uplink) + Sum(b, uplink)
    decreases |b|
  {
    if b == [] {
      assert a + b == a;
    } else {
      SumConcat(a, b[..|b| - 1], uplink);
      assert (a + b)[..|a + b| - 1] == a + b[..|b| - 1];
    }
  }

  /** CONSERVATION.  Whatever the clock does and however packets and reports interleave,
      the volume counted is the volume reported plus the volume still held, up to a
      multiple of 2^64 (nothing at all while the volume counted stays below 2^64). */
  lemma {:induction false} Conservation(es: seq<Event>, uplink: bool) returns (k: nat)
    requires Clear !in es
    ensures
      var r := Run(Counters(ZERO, ZERO), es);
      var held := Dir(r.counters.bytes, uplink) + Dir(r.counters.bytes2, uplink);
      && Counted(es, uplink) == Sum(r.reports, uplink) + held + k * U64
      && (Counted(es, uplink) < U64 ==> k == 0)
    decreases |es|
  {
    k := 0;
    if es != [] {
      var prefix, e := es[..|es| - 1], es[|es| - 1];
      var k0 := Conservation(prefix, uplink);
      var r := Run(Counters(ZERO, ZERO), prefix);
      var k1 := ApplyConserves(r.counters, e, uplink);
      SumConcat(r.reports, Apply(r.counters, e).reports, uplink);
      k := k0 + k1;
      assert k * U64 == k0 * U64 + k1 * U64;
    }
  }

  lemma ApplyCoheres(c: Counters, e: Event)
    requires Coherent(c.bytes) && Coherent(c.bytes2)
    ensures
      var o := Apply(c, e);
      && Coherent(o.counters.bytes) && Coherent(o.counters.bytes2)
      && forall i :: 0 <= i < |o.reports| ==> Coherent(o.reports[i])
  {
    hide Second, Wrap;
    if e.Count? { AddCoheres(Select(c, Second(e.period, e.now, false)), e.vol, e.uplink, e.countPkts); }
    hide Add;
  }

  lemma AddCoheres(v: Volumes, vol: nat, uplink: bool, pkts: bool)
    requires Coherent(v)
    ensures Coherent(Add(v, vol, uplink, pkts))
  {
    hide Wrap;
  }

  /** In every counter and in every report the total is the sum of both directions. */
  lemma {:induction false} TotalsCohere(es: seq<Event>)
    ensures
      var r := Run(Counters(ZERO, ZERO), es);
      && Coherent(r.counters.bytes) && Coherent(r.counters.bytes2)
      && forall i :: 0 <= i < |r.reports| ==> Coherent(r.reports[i])
    decreases |es|
  {
    hide Wrap, Second;
    if es != [] {
      TotalsCohere(es[..|es| - 1]);
      ApplyCoheres(Run(Counters(ZERO, ZERO), es[..|es| - 1]).counters, es[|es| - 1]);
    }
    hide Apply;
  }

  // ---------- periodic reports ----------

  function PeriodOf(period: nat, e: Event): nat
    requires period > 0 && !e.Clear?
  {
    e.now / period
  }

  /** Events of one URR with a fixed period and a nondecreasing 32-bit clock in which no
      period passes without a report. */
  ghost predicate Periodic(period: nat, es: seq<Event>) {
    && period > 0
    && (forall i :: 0 <= i < |es| ==> !es[i].Clear? && es[i].period == period && es[i].now < U32)
    && forall i :: 0 < i < |es| ==> Continues(period, es, i)
  }

  /** The event at `i` stays in its predecessor's period, or opens the next one after the
      predecessor's period has been reported. */
  ghost predicate Continues(period: nat, es: seq<Event>, i: nat)
    requires period > 0 && 0 < i < |es| && !es[i - 1].Clear? && !es[i].Clear?
  {
    && es[i - 1].now <= es[i].now
    && (PeriodOf(period, es[i]) == PeriodOf(period, es[i - 1]) ||
        (PeriodOf(period, es[i]) == PeriodOf(period, es[i - 1]) + 1
         && ReportedIn(period, es[..i], PeriodOf(period, es[i - 1]))))
  }

  ghost predicate ReportedIn(period: nat, es: seq<Event>, q: int)
    requires period > 0
  {
    exists j :: 0 <= j < |es| && es[j].Report? && PeriodOf(period, es[j]) == q
  }

  /** Volume counted during period `q`. */
  function CountedIn(period: nat, es: seq<Event>, q: int, uplink: bool): nat
    requires period > 0
    decreases |es|
  {
    if es == [] then 0
    else
      var e := es[|es| - 1];
      CountedIn(period, es[..|es| - 1], q, uplink)
        + (if e.Count? && PeriodOf(period, e) == q && e.uplink == uplink then e.vol else 0)
  }

  /** State of the counters while period `q` is running. */
  ghost predicate Phase(period: nat, es: seq<Event>, c: Counters, q: int, uplink: bool)
    requires period > 0
  {
    var odd := q % 2 == 1;
    && Dir(Select(c, odd), uplink) == Wrap(CountedIn(period, es, q, uplink))
    && Dir(Select(c, !odd), uplink) ==
         (if ReportedIn(period, es, q) then 0 else Wrap(CountedIn(period, es, q - 1, uplink)))
    && (forall i :: 0 <= i < |es| ==> !es[i].Clear? && PeriodOf(period, es[i]) <= q)
  }

  lemma {:induction false} CountedInFuture(period: nat, es: seq<Event>, q: int, uplink: bool)
    requires period > 0
    requires forall i :: 0 <= i < |es| ==> !es[i].Clear? && PeriodOf(period, es[i]) < q
    ensures CountedIn(period, es, q, uplink) == 0
    decreases |es|
  {
    if es != [] { CountedInFuture(period, es[..|es| - 1], q, uplink); }
  }

  /** Moving to the next period changes no counter, only what the counters mean. */
  lemma NextPhase(period: nat, es: seq<Event>, c: Counters, q: int, uplink: bool)
    requires period > 0 && Phase(period, es, c, q, uplink) && ReportedIn(period, es, q)
    ensures Phase(period, es, c, q + 1, uplink)
  {
    CountedInFuture(period, es, q + 1, uplink);
    assert !ReportedIn(period, es, q + 1);
  }

  lemma AddWraps(v: Volumes, total: nat, vol: nat, uplink: bool, pkts: bool)
    requires Dir(v, uplink) == Wrap(total)
    ensures Dir(Add(v, vol, uplink, pkts), uplink) == Wrap(total + vol)
  {
    assert (total % U64 + vol) % U64 == (total + vol) % U64;
  }

  lemma AddOther(v: Volumes, vol: nat, uplink: bool, pkts: bool)
    ensures Dir(Add(v, vol, !uplink, pkts), uplink) == Dir(v, uplink)
  {}

  /** Which counter an event of period `q` selects. */
  lemma SelectsByParity(period: nat, now: nat)
    requires period > 0
    ensures now < U32 ==> Second(period, now, false) == (now / period % 2 == 1)
    ensures Second(period, now, true) == !Second(period, now, false)
  {}

  /** The clock is cut off to 32 bits. */
  lemma ClockWraps(period: nat, now: nat, previous: bool)
    ensures Second(period, now + U32, previous) == Second(period, now, previous)
  {
    assert (now + U32) % U32 == now % U32;
  }

  /** The history functions after one more event. */
  lemma HistorySnoc(period: nat, es: seq<Event>, e: Event, q: int, uplink: bool)
    requires period > 0 && !e.Clear?
    ensures CountedIn(period, es + [e], q, uplink) == CountedIn(period, es, q, uplink)
              + (if e.Count? && PeriodOf(period, e) == q && e.uplink == uplink then e.vol else 0)
    ensures ReportedIn(period, es + [e], q) <==>
              ReportedIn(period, es, q) || (e.Report? && PeriodOf(period, e) == q)
  {
    var es' := es + [e];
    assert es'[..|es'| - 1] == es;
    if ReportedIn(period, es, q) {
      var j :| 0 <= j < |es| && es[j].Report? && PeriodOf(period, es[j]) == q;
      assert es'[j] == es[j];
    }
    if e.Report? && PeriodOf(period, e) == q { assert es'[|es|] == e; }
  }

  lemma PhaseStep(period: nat, es: seq<Event>, e: Event, c: Counters, uplink: bool)
    requires period > 0 && !e.Clear? && e.period == period && e.now < U32
    requires Phase(period, es, c, PeriodOf(period, e), uplink)
    ensures Phase(period, es + [e], Apply(c, e).counters, PeriodOf(period, e), uplink)
  {
    hide Wrap, Second, Add, CountedIn, ReportedIn;
    var q: int := PeriodOf(period, e);
    HistorySnoc(period, es, e, q, uplink);
    HistorySnoc(period, es, e, q - 1, uplink);
    CountersStep(e, c, CountedIn(period, es, q, uplink), uplink);
    hide Apply;
  }

  /** The counters one event leaves: the counter of its own period, and the other one. */
  lemma CountersStep(e: Event, c: Counters, counted: nat, uplink: bool)
    requires !e.Clear? && e.period > 0 && e.now < U32
    requires Dir(Select(c, PeriodOf(e.period, e) % 2 == 1), uplink) == Wrap(counted)
    ensures
      var odd := PeriodOf(e.period, e) % 2 == 1;
      var c' := Apply(c, e).counters;
      && Dir(Select(c', odd), uplink) == Wrap(counted + if e.Count? && e.uplink == uplink then e.vol else 0)
      && Dir(Select(c', !odd), uplink) == if e.Count? then Dir(Select(c, !odd), uplink) else 0
  {
    SelectsByParity(e.period, e.now);
    if e.Count? {
      var v := Select(c, Second(e.period, e.now, false));
      if e.uplink == uplink {
        AddWraps(v, counted, e.vol, uplink, e.countPkts);
      } else {
        AddOther(v, e.vol, uplink, e.countPkts);
      }
    }
    hide Wrap, Second, Add;
  }

  lemma {:induction false} PhaseAfter(period: nat, es: seq<Event>, uplink: bool)
    requires Periodic(period, es) && es != []
    ensures Phase(period, es, Run(Counters(ZERO, ZERO), es).counters, PeriodOf(period, es[|es| - 1]), uplink)
    decreases |es|
  {
    hide Phase, Apply;
    var prefix, e := es[..|es| - 1], es[|es| - 1];
    assert es == prefix + [e];
    PhaseBefore(period, es, uplink);
    PhaseStep(period, prefix, e, Run(Counters(ZERO, ZERO), prefix).counters, uplink);
  }

  /** Just before its last event, a periodic sequence is in the phase of that event. */
  lemma {:induction false} PhaseBefore(period: nat, es: seq<Event>, uplink: bool)
    requires Periodic(period, es) && es != []
    ensures
      var prefix := es[..|es| - 1];
      Phase(period, prefix, Run(Counters(ZERO, ZERO), prefix).counters, PeriodOf(period, es[|es| - 1]), uplink)
    decreases |es|, 0
  {
    var n := |es| - 1;
    var prefix := es[..n];
    if n == 0 {
      assert !ReportedIn(period, prefix, PeriodOf(period, es[0]));
    } else {
      PeriodicPrefix(period, es);
      PhaseAfter(period, prefix, uplink);
      assert Continues(period, es, n);
      var q := PeriodOf(period, es[n - 1]);
      assert prefix[|prefix| - 1] == es[n - 1];
      if PeriodOf(period, es[n]) != q {
        NextPhase(period, prefix, Run(Counters(ZERO, ZERO), prefix).counters, q, uplink);
      }
    }
  }

  lemma PeriodicPrefix(period: nat, es: seq<Event>)
    requires Periodic(period, es) && es != []
    ensures Periodic(period, es[..|es| - 1])
  {
    var prefix := es[..|es| - 1];
    forall i | 0 < i < |prefix| ensures Continues(period, prefix, i) {
      assert Continues(period, es, i);
      assert prefix[..i] == es[..i];
    }
  }

  /** PERIODIC REPORTS.  In every periodic run the first report of a period carries
      exactly the volume counted in the previous period, and every further report of
      that period carries nothing. */
  lemma ReportCarriesPreviousPeriod(period: nat, es: seq<Event>, uplink: bool)
    requires Periodic(period, es) && es != [] && es[|es| - 1].Report?
    ensures
      var prefix, e := es[..|es| - 1], es[|es| - 1];
      var q := PeriodOf(period, e);
      var sent := Apply(Run(Counters(ZERO, ZERO), prefix).counters, e).reports;
      && |sent| == 1
      && Run(Counters(ZERO, ZERO), es).reports == Run(Counters(ZERO, ZERO), prefix).reports + sent
      && Dir(sent[0], uplink) ==
           (if ReportedIn(period, prefix, q) then 0 else Wrap(CountedIn(period, prefix, q - 1, uplink)))
  {
    PhaseBefore(period, es, uplink);
    SelectsByParity(period, es[|es| - 1].now);
    hide Wrap, Second, CountedIn, ReportedIn, Periodic;
  }
}
