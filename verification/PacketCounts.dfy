/** The packet numbers in counters and reports (`increment_and_check_counter` with MNOP).  They
    are the volumes of the same events with one octet per counted packet, so the laws of
    `Meter` hold for them. */
module PacketCounts {
  import opened Base
  import opened Meter

  function Packets(v: Volumes, uplink: bool): nat { if uplink then v.ulPkts else v.dlPkts }

  function SumPackets(vs: seq<Volumes>, uplink: bool): nat {
    if vs == [] then 0 else SumPackets(vs[..|vs| - 1], uplink) + Packets(vs[|vs| - 1], uplink)
  }

  /** A packet is counted by a URR that asks for packet numbers, unless its volume is zero. */
  predicate CountsPacket(e: Event) { e.Count? && e.countPkts && e.vol != 0 }

  /** Packets presented for counting in one direction. */
  function CountedPackets(es: seq<Event>, uplink: bool): nat {
    if es == [] then 0
    else
      var e := es[|es| - 1];
      CountedPackets(es[..|es| - 1], uplink) + (if CountsPacket(e) && e.uplink == uplink then 1 else 0)
  }

  // ---------- packets as octets ----------

  function View(v: Volumes): Volumes { Volumes(v.totalPkts, v.ulPkts, v.dlPkts, 0, 0, 0) }

  function ViewEvent(e: Event): Event {
    if e.Count? then e.(vol := if CountsPacket(e) then 1 else 0, countPkts := false) else e
  }

  function Views(vs: seq<Volumes>): (r: seq<Volumes>)
    ensures |r| == |vs| && forall i :: 0 <= i < |vs| ==> r[i] == View(vs[i])
  {
    seq(|vs|, i requires 0 <= i < |vs| => View(vs[i]))
  }

  function ViewEvents(es: seq<Event>): (r: seq<Event>)
    ensures |r| == |es| && forall i :: 0 <= i < |es| ==> r[i] == ViewEvent(es[i])
  {
    seq(|es|, i requires 0 <= i < |es| => ViewEvent(es[i]))
  }

  lemma AddView(v: Volumes, vol: nat, uplink: bool, pkts: bool)
    ensures View(Add(v, vol, uplink, pkts)) == Add(View(v), if pkts && vol != 0 then 1 else 0, uplink, false)
  {
    hide Wrap;
  }

  lemma ApplyView(c: Counters, e: Event)
    ensures
      var o := Apply(c, e);
      Apply(Counters(View(c.bytes), View(c.bytes2)), ViewEvent(e)) ==
        Outcome(Counters(View(o.counters.bytes), View(o.counters.bytes2)), Views(o.reports))
  {
    if e.Count? { AddView(Select(c, Second(e.period, e.now, false)), e.vol, e.uplink, e.countPkts); }
    assert forall v :: Views([v]) == [View(v)];
    hide Add, Second;
  }

  /** The packet numbers of a run are the volumes of the run with one octet per packet. */
  lemma {:induction false} RunView(es: seq<Event>)
    ensures
      var r := Run(Counters(ZERO, ZERO), es);
      Run(Counters(ZERO, ZERO), ViewEvents(es)) ==
        Outcome(Counters(View(r.counters.bytes), View(r.counters.bytes2)), Views(r.reports))
    decreases |es|
  {
    if es != [] {
      var n := |es| - 1;
      RunView(es[..n]);
      assert ViewEvents(es)[..n] == ViewEvents(es[..n]);
      var r := Run(Counters(ZERO, ZERO), es[..n]);
      ApplyView(r.counters, es[n]);
      assert Views(r.reports + Apply(r.counters, es[n]).reports) ==
             Views(r.reports) + Views(Apply(r.counters, es[n]).reports);
      hide Apply;
    }
  }

  lemma {:induction false} SumView(vs: seq<Volumes>, uplink: bool)
    ensures Sum(Views(vs), uplink) == SumPackets(vs, uplink)
    decreases |vs|
  {
    if vs != [] {
      SumView(vs[..|vs| - 1], uplink);
      assert Views(vs)[..|vs| - 1] == Views(vs[..|vs| - 1]);
    }
  }

  lemma {:induction false} CountedView(es: seq<Event>, uplink: bool)
    ensures Counted(ViewEvents(es), uplink) == CountedPackets(es, uplink)
    decreases |es|
  {
    if es != [] {
      CountedView(es[..|es| - 1], uplink);
      assert ViewEvents(es)[..|es| - 1] == ViewEvents(es[..|es| - 1]);
    }
  }

  /** CONSERVATION OF PACKETS.  Per direction, the packets counted are the packets reported plus
      those still held, up to a multiple of 2^64. */
  lemma PacketsConserved(es: seq<Event>, uplink: bool) returns (k: nat)
    requires Clear !in es
    ensures
      var r := Run(Counters(ZERO, ZERO), es);
      var held := Packets(r.counters.bytes, uplink) + Packets(r.counters.bytes2, uplink);
      && CountedPackets(es, uplink) == SumPackets(r.reports, uplink) + held + k * U64
      && (CountedPackets(es, uplink) < U64 ==> k == 0)
  {
    hide Run, Sum, Counted, SumPackets, CountedPackets, Apply;
    NoClearView(es);
    k := Conservation(ViewEvents(es), uplink);
    RunView(es);
    SumView(Run(Counters(ZERO, ZERO), es).reports, uplink);
    CountedView(es, uplink);
  }

  lemma NoClearView(es: seq<Event>)
    requires Clear !in es
    ensures Clear !in ViewEvents(es)
  {
    forall i | 0 <= i < |es| ensures ViewEvents(es)[i] != Clear { assert es[i] in es; }
  }

  ghost predicate PacketsCohere(v: Volumes) { v.totalPkts == Wrap(v.ulPkts + v.dlPkts) }

  lemma CoherentView(v: Volumes)
    ensures Coherent(View(v)) <==> PacketsCohere(v)
  {
    hide Wrap;
  }

  /** In every counter and in every report the number of packets is the sum of both directions. */
  lemma PacketTotalsCohere(es: seq<Event>)
    ensures
      var r := Run(Counters(ZERO, ZERO), es);
      && PacketsCohere(r.counters.bytes) && PacketsCohere(r.counters.bytes2)
      && forall i :: 0 <= i < |r.reports| ==> PacketsCohere(r.reports[i])
  {
    hide Run, Coherent, PacketsCohere, View;
    var r := Run(Counters(ZERO, ZERO), es);
    TotalsCohere(ViewEvents(es));
    RunView(es);
    CoherentView(r.counters.bytes);
    CoherentView(r.counters.bytes2);
    forall i | 0 <= i < |r.reports| ensures PacketsCohere(r.reports[i]) {
      CoherentView(r.reports[i]);
      assert Views(r.reports)[i] == View(r.reports[i]);
    }
  }

  // ---------- periods ----------

  /** Packets counted during period `q`. */
  function PacketsIn(period: nat, es: seq<Event>, q: int, uplink: bool): nat
    requires period > 0
    decreases |es|
  {
    if es == [] then 0
    else
      var e := es[|es| - 1];
      PacketsIn(period, es[..|es| - 1], q, uplink)
        + (if CountsPacket(e) && PeriodOf(period, e) == q && e.uplink == uplink then 1 else 0)
  }

  lemma {:induction false} CountedInView(period: nat, es: seq<Event>, q: int, uplink: bool)
    requires period > 0
    ensures CountedIn(period, ViewEvents(es), q, uplink) == PacketsIn(period, es, q, uplink)
    decreases |es|
  {
    if es != [] {
      CountedInView(period, es[..|es| - 1], q, uplink);
      assert ViewEvents(es)[..|es| - 1] == ViewEvents(es[..|es| - 1]);
    }
  }

  lemma ReportedInView(period: nat, es: seq<Event>, q: int)
    requires period > 0
    ensures ReportedIn(period, ViewEvents(es), q) <==> ReportedIn(period, es, q)
  {
    var vs := ViewEvents(es);
    if j :| 0 <= j < |es| && es[j].Report? && PeriodOf(period, es[j]) == q { assert vs[j] == es[j]; }
    if j :| 0 <= j < |vs| && vs[j].Report? && PeriodOf(period, vs[j]) == q { assert es[j] == vs[j]; }
  }

  lemma PeriodicView(period: nat, es: seq<Event>)
    requires Periodic(period, es)
    ensures Periodic(period, ViewEvents(es))
  {
    var vs := ViewEvents(es);
    forall i | 0 < i < |vs| ensures Continues(period, vs, i) {
      assert Continues(period, es, i);
      assert vs[..i] == ViewEvents(es[..i]);
      ReportedInView(period, es[..i], PeriodOf(period, es[i - 1]));
    }
  }

  /** PERIODIC REPORTS OF PACKETS.  In every periodic run the first report of a period carries the
      number of packets counted in the previous period, and every further one carries none. */
  lemma ReportCarriesPreviousPackets(period: nat, es: seq<Event>, uplink: bool)
    requires Periodic(period, es) && es != [] && es[|es| - 1].Report?
    ensures
      var prefix, e := es[..|es| - 1], es[|es| - 1];
      var q := PeriodOf(period, e);
      var reports := Run(Counters(ZERO, ZERO), es).reports;
      && reports != []
      && Packets(reports[|reports| - 1], uplink) ==
           if ReportedIn(period, prefix, q) then 0 else Wrap(PacketsIn(period, prefix, q - 1, uplink))
  {
    hide Run, Apply, CountedIn, PacketsIn, ReportedIn, Periodic, Wrap;
    var n := |es| - 1;
    var vs := ViewEvents(es);
    assert vs[..n] == ViewEvents(es[..n]) && vs[n] == es[n];
    PeriodicView(period, es);
    ReportCarriesPreviousPeriod(period, vs, uplink);
    RunView(es);
    var q: int := PeriodOf(period, es[n]);
    ReportedInView(period, es[..n], q);
    CountedInView(period, es[..n], q - 1, uplink);
  }
}
