/** The token-bucket policer attached to a QER (`trTCM.c`).

    Every `u64` operation of the driver is written with explicit wrap-around in
    the methods of `TrafficPolicer`; `Police` below is the specification they
    meet.  The specification works on mathematical integers and keeps wrap-around
    only where it can happen: in the clock arithmetic and in the product of the
    rate and the refill time.  The reference is section 3 of RFC 2697. */
module Policer {
  import opened Base

  const I32: int := 0x8000_0000
  const NS_PER_S: int := 1_000_000_000
  const MTU: int := 1500

  datatype Color = Green | Yellow | Red

  /** The value of a policer: fixed parameters, two buckets, and the time carry. */
  datatype State = State(
    byteRate: nat, cbs: nat, ebs: nat,
    tc: nat, te: nat,
    lastUpdate: nat, carry: nat)

  /** One packet: the clock reading, and the C `int` length. */
  datatype Packet = Packet(now: nat, len: int)

  ghost predicate Valid(s: State) {
    && s.byteRate < U64
    && s.cbs <= U64 / 4 && s.ebs == 2 * s.cbs
    && s.tc <= s.cbs && s.te <= s.ebs
    && s.lastUpdate < U64 && s.carry < U64
  }

  ghost predicate ValidPacket(p: Packet) {
    p.now < U64 && -I32 <= p.len < I32
  }

  function Min(a: nat, b: nat): nat { if a <= b then a else b }

  /** Conversion of a C `int` to `u64` in a comparison with an unsigned operand. */
  function ToU64(x: int): (r: int)
    requires -I32 <= x < I32
    ensures 0 <= r < U64
  {
    if x < 0 then x + U64 else x
  }

  // ---------- specification of one call ----------

  function Elapsed(s: State, now: nat): nat { (now - s.lastUpdate) % U64 }

  function RefillTime(s: State, now: nat): nat { (s.carry + Elapsed(s, now)) % U64 }

  /** Whole tokens earned in `time` nanoseconds; the product is taken in 64 bits. */
  function TokensIn(rate: nat, time: nat): nat { Product(rate, time) / NS_PER_S }

  function Product(rate: nat, time: nat): nat { rate * time % U64 }

  function RefillTokens(s: State, now: nat): nat { TokensIn(s.byteRate, RefillTime(s, now)) }

  /** Time left over after the whole tokens were taken out of `time`. */
  function CarryAfter(rate: nat, time: nat, tokens: nat): int {
    if tokens == 0 || rate == 0 then time else time - tokens * NS_PER_S / rate
  }

  /** The committed bucket fills first, what does not fit spills into the excess bucket. */
  function Refill(s: State, n: nat): State {
    var spill := if s.tc + n > s.cbs then s.tc + n - s.cbs else 0;
    s.(tc := Min(s.tc + n, s.cbs), te := if spill > 0 then Min(s.te + spill, s.ebs) else s.te)
  }

  /** The colour is decided on the buckets as they were *before* the refill. */
  function Decide(s: State, len: nat): Color {
    if s.tc >= len then Green else if s.te >= len then Yellow else Red
  }

  function Accepted(c: Color, len: nat): nat { if c == Red then 0 else len }

  function Charge(s: State, c: Color, len: nat): State
    requires c == Green ==> len <= s.tc
    requires c == Yellow ==> len <= s.te
  {
    match c
    case Green => s.(tc := s.tc - len)
    case Yellow => s.(te := s.te - len)
    case Red => s
  }

  function Police(s: State, p: Packet): (r: (State, Color))
    requires Valid(s) && ValidPacket(p)
    ensures Valid(r.0)
    ensures r.0.byteRate == s.byteRate && r.0.cbs == s.cbs && r.0.lastUpdate == p.now
    ensures r.1 == Decide(s, ToU64(p.len))
  {
    var n := RefillTokens(s, p.now);
    CarryBounds(s.byteRate, RefillTime(s, p.now), n);
    var timed := s.(lastUpdate := p.now,
                    carry := CarryAfter(s.byteRate, RefillTime(s, p.now), n));
    var c := Decide(s, ToU64(p.len));
    (Charge(Refill(timed, n), c, ToU64(p.len)), c)
  }

  // ---------- arithmetic of the time carry ----------

  /** Taking `n` whole tokens out of `t` nanoseconds never underflows, loses no
      credit, and invents less than one nanosecond's worth of it. */
  lemma CarryBounds(rate: nat, t: nat, n: nat)
    requires n <= TokensIn(rate, t)
    ensures 0 <= CarryAfter(rate, t, n) <= t
    ensures rate * t <= NS_PER_S * n + rate * CarryAfter(rate, t, n)
    ensures NS_PER_S * n + rate * CarryAfter(rate, t, n) <= rate * t + (if rate == 0 then 0 else rate - 1)
  {
    var prod := rate * t;
    assert prod >= 0 by { MulNonNeg(rate, t); }
    assert NS_PER_S * n <= prod % U64 <= prod;
    if rate == 0 || n == 0 {
    } else {
      var q := n * NS_PER_S / rate;
      DivBounds(n * NS_PER_S, rate);
      assert rate * q <= rate * t;
      MulLe(rate, q, t);
      assert rate * (t - q) == rate * t - rate * q;
    }
  }

  /** The 64-bit computation of the carry never wraps. */
  lemma RemainTime(rate: nat, t: nat)
    requires t < U64
    ensures
      var n := TokensIn(rate, t);
      && n <= U64 / NS_PER_S
      && (n > 0 ==> rate > 0 && Wrap(t - Wrap(n * NS_PER_S) / rate) == CarryAfter(rate, t, n))
      && (n == 0 ==> CarryAfter(rate, t, n) == t)
  {
    var n := TokensIn(rate, t);
    MulNonNeg(rate, t);
    CarryBounds(rate, t, n);
    assert n * NS_PER_S <= rate * t % U64 < U64;
    hide TokensIn, Wrap;
    if n > 0 { assert rate > 0; }
  }

  lemma MulNonNeg(a: nat, b: nat) ensures 0 <= a * b {}

  lemma DivBounds(a: nat, b: nat)
    requires b > 0
    ensures b * (a / b) <= a < b * (a / b) + b
  {}

  lemma MulLe(r: nat, a: nat, b: nat)
    requires r > 0 && r * a <= r * b
    ensures a <= b
  {
    assert r * (b + 1) == r * b + r;
    if a > b { MulMono(r, b + 1, a); }
  }

  // ---------- agreement with RFC 2697 ----------

  /** The update that RFC 2697 performs once per token. */
  function OneToken(s: State): State {
    if s.tc < s.cbs then s.(tc := s.tc + 1)
    else if s.te < s.ebs then s.(te := s.te + 1)
    else s
  }

  function Tokens(s: State, n: nat): State {
    if n == 0 then s else OneToken(Tokens(s, n - 1))
  }

  /** The batch refill is the n-fold iteration of the one-token update. */
  lemma {:induction false} RefillIsIteratedTokens(s: State, n: nat)
    requires s.tc <= s.cbs && s.te <= s.ebs
    ensures Refill(s, n) == Tokens(s, n)
  {
    if n > 0 { RefillIsIteratedTokens(s, n - 1); }
  }

  /** What RFC 2697 (colour-blind) does with a packet of `len` bytes: buckets and colour. */
  function Rfc2697(tc: nat, te: nat, len: nat): (nat, nat, Color) {
    if tc >= len then (tc - len, te, Green)
    else if te >= len then (tc, te - len, Yellow)
    else (tc, te, Red)
  }

  function Rank(c: Color): nat { match c case Green => 2 case Yellow => 1 case Red => 0 }

  /** The call never gives a better colour than RFC 2697 gives on the refilled
      buckets; it gives the same one exactly when the refill does not lift the bucket
      that decides over the packet length, and then leaves the same buckets. */
  lemma ColourAgainstRfc2697(s: State, p: Packet)
    requires Valid(s) && ValidPacket(p)
    ensures
      var full := Tokens(s, RefillTokens(s, p.now));
      var len := ToU64(p.len);
      var (s', c) := Police(s, p);
      var (tc, te, ideal) := Rfc2697(full.tc, full.te, len);
      && Rank(c) <= Rank(ideal)
      && (c == ideal <==>
            (full.tc >= len ==> s.tc >= len) && (full.te >= len ==> s.tc >= len || s.te >= len))
      && (c == ideal ==> s'.tc == tc && s'.te == te)
  {
    hide RefillTokens, RefillTime, CarryAfter, Elapsed, ToU64, Tokens;
    RefillIsIteratedTokens(s, RefillTokens(s, p.now));
  }

  /** The driver and RFC 2697 do differ: an idle second refills both buckets, but the
      packet is still judged by the empty ones. */
  lemma ColourDiffersFromRfc2697()
    ensures
      var s := State(1000, 1500, 3000, 0, 0, 0, 0);
      var p := Packet(2 * NS_PER_S, 1500);
      && Valid(s) && ValidPacket(p)
      && Police(s, p).1 == Red
      && var full := Tokens(s, RefillTokens(s, p.now));
      && Rfc2697(full.tc, full.te, 1500).2 == Green
  {
    hide Tokens;
    var s := State(1000, 1500, 3000, 0, 0, 0, 0);
    RefillIsIteratedTokens(s, RefillTokens(s, 2 * NS_PER_S));
  }

  /** ONE CALL, EXACTLY.  Let `e` be the time since the last call on the 64-bit clock, `t` the
      64-bit sum of that and the carry, and `n` the whole tokens in the 64-bit product of the
      rate and `t`.  Then the colour follows from the buckets before the refill, the buckets
      are those after `n` one-token updates less the length if the packet passes, and the carry
      is `t` less the nanoseconds that `n` tokens take. */
  lemma PoliceIs(s: State, p: Packet, e: nat, t: nat, n: nat)
    requires Valid(s) && ValidPacket(p)
    requires e < U64 && (s.lastUpdate + e) % U64 == p.now
    requires t < U64 && (s.carry + e) % U64 == t
    requires 1_000_000_000 * n <= s.byteRate * t % U64 < 1_000_000_000 * (n + 1)
    ensures
      var (s', c) := Police(s, p);
      var full := Tokens(s, n);
      var len := if p.len < 0 then p.len + U64 else p.len;
      && s'.byteRate == s.byteRate && s'.cbs == s.cbs && s'.ebs == s.ebs && s'.lastUpdate == p.now
      && (c == Green <==> len <= s.tc) && (c == Red <==> s.tc < len && s.te < len)
      && s'.tc == full.tc - (if c == Green then len else 0)
      && s'.te == full.te - (if c == Yellow then len else 0)
      && (n == 0 ==> s'.carry == t)
      && (n > 0 ==> 0 <= 1_000_000_000 * n - s.byteRate * (t - s'.carry) < s.byteRate)
  {
    TokensAre(s, p, e, t, n);
    CarryOf(s.byteRate, t, n);
    PoliceCarry(s, p);
    BucketsAfter(s, p);
    RefillIsIteratedTokens(s, n);
    hide Police, RefillTime, RefillTokens, TokensIn, CarryAfter, Elapsed, Tokens, Refill;
  }

  /** The numbers of the call are the ones that the equations determine. */
  lemma TokensAre(s: State, p: Packet, e: nat, t: nat, n: nat)
    requires Valid(s) && ValidPacket(p)
    requires e < U64 && (s.lastUpdate + e) % U64 == p.now
    requires t < U64 && (s.carry + e) % U64 == t
    requires NS_PER_S * n <= s.byteRate * t % U64 < NS_PER_S * (n + 1)
    ensures t == RefillTime(s, p.now) && n == RefillTokens(s, p.now) == TokensIn(s.byteRate, t)
  {
    ClockDifference(s.lastUpdate, e, p.now);
    MulNonNeg(s.byteRate, t);
  }

  /** Colour and buckets after a call, by the batch refill. */
  lemma BucketsAfter(s: State, p: Packet)
    requires Valid(s) && ValidPacket(p)
    ensures
      var (s', c) := Police(s, p);
      var full := Refill(s, RefillTokens(s, p.now));
      var len := if p.len < 0 then p.len + U64 else p.len;
      && s'.byteRate == s.byteRate && s'.cbs == s.cbs && s'.ebs == s.ebs && s'.lastUpdate == p.now
      && (c == Green <==> len <= s.tc) && (c == Red <==> s.tc < len && s.te < len)
      && s'.tc == full.tc - (if c == Green then len else 0)
      && s'.te == full.te - (if c == Yellow then len else 0)
  {
    hide RefillTime, RefillTokens, CarryAfter, Elapsed;
  }

  lemma ClockDifference(last: nat, e: nat, now: nat)
    requires last < U64 && e < U64 && (last + e) % U64 == now
    ensures e == (now - last) % U64
  {}

  /** The time that `n` tokens take is rounded down to whole nanoseconds. */
  lemma CarryOf(rate: nat, t: nat, n: nat)
    requires n == TokensIn(rate, t)
    ensures n == 0 ==> CarryAfter(rate, t, n) == t
    ensures n > 0 ==> 0 <= NS_PER_S * n - rate * (t - CarryAfter(rate, t, n)) < rate
  {
    MulNonNeg(rate, t);
    if n > 0 {
      assert rate > 0;
      DivBounds(n * NS_PER_S, rate);
    }
  }

  /** A negative length is a huge unsigned number: such a packet is always dropped. */
  lemma NegativeLengthIsRed(s: State, p: Packet)
    requires Valid(s) && ValidPacket(p) && p.len < 0
    ensures Police(s, p).1 == Red
  {
    assert ToU64(p.len) > U64 / 2;
  }

  // ---------- whole runs ----------

  datatype Trace = Trace(final: State, bytes: nat, tokens: nat, time: nat, wrapped: bool)

  function Run(s: State, ps: seq<Packet>): (r: Trace)
    requires Valid(s) && forall i :: 0 <= i < |ps| ==> ValidPacket(ps[i])
    ensures Valid(r.final) && r.final.byteRate == s.byteRate && r.final.cbs == s.cbs
    decreases |ps|
  {
    if ps == [] then Trace(s, 0, 0, 0, false)
    else
      var r := Run(s, ps[..|ps| - 1]);
      var p := ps[|ps| - 1];
      var (s', c) := Police(r.final, p);
      Trace(s',
            r.bytes + Accepted(c, ToU64(p.len)),
            r.tokens + RefillTokens(r.final, p.now),
            r.time + Elapsed(r.final, p.now),
            r.wrapped || Wraps(r.final, p))
  }

  /** One of the two 64-bit operations that can overflow does overflow in this call. */
  predicate Wraps(s: State, p: Packet) {
    s.carry + Elapsed(s, p.now) >= U64 || s.byteRate * RefillTime(s, p.now) >= U64
  }

  /** Credit held by a policer, in billionths of a byte. */
  ghost function Credit(s: State): int { NS_PER_S * (s.tc + s.te) + s.byteRate * s.carry }

  function Slack(rate: nat): nat { if rate == 0 then 0 else rate - 1 }

  /** One call, whatever wraps: what is let through plus the credit kept is at most
      the credit before plus what the elapsed time earns (plus less than 1 ns). */
  lemma StepCredit(s: State, p: Packet)
    requires Valid(s) && ValidPacket(p)
    ensures
      var (s', c) := Police(s, p);
      NS_PER_S * Accepted(c, ToU64(p.len)) + Credit(s')
        <= Credit(s) + s.byteRate * Elapsed(s, p.now) + Slack(s.byteRate)
  {
    hide Police, CarryAfter, Slack, TokensIn, Elapsed;
    var t := RefillTime(s, p.now);
    TimeBound(s.byteRate, t);
    MulMono(s.byteRate, t, s.carry + Elapsed(s, p.now));
    assert s.byteRate * (s.carry + Elapsed(s, p.now)) == s.byteRate * s.carry + s.byteRate * Elapsed(s, p.now);
    PoliceCarry(s, p);
    PoliceBuckets(s, p);
  }

  lemma TimeBound(rate: nat, t: nat)
    ensures
      var n := TokensIn(rate, t);
      NS_PER_S * n + rate * CarryAfter(rate, t, n) <= rate * t + Slack(rate)
  {
    CarryBounds(rate, t, TokensIn(rate, t));
    hide CarryAfter, TokensIn;
  }

  /** Accepted bytes come out of the buckets; the refill puts at most its tokens in. */
  lemma PoliceBuckets(s: State, p: Packet)
    requires Valid(s) && ValidPacket(p)
    ensures
      var (s', c) := Police(s, p);
      s'.tc + s'.te + Accepted(c, ToU64(p.len)) <= s.tc + s.te + RefillTokens(s, p.now)
  {
    hide RefillTime, RefillTokens, CarryAfter, Elapsed, TokensIn;
  }

  lemma MulMono(r: nat, a: nat, b: nat)
    requires a <= b
    ensures r * a <= r * b
  {
    assert r * (b - a) >= 0;
    assert r * b - r * a == r * (b - a);
  }

  /** RATE CONFORMANCE.  Over every run, from every valid state, wrapped or not: the
      bytes let through are bounded by the initial credit plus rate times time. */
  lemma {:induction false} RunCredit(s: State, ps: seq<Packet>)
    requires Valid(s) && forall i :: 0 <= i < |ps| ==> ValidPacket(ps[i])
    ensures
      var r := Run(s, ps);
      NS_PER_S * r.bytes + Credit(r.final)
        <= Credit(s) + s.byteRate * r.time + Slack(s.byteRate) * |ps|
    decreases |ps|
  {
    hide Police, Elapsed, Slack, RefillTokens, RefillTime, Accepted, ToU64, Credit, Valid, ValidPacket;
    if ps != [] {
      var k := |ps| - 1;
      RunCredit(s, ps[..k]);
      var r := Run(s, ps[..k]);
      StepCredit(r.final, ps[k]);
      var e := Elapsed(r.final, ps[k].now);
      Distribute(s.byteRate, r.time, e);
      Distribute(Slack(s.byteRate), k, 1);
    }
  }

  /** The bound for a policer as `newTrafficPolicer` makes it: full buckets, no carry. */
  lemma ConformanceFromStart(kbitRate: nat, start: nat, ps: seq<Packet>)
    requires kbitRate < U64 && start < U64
    requires forall i :: 0 <= i < |ps| ==> ValidPacket(ps[i])
    ensures
      var s := Fresh(kbitRate, start);
      var r := Run(s, ps);
      NS_PER_S * r.bytes
        <= NS_PER_S * (s.cbs + s.ebs) + s.byteRate * r.time + Slack(s.byteRate) * |ps|
  {
    var s := Fresh(kbitRate, start);
    RunCredit(s, ps);
    var f := Run(s, ps).final;
    MulNonNeg(f.byteRate, f.carry);
  }

  /** NO CREDIT LOST.  Over every run in which neither 64-bit operation wrapped, the
      tokens produced and the carry account for all of the elapsed time, with less
      than one nanosecond per packet in excess; and the carry is worth less than one
      token plus one nanosecond. */
  lemma {:induction false} RunTimeCarry(s: State, ps: seq<Packet>)
    requires Valid(s) && forall i :: 0 <= i < |ps| ==> ValidPacket(ps[i])
    requires !Run(s, ps).wrapped
    ensures
      var r := Run(s, ps);
      var earned := s.byteRate * (s.carry + r.time);
      var held := NS_PER_S * r.tokens + s.byteRate * r.final.carry;
      && earned <= held <= earned + Slack(s.byteRate) * |ps|
      && (ps != [] ==> s.byteRate * r.final.carry < NS_PER_S + s.byteRate || s.byteRate == 0)
    decreases |ps|
  {
    hide Police, Wraps, Elapsed, Slack, RefillTokens, Accepted, ToU64, Valid, ValidPacket;
    if ps != [] {
      var k := |ps| - 1;
      RunTimeCarry(s, ps[..k]);
      var r := Run(s, ps[..k]);
      var e := Elapsed(r.final, ps[k].now);
      StepTimeCarry(r.final, ps[k]);
      Distribute(s.byteRate, r.final.carry, e);
      Distribute(s.byteRate, s.carry + r.time, e);
      Distribute(Slack(s.byteRate), k, 1);
    }
  }

  lemma Distribute(a: nat, b: nat, c: nat) ensures a * (b + c) == a * b + a * c {}

  /** The same account for one call in which nothing wraps. */
  lemma StepTimeCarry(s: State, p: Packet)
    requires Valid(s) && ValidPacket(p)
    requires !Wraps(s, p)
    ensures
      var earned := s.byteRate * (s.carry + Elapsed(s, p.now));
      var carry' := Police(s, p).0.carry;
      && earned <= NS_PER_S * RefillTokens(s, p.now) + s.byteRate * carry' <= earned + Slack(s.byteRate)
      && (s.byteRate == 0 || s.byteRate * carry' < NS_PER_S + s.byteRate)
  {
    hide Police, CarryAfter, Slack, TokensIn, Elapsed;
    PoliceCarry(s, p);
    TimeAccount(s.byteRate, RefillTime(s, p.now));
  }

  lemma TimeAccount(rate: nat, t: nat)
    requires rate * t < U64
    ensures
      var n := TokensIn(rate, t);
      var carry' := CarryAfter(rate, t, n);
      && rate * t <= NS_PER_S * n + rate * carry' <= rate * t + Slack(rate)
      && (rate == 0 || rate * carry' < NS_PER_S + rate)
  {
    TokensWithoutWrap(rate, t);
    CarryBounds(rate, t, TokensIn(rate, t));
    CarryIsSmall(rate, t);
    hide CarryAfter, TokensIn;
  }

  lemma TokensWithoutWrap(rate: nat, t: nat)
    requires rate * t < U64
    ensures TokensIn(rate, t) == rate * t / NS_PER_S
  {
    MulNonNeg(rate, t);
  }

  lemma PoliceCarry(s: State, p: Packet)
    requires Valid(s) && ValidPacket(p)
    ensures Police(s, p).0.carry == CarryAfter(s.byteRate, RefillTime(s, p.now), RefillTokens(s, p.now))
  {
    hide RefillTime, RefillTokens, CarryAfter, Elapsed;
  }

  lemma CarryIsSmall(rate: nat, t: nat)
    requires rate * t < U64
    ensures rate == 0 || rate * CarryAfter(rate, t, rate * t / NS_PER_S) < NS_PER_S + rate
  {
    if rate > 0 {
      var n := rate * t / NS_PER_S;
      DivBounds(rate * t, NS_PER_S);
      if n > 0 {
        var q := n * NS_PER_S / rate;
        DivBounds(n * NS_PER_S, rate);
        assert rate * (t - q) == rate * t - rate * q;
      }
    }
  }

  /** Negative or absent progress of the clock aside, the elapsed times of a run with a
      nondecreasing clock add up to the difference of its end points. */
  lemma {:induction false} RunTimeIsClockDifference(s: State, ps: seq<Packet>)
    requires Valid(s) && forall i :: 0 <= i < |ps| ==> ValidPacket(ps[i])
    requires forall i :: 0 <= i < |ps| ==> s.lastUpdate <= ps[i].now
    requires forall i, j :: 0 <= i < j < |ps| ==> ps[i].now <= ps[j].now
    ensures Run(s, ps).time == Run(s, ps).final.lastUpdate - s.lastUpdate
    ensures ps != [] ==> Run(s, ps).final.lastUpdate == ps[|ps| - 1].now
    decreases |ps|
  {
    hide Police, RefillTokens, RefillTime, Accepted, ToU64;
    if ps != [] {
      var k := |ps| - 1;
      RunTimeIsClockDifference(s, ps[..k]);
      if k > 0 { assert ps[..k][k - 1] == ps[k - 1]; }
    }
  }

  // ---------- construction ----------

  /** The value `newTrafficPolicer` builds, in 64-bit arithmetic. */
  function Fresh(kbitRate: nat, start: nat): (s: State)
    requires kbitRate < U64 && start < U64
    ensures Valid(s) && s.tc == s.cbs && s.te == s.ebs && s.carry == 0 && s.cbs >= MTU
    ensures s.lastUpdate == start && (kbitRate * 125 - s.byteRate) % U64 == 0
  {
    var rate := kbitRate * 125 % U64;
    var burst := rate * 8 % U64 / 1000;
    var cbs := if burst < MTU then MTU else burst;
    State(rate, cbs, 2 * cbs, cbs, 2 * cbs, start, 0)
  }

  /** Below 2^54 kbit/s nothing wraps: the rate is 125 bytes per kbit and the committed
      burst is 8 ms worth of it (at least one MTU). */
  lemma FreshBurst(kbitRate: nat, start: nat)
    requires kbitRate * 1000 < U64 && start < U64
    ensures Fresh(kbitRate, start).byteRate == 125 * kbitRate
    ensures Fresh(kbitRate, start).cbs == if kbitRate < 1500 then 1500 else kbitRate
  {}

  class TrafficPolicer {
    var byteRate: nat
    var cbs: nat
    var ebs: nat
    var tc: nat
    var te: nat
    var lastUpdate: nat
    var refillTokenTime: nat

    ghost function View(): State
      reads this
    {
      State(byteRate, cbs, ebs, tc, te, lastUpdate, refillTokenTime)
    }

    constructor (kbitRate: nat, now: nat)
      requires kbitRate < U64 && now < U64
      ensures View() == Fresh(kbitRate, now)
    {
      byteRate := kbitRate * 125 % U64;
      cbs := kbitRate * 125 % U64 * 8 % U64 / 1000;
      new;
      if cbs < MTU { cbs := MTU; }
      ebs := cbs * 2 % U64;
      tc := cbs;
      te := ebs;
      lastUpdate := now;
      refillTokenTime := 0;
    }

    /** First half of `policePacket`: advance the clock and turn time into tokens. */
    method TakeTokens(now: nat) returns (refillTokens: nat)
      requires Valid(View()) && now < U64
      modifies this`lastUpdate, this`refillTokenTime
      ensures refillTokens == RefillTokens(old(View()), now) <= U64 / NS_PER_S
      ensures lastUpdate == now
      ensures refillTokenTime == CarryAfter(byteRate, RefillTime(old(View()), now), refillTokens)
    {
      hide Product, CarryAfter, Wrap;
      var elapsed := (now - lastUpdate) % U64;
      lastUpdate := now;
      refillTokenTime := (refillTokenTime + elapsed) % U64;
      refillTokens := Product(byteRate, refillTokenTime) / NS_PER_S;
      RemainTime(byteRate, refillTokenTime);
      if refillTokens > 0 {
        var remainTime := Wrap(refillTokenTime - Wrap(refillTokens * NS_PER_S) / byteRate);
        refillTokenTime := remainTime;
      }
    }

    /** `policePacket`, every operation in 64 bits. */
    method PolicePacket(now: nat, pktLen: int) returns (color: Color)
      requires Valid(View()) && ValidPacket(Packet(now, pktLen))
      modifies this
      ensures (View(), color) == Police(old(View()), Packet(now, pktLen))
    {
      ghost var s := View();
      var refillTokens := TakeTokens(now);
      color := FillAndCharge(refillTokens, ToU64(pktLen));
      assert (View(), color) == Police(s, Packet(now, pktLen)) by {
        hide RefillTokens, RefillTime, CarryAfter, Elapsed, ToU64;
      }
    }

    /** Second half of `policePacket`: fill the buckets, decide, and charge. */
    method FillAndCharge(refillTokens: nat, len: nat) returns (color: Color)
      requires tc <= cbs <= U64 / 4 && te <= ebs == 2 * cbs
      requires refillTokens <= U64 / NS_PER_S && len < U64
      modifies this`tc, this`te
      ensures color == Decide(old(View()), len)
      ensures View() == Charge(Refill(old(View()), refillTokens), color, len)
    {
      hide Wrap;
      var c := Wrap(tc + refillTokens);
      var e := te;
      if c > cbs {
        e := Wrap(e + (c - cbs));
        if e > ebs { e := ebs; }
        c := cbs;
      }
      if tc >= len {
        tc := Wrap(c - len);
        te := e;
        return Green;
      }
      if te >= len {
        tc := c;
        te := Wrap(e - len);
        return Yellow;
      }
      tc := c;
      te := e;
      return Red;
    }
  }
}
