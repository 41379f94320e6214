/** The downlink side of NAS security over all header types and over whole runs: what a dropped
    message does to the UE, and which genuine messages the UE accepts afterwards. */
module NasDownlink {
  import opened Base
  import opened NasSecurity

  /** The message carries a sequence number that the UE looks at. */
  predicate Moves(m: Bytes) { |m| >= 7 && !IsPlain(m) && ReadType(m[1]) != Some(CipheredNew) }

  /** A SECURITY MODE COMMAND for a new context. */
  predicate Resets(m: Bytes, x: Content) { Moves(m) && ReadType(m[1]) == Some(IntegrityNew) && x.Command? }

  /** The state after a message: its MAC does not matter. */
  function After(u: Downlink, m: Bytes, x: Content): Downlink {
    if !Moves(m) then u
    else if Resets(m, x) then Downlink(x.keys, 0)
    else u.(dl := Estimate(u.dl, m[6]))
  }

  lemma StateAfter(u: Downlink, m: Bytes, x: Content)
    requires Lawful(u.keys) && LawfulContent(x)
    ensures Dispatch(u, m, x).0 == After(u, m, x)
    ensures Dispatch(u, m, x).1 == Dropped ==> |m| >= 7 && !IsPlain(m)
  {
    hide Estimate, ReadType;
  }

  /** The estimate is the last COUNT exactly for its own sequence number, and otherwise up to
      255 steps further. */
  lemma EstimateStep(last: Count, sqn: nat)
    requires sqn < 0x100
    ensures Estimate(last, sqn) == (last + (sqn - Sqn(last)) % 0x100) % COUNT_MAX
    ensures Estimate(last, sqn) == last <==> sqn == Sqn(last)
  {
    hide Estimate, Ahead, Sqn, Overflow;
    var e := Estimate(last, sqn);
    EstimateWindow(last, sqn);
    AheadIs(last, e);
    SqnIs(last);
    SqnIs(e);
    SqnRange(last);
    var a := Ahead(last, e);
    var k := Overflow(e) - Overflow(last) + (if e < last then 0x1_0000 else 0);
    assert sqn - Sqn(last) == 0x100 * (-k) + a;
    Remainder(sqn - Sqn(last), -k, a);
    WrapOnce(last + a, e, e < last);
    if sqn == Sqn(last) { assert a == 0; }
  }

  lemma WrapOnce(t: nat, e: Count, wrapped: bool)
    requires t == if wrapped then e + COUNT_MAX else e
    ensures t % COUNT_MAX == e
  {}

  /** DAMAGE, EXACTLY.  A dropped message of any header type: a SECURITY MODE COMMAND for a new
      context sets the COUNT to zero and replaces the keys, a message with the reserved
      header does nothing, and every other one moves the COUNT to the estimate.  The COUNT
      stays if and only if one of these happens to be where it is. */
  lemma DroppedMoves(u: Downlink, m: Bytes, x: Content)
    requires Lawful(u.keys) && LawfulContent(x) && Dispatch(u, m, x).1 == Dropped
    ensures |m| >= 7 && !IsPlain(m) && Dispatch(u, m, x).0 == After(u, m, x)
    ensures After(u, m, x).dl == u.dl <==>
              || ReadType(m[1]) == Some(CipheredNew)
              || (if Resets(m, x) then u.dl == 0 else m[6] == Sqn(u.dl))
    ensures After(u, m, x).keys == if Resets(m, x) then x.keys else u.keys
  {
    hide Estimate, ReadType, Dispatch;
    StateAfter(u, m, x);
    EstimateStep(u.dl, m[6]);
  }

  /** WHAT THE UE DOES, by the octets of any message with a header: a plain one is passed on whole
      and changes nothing; of the others those of type 4 are dropped, and exactly those are
      passed on, without their header and deciphered for type 2, whose MAC is valid: type 3 with
      the keys of the SECURITY MODE COMMAND at COUNT zero, the rest at the estimated COUNT. */
  lemma DispatchIs(u: Downlink, m: Bytes, x: Content, out: Bytes)
    requires Lawful(u.keys) && LawfulContent(x) && |m| >= 2
    ensures m[1] % 16 == 0 ==> Dispatch(u, m, x) == (u, Accepted(m))
    ensures m[1] % 16 != 0 && |m| < 7 ==> Dispatch(u, m, x) == (u, Panics)
    ensures m[1] % 16 != 0 && |m| >= 7 ==>
              var t, est := m[1] % 16, Estimate(u.dl, m[6]);
              && (Dispatch(u, m, x).1 == Panics <==> t == 3 && x.NoHeader?)
              && (Dispatch(u, m, x).1 == Accepted(out) <==>
                    match t
                    case 4 => false
                    case 3 => x.Command? && m[2..6] == x.keys.mac(0, m[6..]) && out == m[7..]
                    case 2 => m[2..6] == u.keys.mac(est, m[6..]) && out == u.keys.encrypt(est, m[7..])
                    case _ => m[2..6] == u.keys.mac(est, m[6..]) && out == m[7..])
  {
    hide Estimate, Lawful;
  }

  // ---------- genuine messages ----------

  /** The genuine downlink messages that the UE takes for what they are. */
  predicate InWindow(dl: Count, p: Protection, c: Count, x: Content) {
    match p
    case Integrity => Ahead(dl, c) <= 255
    case Ciphered => Ahead(dl, c) <= 255
    case IntegrityNew => x.Command? && c == 0
    case CipheredNew => false
  }

  /** The keys with which the UE checks a message, and those a genuine one is protected with. */
  function CheckedWith(u: Downlink, p: Protection, x: Content): Keys {
    if p.IntegrityNew? && x.Command? then x.keys else u.keys
  }

  /** The UE takes the message for one of another COUNT, whose MAC happens to be the same. */
  ghost predicate Coincides(u: Downlink, p: Protection, c: Count, plain: Bytes, x: Content)
    requires Lawful(CheckedWith(u, p, x))
  {
    var k := CheckedWith(u, p, x);
    var body := Body(k, p, c, plain);
    match p
    case CipheredNew => false
    case IntegrityNew => x.Command? && k.mac(0, body) == k.mac(c, body)
    case _ => k.mac(Estimate(u.dl, Sqn(c)), body) == k.mac(c, body)
  }

  lemma ProtectedMoves(k: Keys, p: Protection, c: Count, plain: Bytes)
    requires Lawful(k)
    ensures
      var m := Protect(k, p, c, plain);
      && |m| >= 7 && !IsPlain(m) && ReadType(m[1]) == Some(p) && m[6] == Sqn(c)
      && m[6..] == Body(k, p, c, plain) && m[2..6] == k.mac(c, Body(k, p, c, plain))
      && (if IsCiphered(p) then k.encrypt(c, m[7..]) else m[7..]) == plain
  {
    hide Protect, Body, ReadType, IsPlain;
    Layout(k, p, c, plain);
    ProtectedBody(k, p, c, plain);
    ProtectedIsNotPlain(Protect(k, p, c, plain));
  }

  /** ACCEPTANCE, EXACTLY.  A genuine message of any header type, protected with the keys the UE
      checks it with, is accepted if and only if it is in the window or its MAC coincides;
      in the window the plaintext and the COUNT are recovered. */
  lemma DownlinkAcceptedIff(u: Downlink, p: Protection, c: Count, plain: Bytes, x: Content)
    requires Lawful(u.keys) && LawfulContent(x)
    ensures
      var k := CheckedWith(u, p, x);
      var m := Protect(k, p, c, plain);
      && (Dispatch(u, m, x).1.Accepted? <==> InWindow(u.dl, p, c, x) || Coincides(u, p, c, plain, x))
      && (InWindow(u.dl, p, c, x) ==> Dispatch(u, m, x) == (Downlink(k, c), Accepted(plain)))
      && (Dispatch(u, m, x).1 == Panics <==> p.IntegrityNew? && x.NoHeader?)
  {
    var k := CheckedWith(u, p, x);
    hide Protect, Body, Estimate, Ahead, ReadType, IsPlain;
    ProtectedMoves(k, p, c, plain);
    EstimateIff(u.dl, c);
  }

  /** A message protected with other keys than the UE checks it with passes only by chance. */
  lemma OtherKeysIff(u: Downlink, g: Keys, p: Protection, c: Count, plain: Bytes, x: Content)
    requires Lawful(u.keys) && Lawful(g) && LawfulContent(x)
    ensures
      var k := CheckedWith(u, p, x);
      var m := Protect(g, p, c, plain);
      var body := Body(g, p, c, plain);
      Dispatch(u, m, x).1.Accepted? <==>
        match p
        case CipheredNew => false
        case IntegrityNew => x.Command? && k.mac(0, body) == g.mac(c, body)
        case _ => k.mac(Estimate(u.dl, Sqn(c)), body) == g.mac(c, body)
  {
    hide Protect, Body, Estimate, ReadType, IsPlain;
    ProtectedMoves(g, p, c, plain);
  }

  /** FORGERIES.  After any dropped message, whatever its header type, a genuine message is
      accepted if and only if it is in the window of the state the dropped one has left, or
      its MAC coincides there. */
  lemma ForgedDownlinkMovesWindow(u: Downlink, m: Bytes, x: Content, p: Protection, c: Count, plain: Bytes, y: Content)
    requires Lawful(u.keys) && LawfulContent(x) && LawfulContent(y) && Dispatch(u, m, x).1 == Dropped
    ensures
      var v := Dispatch(u, m, x).0;
      && v == After(u, m, x) && Lawful(v.keys)
      && var next := Protect(CheckedWith(v, p, y), p, c, plain);
      && (Dispatch(v, next, y).1.Accepted? <==> InWindow(v.dl, p, c, y) || Coincides(v, p, c, plain, y))
  {
    hide Dispatch, Protect, InWindow, Coincides, Estimate;
    StateAfter(u, m, x);
    DownlinkAcceptedIff(After(u, m, x), p, c, plain, y);
  }

  /** Witness: a forged message sets the COUNT to 200, and the genuine message with COUNT 1 that
      follows COUNT 0, which would have been accepted, is taken for COUNT 257 and dropped. */
  lemma ForgeryBreaksDownlink(k: Keys, m: Bytes, plain: Bytes, x: Content)
    requires Lawful(k) && LawfulContent(x) && |m| >= 7 && ReadType(m[1]) == Some(Integrity) && m[6] == 200
    requires k.mac(200, m[6..]) != m[2..6]
    requires k.mac(257, Body(k, Integrity, 1, plain)) != k.mac(1, Body(k, Integrity, 1, plain))
    ensures Dispatch(Downlink(k, 0), m, x) == (Downlink(k, 200), Dropped)
    ensures Dispatch(Downlink(k, 0), Protect(k, Integrity, 1, plain), x) == (Downlink(k, 1), Accepted(plain))
    ensures Dispatch(Downlink(k, 200), Protect(k, Integrity, 1, plain), x) == (Downlink(k, 257), Dropped)
  {
    ProtectedIsNotPlain(m);
    ProtectedMoves(k, Integrity, 1, plain);
    hide Protect, Body, ReadType, IsPlain;
    assert Estimate(0, 200) == 200 && Estimate(200, 1) == 257;
    DownlinkAcceptedIff(Downlink(k, 0), Integrity, 1, plain, x);
    DownlinkAcceptedIff(Downlink(k, 200), Integrity, 1, plain, x);
    StateAfter(Downlink(k, 200), Protect(k, Integrity, 1, plain), x);
  }

  /** Witness: a forged SECURITY MODE COMMAND that names the algorithms in use moves the COUNT
      back to zero, and a message that had been accepted long before passes again. */
  lemma ForgedCommandRollsBack(k: Keys, m: Bytes, c: Count, plain: Bytes)
    requires Lawful(k) && |m| >= 7 && ReadType(m[1]) == Some(IntegrityNew) && k.mac(0, m[6..]) != m[2..6]
    requires c <= 255
    requires k.mac(Estimate(1000, Sqn(c)), Body(k, Ciphered, c, plain)) != k.mac(c, Body(k, Ciphered, c, plain))
    ensures !Dispatch(Downlink(k, 1000), Protect(k, Ciphered, c, plain), Other).1.Accepted?
    ensures Dispatch(Downlink(k, 1000), m, Command(k)) == (Downlink(k, 0), Dropped)
    ensures Dispatch(Downlink(k, 0), Protect(k, Ciphered, c, plain), Other) == (Downlink(k, c), Accepted(plain))
  {
    ProtectedIsNotPlain(m);
    hide Protect, Body, ReadType, IsPlain, Estimate;
    DownlinkAcceptedIff(Downlink(k, 1000), Ciphered, c, plain, Other);
    DownlinkAcceptedIff(Downlink(k, 0), Ciphered, c, plain, Other);
    AheadIs(1000, c);
    AheadIs(0, c);
  }

  /** Witness: a forged SECURITY MODE COMMAND that names other algorithms leaves the UE with other
      keys, and the next genuine message is dropped. */
  lemma ForgedCommandChangesKeys(k: Keys, other: Keys, dl: Count, m: Bytes, plain: Bytes)
    requires Lawful(k) && Lawful(other) && |m| >= 7 && ReadType(m[1]) == Some(IntegrityNew)
    requires other.mac(0, m[6..]) != m[2..6]
    requires other.mac(1, Body(k, Ciphered, 1, plain)) != k.mac(1, Body(k, Ciphered, 1, plain))
    ensures Dispatch(Downlink(k, dl), m, Command(other)) == (Downlink(other, 0), Dropped)
    ensures Dispatch(Downlink(other, 0), Protect(k, Ciphered, 1, plain), Other).1 == Dropped
  {
    ProtectedIsNotPlain(m);
    assert Estimate(0, 1) == 1;
    ProtectedMoves(k, Ciphered, 1, plain);
    hide Protect, Body, ReadType, IsPlain, Estimate;
  }

  // ---------- whole runs ----------

  /** What reaches the UE, genuine or not, and what it decodes to. */
  datatype Arrival = Arrival(m: Bytes, x: Content)

  ghost predicate AllLawful(ds: seq<Arrival>) { forall i :: 0 <= i < |ds| ==> LawfulContent(ds[i].x) }

  /** The state of the UE after a run. */
  ghost function DispatchAll(u: Downlink, ds: seq<Arrival>): (v: Downlink)
    requires Lawful(u.keys) && AllLawful(ds)
    ensures Lawful(v.keys)
    decreases |ds|
  {
    if ds == [] then u
    else
      var d := ds[|ds| - 1];
      var before := DispatchAll(u, ds[..|ds| - 1]);
      StateAfter(before, d.m, d.x);
      Dispatch(before, d.m, d.x).0
  }

  /** Position of the last SECURITY MODE COMMAND for a new context. */
  function LastReset(ds: seq<Arrival>): (r: Option<nat>)
    ensures r.Some? ==> r.value < |ds| && Resets(ds[r.value].m, ds[r.value].x)
    ensures forall i :: (if r.Some? then r.value + 1 else 0) <= i < |ds| ==> !Resets(ds[i].m, ds[i].x)
    decreases |ds|
  {
    if ds == [] then None
    else if Resets(ds[|ds| - 1].m, ds[|ds| - 1].x) then Some(|ds| - 1)
    else LastReset(ds[..|ds| - 1])
  }

  /** The steps from one sequence number to the next, each below 256, without resets. */
  function Travel(sqn: nat, ds: seq<Arrival>): nat
    decreases |ds|
  {
    if ds == [] then 0
    else
      var d := ds[|ds| - 1];
      var before := Travel(sqn, ds[..|ds| - 1]);
      before + (if Moves(d.m) then (d.m[6] - (sqn + before)) % 0x100 else 0)
  }

  lemma {:induction false} TravelBound(sqn: nat, ds: seq<Arrival>)
    ensures Travel(sqn, ds) <= 255 * |ds|
    decreases |ds|
  {
    hide Moves;
    if ds != [] { TravelBound(sqn, ds[..|ds| - 1]); }
  }

  /** A number with this quotient and this remainder modulo 256. */
  lemma Remainder(t: int, k: int, s: int)
    requires t == 0x100 * k + s && 0 <= s < 0x100
    ensures t % 0x100 == s
  {}

  lemma SqnOfSum(base: Count, n: nat)
    ensures Sqn((base + n) % COUNT_MAX) == (Sqn(base) + n) % 0x100
  {
    var c: Count := (base + n) % COUNT_MAX;
    var q := (base + n) / COUNT_MAX;
    SqnIs(base);
    SqnIs(c);
    hide Sqn, Overflow;
    var k := 0x1_0000 * q + Overflow(c) - Overflow(base);
    assert Sqn(base) + n == 0x100 * k + Sqn(c);
    SqnRange(c);
    Remainder(Sqn(base) + n, k, Sqn(c));
  }

  lemma SqnRange(c: Count) ensures 0 <= Sqn(c) < 0x100 {}

  lemma ResetAfter(u: Downlink, d: Arrival)
    ensures Resets(d.m, d.x) ==> d.x.Command? && After(u, d.m, d.x) == Downlink(d.x.keys, 0)
  {}

  /** The state that header types, sequence numbers and commands give. */
  function RunState(u: Downlink, ds: seq<Arrival>): Downlink {
    match LastReset(ds)
    case None => Downlink(u.keys, (u.dl + Travel(Sqn(u.dl), ds)) % COUNT_MAX)
    case Some(i) => Downlink(ds[i].x.keys, Travel(0, ds[i + 1..]) % COUNT_MAX)
  }

  lemma Since(ds: seq<Arrival>, i: nat)
    requires i < |ds| - 1
    ensures
      var since := ds[i + 1..];
      |since| > 0 && since[..|since| - 1] == ds[..|ds| - 1][i + 1..] && since[|since| - 1] == ds[|ds| - 1]
  {}

  lemma RunStateSnoc(u: Downlink, ds: seq<Arrival>)
    requires ds != []
    ensures
      var d := ds[|ds| - 1];
      RunState(u, ds) == After(RunState(u, ds[..|ds| - 1]), d.m, d.x)
  {
    hide Estimate, Resets, Sqn, Travel, After;
    var n := |ds| - 1;
    var d := ds[n];
    var before := RunState(u, ds[..n]);
    if Resets(d.m, d.x) {
      ResetAfter(before, d);
      TravelNil(0);
      assert ds[n + 1..] == [];
    } else if LastReset(ds).None? {
      MoveStep(u.dl, before, ds, d);
    } else {
      var i := LastReset(ds).value;
      Since(ds, i);
      SqnZero();
      MoveStep(0, before, ds[i + 1..], d);
    }
  }

  /** DOWNLINK RUNS.  Whatever arrives, genuine, replayed or forged, the UE's COUNT is that of the
      last SECURITY MODE COMMAND for a new context, zero, or the COUNT at the start, plus the
      steps from sequence number to sequence number since; its keys are those that command
      selects, or the ones it had.  No MAC has any part in it. */
  lemma {:induction false} DownlinkRunIs(u: Downlink, ds: seq<Arrival>)
    requires Lawful(u.keys) && AllLawful(ds)
    ensures DispatchAll(u, ds) == RunState(u, ds)
    decreases |ds|
  {
    hide Dispatch, After;
    if ds == [] {
      TravelNil(Sqn(u.dl));
    } else {
      hide RunState;
      var d := ds[|ds| - 1];
      DownlinkRunIs(u, ds[..|ds| - 1]);
      StateAfter(DispatchAll(u, ds[..|ds| - 1]), d.m, d.x);
      RunStateSnoc(u, ds);
    }
  }

  lemma TravelNil(sqn: nat)
    ensures Travel(sqn, []) == 0
  {}

  lemma SqnZero() ensures Sqn(0) == 0 {}

  lemma TravelSnoc(sqn: nat, ds: seq<Arrival>)
    requires ds != []
    ensures
      var d := ds[|ds| - 1];
      var before := Travel(sqn, ds[..|ds| - 1]);
      && (!Moves(d.m) ==> Travel(sqn, ds) == before)
      && (Moves(d.m) ==> |d.m| >= 7 && Travel(sqn, ds) == before + (d.m[6] - (sqn + before)) % 0x100)
  {}

  lemma MovesSqn(m: Bytes)
    ensures Moves(m) ==> |m| >= 7 && m[6] < 0x100
  {}

  /** One more message without a reset. */
  lemma MoveStep(base: Count, before: Downlink, ds: seq<Arrival>, d: Arrival)
    requires ds != [] && ds[|ds| - 1] == d && !Resets(d.m, d.x)
    requires before.dl == (base + Travel(Sqn(base), ds[..|ds| - 1])) % COUNT_MAX
    ensures After(before, d.m, d.x).dl == (base + Travel(Sqn(base), ds)) % COUNT_MAX
    ensures After(before, d.m, d.x).keys == before.keys
  {
    hide Resets, Estimate, Moves, Sqn, Travel;
    TravelSnoc(Sqn(base), ds);
    if Moves(d.m) {
      MovesSqn(d.m);
      var n := Travel(Sqn(base), ds[..|ds| - 1]);
      SqnOfSum(base, n);
      EstimateStep(before.dl, d.m[6]);
      StepMod(d.m[6], Sqn(base) + n, before.dl, base + n);
    }
  }

  lemma StepMod(s: nat, x: nat, last: Count, sum: nat)
    requires last == sum % COUNT_MAX && Sqn(last) == x % 0x100
    ensures (last + (s - Sqn(last)) % 0x100) % COUNT_MAX == (sum + (s - x) % 0x100) % COUNT_MAX
  {
    hide Sqn;
    SubMod(s, x);
    AddMod(sum, (s - x) % 0x100);
  }

  lemma SubMod(s: nat, x: nat)
    ensures (s - x % 0x100) % 0x100 == (s - x) % 0x100
  {
    var d, k := (s - x % 0x100) % 0x100, (s - x % 0x100) / 0x100;
    Remainder(s - x, k - x / 0x100, d);
  }

  lemma AddMod(a: nat, n: nat)
    ensures (a % COUNT_MAX + n) % COUNT_MAX == (a + n) % COUNT_MAX
  {
    var t := a % COUNT_MAX + n;
    CountRemainder(a + n, a / COUNT_MAX + t / COUNT_MAX, t % COUNT_MAX);
  }

  lemma CountRemainder(t: nat, k: nat, r: nat)
    requires t == COUNT_MAX * k + r && r < COUNT_MAX
    ensures t % COUNT_MAX == r
  {}

  /** After every run: which genuine messages the UE still accepts. */
  lemma AcceptedAfterRun(u: Downlink, ds: seq<Arrival>, p: Protection, c: Count, plain: Bytes, x: Content)
    requires Lawful(u.keys) && AllLawful(ds) && LawfulContent(x)
    ensures
      var v := DispatchAll(u, ds);
      var m := Protect(CheckedWith(v, p, x), p, c, plain);
      Dispatch(v, m, x).1.Accepted? <==> InWindow(v.dl, p, c, x) || Coincides(v, p, c, plain, x)
  {
    hide Dispatch, Protect, InWindow, Coincides;
    DownlinkAcceptedIff(DispatchAll(u, ds), p, c, plain, x);
  }
}
