/** Precedence-ordered buckets of PDRs: `pdr_update_hlist_table`, `pdr_find_by_gtp1u`
    and `pdr_find_by_ipv4`, for any hash functions. */
module Classifier {
  import opened Base
  import opened Rules

  datatype Index = ByTeid | ByAddr

  /** The bucket a PDR belongs to: by TEID if it has an F-TEID, else by UE address. */
  function SlotOf(cfg: Config, ix: Index, p: Pdr): (r: Option<nat>)
    requires cfg.size > 0
    ensures r.Some? ==> r.value < cfg.size
  {
    if p.pdi.None? then None
    else match ix
      case ByTeid =>
        if p.pdi.value.fTeid.Some? then Some(cfg.teidHash(p.pdi.value.fTeid.value.teid) % cfg.size) else None
      case ByAddr =>
        if p.pdi.value.fTeid.None? && p.pdi.value.ueAddr.Some?
        then Some(cfg.addrHash(p.pdi.value.ueAddr.value) % cfg.size) else None
  }

  ghost predicate NoDup(l: seq<Key>) { forall i, j :: 0 <= i < j < |l| ==> l[i] != l[j] }

  ghost predicate Sorted(l: seq<Key>, pdrs: map<Key, Pdr>)
    requires forall k :: k in l ==> k in pdrs
  {
    forall i, j :: 0 <= i < j < |l| ==> pdrs[l[i]].precedence <= pdrs[l[j]].precedence
  }

  /** A bucket lists exactly the PDRs that belong to it, once each, by precedence. */
  ghost predicate BucketOk(cfg: Config, ix: Index, b: nat, l: seq<Key>, pdrs: map<Key, Pdr>)
    requires cfg.size > 0
  {
    && NoDup(l)
    && (forall k :: k in l <==> k in pdrs && SlotOf(cfg, ix, pdrs[k]) == Some(b))
    && Sorted(l, pdrs)
  }

  ghost predicate Indexed(cfg: Config, ix: Index, tbl: Table, pdrs: map<Key, Pdr>) {
    && cfg.size > 0 && |tbl| == cfg.size
    && forall b :: 0 <= b < |tbl| ==> BucketOk(cfg, ix, b, tbl[b], pdrs)
  }

  // ---------- unlinking ----------

  /** The list without `k`. */
  function Without(l: seq<Key>, k: Key): (r: seq<Key>)
    ensures forall x :: x in r <==> x in l && x != k
  {
    if l == [] then []
    else if l[0] == k then Without(l[1..], k)
    else [l[0]] + Without(l[1..], k)
  }

  /** `hlist_del_rcu` of a PDR, whatever bucket it is in. */
  function Unlink(tbl: Table, k: Key): (r: Table)
    ensures |r| == |tbl|
  {
    seq(|tbl|, b requires 0 <= b < |tbl| => Without(tbl[b], k))
  }

  lemma {:induction false} WithoutKeepsOrder(l: seq<Key>, k: Key, pdrs: map<Key, Pdr>)
    requires NoDup(l) && (forall x :: x in l ==> x in pdrs) && Sorted(l, pdrs)
    ensures NoDup(Without(l, k)) && Sorted(Without(l, k), pdrs)
  {
    if l != [] {
      var t := l[1..];
      WithoutKeepsOrder(t, k, pdrs);
      var r := Without(l, k);
      if l[0] != k {
        assert r[0] == l[0] && r[1..] == Without(t, k);
        forall j | 0 < j < |r|
          ensures r[0] != r[j] && pdrs[r[0]].precedence <= pdrs[r[j]].precedence
        {
          assert r[j] in Without(t, k);
        }
      }
    }
  }

  lemma {:induction false} WithoutAbsent(l: seq<Key>, k: Key)
    requires k !in l
    ensures Without(l, k) == l
  {
    if l != [] { WithoutAbsent(l[1..], k); }
  }

  /** Unlinking takes out the node of the PDR and leaves the rest as it is. */
  lemma {:induction false} WithoutIs(a: seq<Key>, k: Key, b: seq<Key>)
    requires k !in a && k !in b
    ensures Without(a + [k] + b, k) == a + b
  {
    var l := a + [k] + b;
    if a == [] {
      assert l[1..] == b;
      WithoutAbsent(b, k);
    } else {
      assert l[1..] == a[1..] + [k] + b;
      WithoutIs(a[1..], k, b);
    }
  }

  lemma UnlinkRemoves(cfg: Config, ix: Index, tbl: Table, pdrs: map<Key, Pdr>, k: Key)
    requires Indexed(cfg, ix, tbl, pdrs)
    ensures Indexed(cfg, ix, Unlink(tbl, k), pdrs - {k})
  {
    forall b | 0 <= b < |tbl|
      ensures BucketOk(cfg, ix, b, Unlink(tbl, k)[b], pdrs - {k})
    {
      assert BucketOk(cfg, ix, b, tbl[b], pdrs);
      WithoutKeepsOrder(tbl[b], k, pdrs);
    }
  }

  // ---------- linking by precedence ----------

  /** Number of leading entries with a strictly smaller precedence value. */
  function Position(l: seq<Key>, pdrs: map<Key, Pdr>, precedence: nat): (n: nat)
    requires forall k :: k in l ==> k in pdrs
    ensures n <= |l|
    ensures forall i :: 0 <= i < n ==> pdrs[l[i]].precedence < precedence
    ensures n < |l| ==> pdrs[l[n]].precedence >= precedence
  {
    if l == [] || precedence <= pdrs[l[0]].precedence then 0 else 1 + Position(l[1..], pdrs, precedence)
  }

  function Insert(l: seq<Key>, pdrs: map<Key, Pdr>, k: Key, precedence: nat): (r: seq<Key>)
    requires forall x :: x in l ==> x in pdrs
    ensures |r| == |l| + 1 && multiset(r) == multiset(l) + multiset{k}
  {
    var n := Position(l, pdrs, precedence);
    assert l == l[..n] + l[n..];
    l[..n] + [k] + l[n..]
  }

  /** Where the entry at index `i` of the list after insertion at `n` comes from. */
  lemma InsertAt(l: seq<Key>, pdrs: map<Key, Pdr>, k: Key, precedence: nat, i: nat)
    requires (forall x :: x in l ==> x in pdrs) && i <= |l|
    ensures
      var n := Position(l, pdrs, precedence);
      Insert(l, pdrs, k, precedence)[i] == if i < n then l[i] else if i == n then k else l[i - 1]
  {}

  lemma InsertMembers(l: seq<Key>, pdrs: map<Key, Pdr>, k: Key, precedence: nat)
    requires forall x :: x in l ==> x in pdrs
    ensures forall x :: x in Insert(l, pdrs, k, precedence) <==> x == k || x in l
  {
    hide Insert;
    var r := Insert(l, pdrs, k, precedence);
    assert forall x :: x in r <==> x in multiset(r);
  }

  lemma InsertPair(l: seq<Key>, pdrs: map<Key, Pdr>, k: Key, p: Pdr, i: nat, j: nat)
    requires (forall x :: x in l ==> x in pdrs) && k !in pdrs && NoDup(l) && Sorted(l, pdrs)
    requires i < j <= |l|
    ensures
      var r := Insert(l, pdrs, k, p.precedence);
      && r[i] != r[j] && r[i] in pdrs[k := p] && r[j] in pdrs[k := p]
      && pdrs[k := p][r[i]].precedence <= pdrs[k := p][r[j]].precedence
  {
    hide Insert;
    InsertAt(l, pdrs, k, p.precedence, i);
    InsertAt(l, pdrs, k, p.precedence, j);
    var n := Position(l, pdrs, p.precedence);
    if i == n && n < j - 1 { assert pdrs[l[n]].precedence <= pdrs[l[j - 1]].precedence; }
  }

  lemma InsertKeepsOrder(l: seq<Key>, pdrs: map<Key, Pdr>, k: Key, p: Pdr)
    requires (forall x :: x in l ==> x in pdrs) && k !in pdrs && NoDup(l) && Sorted(l, pdrs)
    ensures
      var r := Insert(l, pdrs, k, p.precedence);
      && (forall x :: x in r <==> x == k || x in l)
      && NoDup(r) && Sorted(r, pdrs[k := p])
  {
    hide Insert, Position;
    InsertMembers(l, pdrs, k, p.precedence);
    var r := Insert(l, pdrs, k, p.precedence);
    forall i, j | 0 <= i < j < |r|
      ensures r[i] != r[j] && pdrs[k := p][r[i]].precedence <= pdrs[k := p][r[j]].precedence
    {
      InsertPair(l, pdrs, k, p, i, j);
    }
  }

  lemma InsertKeepsBucket(cfg: Config, ix: Index, b: nat, l: seq<Key>, pdrs: map<Key, Pdr>, k: Key, p: Pdr)
    requires cfg.size > 0 && k !in pdrs && SlotOf(cfg, ix, p) == Some(b)
    requires BucketOk(cfg, ix, b, l, pdrs)
    ensures BucketOk(cfg, ix, b, Insert(l, pdrs, k, p.precedence), pdrs[k := p])
  {
    hide Insert, NoDup, Sorted, SlotOf;
    InsertKeepsOrder(l, pdrs, k, p);
  }

  /** Tables after `pdr_update_hlist_table` linked `k` into the table `ix`. */
  function Link(cfg: Config, ix: Index, tbl: Table, pdrs: map<Key, Pdr>, k: Key, p: Pdr): Table
    requires cfg.size > 0 && |tbl| == cfg.size
    requires forall b, x :: 0 <= b < |tbl| && x in tbl[b] ==> x in pdrs
  {
    var slot := SlotOf(cfg, ix, p);
    if slot.None? then tbl else tbl[slot.value := Insert(tbl[slot.value], pdrs, k, p.precedence)]
  }

  lemma LinkIndexes(cfg: Config, ix: Index, tbl: Table, pdrs: map<Key, Pdr>, k: Key, p: Pdr)
    requires Indexed(cfg, ix, tbl, pdrs) && k !in pdrs
    requires forall b, x :: 0 <= b < |tbl| && x in tbl[b] ==> x in pdrs
    ensures Indexed(cfg, ix, Link(cfg, ix, tbl, pdrs, k, p), pdrs[k := p])
  {
    hide Insert, NoDup;
    var tbl' := Link(cfg, ix, tbl, pdrs, k, p);
    forall b | 0 <= b < |tbl'|
      ensures BucketOk(cfg, ix, b, tbl'[b], pdrs[k := p])
    {
      assert BucketOk(cfg, ix, b, tbl[b], pdrs);
      if SlotOf(cfg, ix, p) == Some(b) { InsertKeepsBucket(cfg, ix, b, tbl[b], pdrs, k, p); }
    }
  }

  /** Changing fields that the classifier does not look at keeps the tables valid. */
  lemma IndexedFrame(cfg: Config, ix: Index, tbl: Table, pdrs: map<Key, Pdr>, pdrs': map<Key, Pdr>)
    requires Indexed(cfg, ix, tbl, pdrs) && pdrs'.Keys == pdrs.Keys
    requires forall k :: k in pdrs ==> pdrs'[k].pdi == pdrs[k].pdi && pdrs'[k].precedence == pdrs[k].precedence
    ensures Indexed(cfg, ix, tbl, pdrs')
  {
    forall b | 0 <= b < |tbl| ensures BucketOk(cfg, ix, b, tbl[b], pdrs') {
      assert BucketOk(cfg, ix, b, tbl[b], pdrs);
    }
  }

  /** The scan for the last entry with a smaller precedence value, and the insertion
      behind it. */
  method InsertByPrecedence(l: seq<Key>, pdrs: map<Key, Pdr>, k: Key, precedence: nat) returns (r: seq<Key>)
    requires forall x :: x in l ==> x in pdrs
    ensures r == Insert(l, pdrs, k, precedence)
  {
    hide Position;
    var last := 0;
    while last < |l| && precedence > pdrs[l[last]].precedence
      invariant last <= |l|
      invariant forall i :: 0 <= i < last ==> pdrs[l[i]].precedence < precedence
    {
      last := last + 1;
    }
    PositionIs(l, pdrs, precedence, last);
    assert last == 0 ==> l[..0] == [] && l[0..] == l && [] + [k] == [k];
    r := if last == 0 then [k] + l else l[..last] + [k] + l[last..];
  }

  /** There is only one place where the smaller precedence values end. */
  lemma PositionIs(l: seq<Key>, pdrs: map<Key, Pdr>, precedence: nat, n: nat)
    requires (forall k :: k in l ==> k in pdrs) && n <= |l|
    requires forall i :: 0 <= i < n ==> pdrs[l[i]].precedence < precedence
    requires n < |l| ==> pdrs[l[n]].precedence >= precedence
    ensures Position(l, pdrs, precedence) == n
  {
    hide Position;
    var p := Position(l, pdrs, precedence);
    assert !(p < n) && !(n < p);
  }

  // ---------- lookups ----------

  /** `r` is what a lookup for `matches` over the PDRs of table `ix` has to return: a
      matching PDR of least precedence value, or nothing exactly when none matches. */
  ghost predicate IsBest(cfg: Config, ix: Index, pdrs: map<Key, Pdr>, matches: Pdr -> bool, r: Option<Key>)
    requires cfg.size > 0
  {
    match r
    case Some(k) =>
      && k in pdrs && SlotOf(cfg, ix, pdrs[k]).Some? && matches(pdrs[k])
      && forall q :: q in pdrs && SlotOf(cfg, ix, pdrs[q]).Some? && matches(pdrs[q]) ==>
           pdrs[k].precedence <= pdrs[q].precedence
    case None =>
      forall q :: q in pdrs && SlotOf(cfg, ix, pdrs[q]).Some? ==> !matches(pdrs[q])
  }

  /** The first match in a valid bucket is a best match of the whole table, provided
      every match of the table hashes to that bucket. */
  lemma FirstIsBest(cfg: Config, ix: Index, b: nat, l: seq<Key>, pdrs: map<Key, Pdr>, matches: Pdr -> bool, n: nat)
    requires cfg.size > 0 && BucketOk(cfg, ix, b, l, pdrs) && n <= |l|
    requires forall i :: 0 <= i < n ==> !matches(pdrs[l[i]])
    requires n < |l| ==> matches(pdrs[l[n]])
    requires forall k :: k in pdrs && SlotOf(cfg, ix, pdrs[k]).Some? && matches(pdrs[k]) ==>
               SlotOf(cfg, ix, pdrs[k]) == Some(b)
    ensures IsBest(cfg, ix, pdrs, matches, if n < |l| then Some(l[n]) else None)
  {
    forall q | q in pdrs && SlotOf(cfg, ix, pdrs[q]).Some? && matches(pdrs[q])
      ensures n < |l| && pdrs[l[n]].precedence <= pdrs[q].precedence
    {
      assert q in l;
      var j :| 0 <= j < |l| && l[j] == q;
    }
  }

  /** `pdr_find_by_gtp1u`. */
  method FindByGtp1u(cfg: Config, tbl: Table, pdrs: map<Key, Pdr>, pkt: Packet, teid: nat, tpdu: bool)
    returns (r: Option<Key>)
    requires Indexed(cfg, ByTeid, tbl, pdrs)
    ensures !pkt.isIpv4 || (tpdu && pkt.inner.None?) ==> r == None
    ensures pkt.isIpv4 && (tpdu ==> pkt.inner.Some?) ==>
              IsBest(cfg, ByTeid, pdrs, p => GtpMatch(cfg, p, pkt, teid, tpdu), r)
  {
    if !pkt.isIpv4 { return None; }
    if tpdu && pkt.inner.None? { return None; }
    var b := cfg.teidHash(teid) % cfg.size;
    var l := tbl[b];
    assert BucketOk(cfg, ByTeid, b, l, pdrs);
    ghost var matches := p => GtpMatch(cfg, p, pkt, teid, tpdu);
    var i := 0;
    while i < |l|
      invariant i <= |l|
      invariant forall j :: 0 <= j < i ==> !matches(pdrs[l[j]])
    {
      var found := CheckGtp(cfg, pdrs[l[i]], pkt, teid, tpdu);
      if found {
        FirstIsBest(cfg, ByTeid, b, l, pdrs, matches, i);
        return Some(l[i]);
      }
      i := i + 1;
    }
    FirstIsBest(cfg, ByTeid, b, l, pdrs, matches, i);
    return None;
  }

  /** The body of the TEID bucket loop, in the order of its tests. */
  method CheckGtp(cfg: Config, p: Pdr, pkt: Packet, teid: nat, tpdu: bool) returns (ok: bool)
    requires tpdu ==> pkt.inner.Some?
    ensures ok <==> GtpMatch(cfg, p, pkt, teid, tpdu)
  {
    if p.pdi.None? { return false; }
    var pdi := p.pdi.value;
    if pdi.fTeid.None? || pdi.fTeid.value.teid != teid { return false; }
    if !tpdu { return true; }
    if cfg.matchOuterIp && pdi.fTeid.value.addr != pkt.outerDst { return false; }
    if pdi.ueAddr.Some? {
      var target := if cfg.upf then pkt.inner.value.saddr else pkt.inner.value.daddr;
      if target != pdi.ueAddr.value { return false; }
    }
    ok := CheckSdf(pdi.sdf, pkt);
  }

  /** `pdr_find_by_ipv4`. */
  method FindByIpv4(cfg: Config, tbl: Table, pdrs: map<Key, Pdr>, pkt: Packet, addr: bv32)
    returns (r: Option<Key>)
    requires Indexed(cfg, ByAddr, tbl, pdrs)
    ensures IsBest(cfg, ByAddr, pdrs, p => AddrMatch(p, pkt, addr), r)
  {
    var b := cfg.addrHash(addr) % cfg.size;
    var l := tbl[b];
    assert BucketOk(cfg, ByAddr, b, l, pdrs);
    ghost var matches := p => AddrMatch(p, pkt, addr);
    var i := 0;
    while i < |l|
      invariant i <= |l|
      invariant forall j :: 0 <= j < i ==> !matches(pdrs[l[j]])
    {
      var pdi := pdrs[l[i]].pdi.value;
      if pdi.ueAddr.value == addr {
        var found := CheckSdf(pdi.sdf, pkt);
        if found {
          FirstIsBest(cfg, ByAddr, b, l, pdrs, matches, i);
          return Some(l[i]);
        }
      }
      i := i + 1;
    }
    FirstIsBest(cfg, ByAddr, b, l, pdrs, matches, i);
    return None;
  }
}
