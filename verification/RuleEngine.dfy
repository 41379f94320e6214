/** The gtp5g device: PDR, FAR and QER commands as atomic steps over the rule tables
    (`genl_pdr.c`, `genl_far.c`, `genl_qer.c`). */
module RuleEngine {
  import opened Base
  import opened Rules
  import opened Classifier
  import opened Links

  datatype Dev = Dev(
    pdrs: map<Key, Pdr>, fars: map<Key, Ref>, qers: map<Key, Qer>,
    iTeid: Table, addr: Table,
    relFar: Table, relQer: Table, relUrr: Table,
    next: Ref)

  /** Netlink message flags. */
  datatype Flags = Flags(excl: bool, replace: bool, append: bool)

  /** Netlink status, or the fault that ends the command: a null FAR id is followed, or a
      poisoned list node is unlinked again. */
  datatype Status = Ok | Exists | NotSupported | NoEntry | Invalid | NullPointer | PoisonedList {
    predicate IsFault() { NullPointer? || PoisonedList? }
  }

  /** Attributes of a PDR command; what is absent leaves the PDR as it was.  `socketOk` is
      what `unix_sock_client_update` answers. */
  datatype PdrAttrs = PdrAttrs(
    precedence: Option<nat>, pdi: Option<Pdi>, farId: Option<nat>,
    qerIds: seq<nat>, urrIds: seq<nat>, socketOk: bool)

  datatype Command =
    | PutFar(key: Key, flags: Flags, hasAction: bool, paramsOk: bool)
    | DelFar(key: Key)
    | PutQer(key: Key, flags: Flags, hasMbr: bool)
    | DelQer(key: Key)
    | PutPdr(key: Key, flags: Flags, attrs: PdrAttrs)
    | DelPdr(key: Key)

  // ---------- invariant ----------

  function FarKey(k: Key, p: Pdr): Key { Key(k.seid, p.farId) }

  function Get<V>(m: map<Key, V>, k: Key): Option<V> { if k in m then Some(m[k]) else None }

  /** `pdr->far` is the stored FAR, and null exactly when none is stored. */
  ghost predicate FarLinked(pdrs: map<Key, Pdr>, fars: map<Key, Ref>) {
    forall k :: k in pdrs ==> pdrs[k].far == Get(fars, FarKey(k, pdrs[k]))
  }

  /** The QER object that `pdr->qer_with_rate` points to is stored under one of the
      PDR's QER ids and has policers. */
  ghost predicate RateStored(k: Key, p: Pdr, qers: map<Key, Qer>) {
    p.qerWithRate.Some? ==>
      exists i :: i in p.qerIds && Key(k.seid, i) in qers && qers[Key(k.seid, i)].hasRate
                  && qers[Key(k.seid, i)].ref == p.qerWithRate.value
  }

  ghost predicate RateLive(pdrs: map<Key, Pdr>, qers: map<Key, Qer>) {
    forall k :: k in pdrs ==> RateStored(k, pdrs[k], qers)
  }

  /** Distinct stored objects have distinct identities, all of them already issued. */
  ghost predicate Fresh(s: Dev) {
    && (forall k :: k in s.fars ==> s.fars[k] < s.next)
    && (forall k :: k in s.qers ==> s.qers[k].ref < s.next)
    && (forall k, k' :: k in s.fars && k' in s.fars && k != k' ==> s.fars[k] != s.fars[k'])
    && (forall k, k' :: k in s.qers && k' in s.qers && k != k' ==> s.qers[k].ref != s.qers[k'].ref)
  }

  /** A PDR's list nodes say which table it is in.  The TEID node is never poisoned; the
      address node is poisoned only in a PDR that is found by TEID. */
  ghost predicate NodesRight(cfg: Config, p: Pdr)
    requires cfg.size > 0
  {
    && p.teidNode == (if SlotOf(cfg, ByTeid, p).Some? then InList else Free)
    && (p.addrNode == InList <==> SlotOf(cfg, ByAddr, p).Some?)
    && (p.addrNode == Poisoned ==> SlotOf(cfg, ByTeid, p).Some?)
  }

  ghost predicate AllNodesRight(cfg: Config, pdrs: map<Key, Pdr>)
    requires cfg.size > 0
  {
    forall k :: k in pdrs ==> NodesRight(cfg, pdrs[k])
  }

  ghost predicate Inv(cfg: Config, s: Dev) {
    && Indexed(cfg, ByTeid, s.iTeid, s.pdrs)
    && Indexed(cfg, ByAddr, s.addr, s.pdrs)
    && Related(cfg, FarKind, s.relFar, s.pdrs)
    && Related(cfg, QerKind, s.relQer, s.pdrs)
    && Related(cfg, UrrKind, s.relUrr, s.pdrs)
    && FarLinked(s.pdrs, s.fars)
    && RateLive(s.pdrs, s.qers)
    && AllNodesRight(cfg, s.pdrs)
    && Fresh(s)
  }

  // ---------- specification of the commands ----------

  /** The walk over the PDRs related to a FAR (`far_update`, `far_context_delete`). */
  function SetFar(pdrs: map<Key, Pdr>, bucket: seq<Key>, fk: Key, far: Option<Ref>): (r: map<Key, Pdr>)
    ensures r.Keys == pdrs.Keys
  {
    map k | k in pdrs :: if k in bucket && FarKey(k, pdrs[k]) == fk then pdrs[k].(far := far) else pdrs[k]
  }

  /** `set_pdr_qer_with_rate_null`: every PDR in the bucket, whichever QER it uses. */
  function ClearRate(pdrs: map<Key, Pdr>, bucket: seq<Key>): (r: map<Key, Pdr>)
    ensures r.Keys == pdrs.Keys
  {
    map k | k in pdrs :: if k in bucket then pdrs[k].(qerWithRate := None) else pdrs[k]
  }

  /** The two walks, one node at a time. */
  lemma WalkSnoc(pdrs: map<Key, Pdr>, bucket: seq<Key>, i: nat, fk: Key, far: Option<Ref>)
    requires i < |bucket| && bucket[i] in pdrs
    ensures
      var k := bucket[i];
      var m := SetFar(pdrs, bucket[..i], fk, far);
      SetFar(pdrs, bucket[..i + 1], fk, far) == if FarKey(k, m[k]) == fk then m[k := m[k].(far := far)] else m
    ensures
      var k := bucket[i];
      var m := ClearRate(pdrs, bucket[..i]);
      ClearRate(pdrs, bucket[..i + 1]) == m[k := m[k].(qerWithRate := None)]
  {
    assert bucket[..i + 1] == bucket[..i] + [bucket[i]];
  }

  /** The last of the PDR's QERs that has policers, else the pointer as it was. */
  function RateOf(qers: map<Key, Qer>, seid: nat, ids: seq<nat>, current: Option<Ref>): Option<Ref>
    decreases |ids|
  {
    if ids == [] then current
    else
      var qk := Key(seid, ids[|ids| - 1]);
      if qk in qers && qers[qk].hasRate then Some(qers[qk].ref)
      else RateOf(qers, seid, ids[..|ids| - 1], current)
  }

  function Or<T>(a: Option<T>, b: Option<T>): Option<T> { if a.Some? then a else b }

  function FillPdi(pdi: Option<Pdi>, a: Option<Pdi>): Option<Pdi> {
    if a.None? then pdi
    else if pdi.None? then a
    else Some(Pdi(Or(a.value.ueAddr, pdi.value.ueAddr),
                  Or(a.value.fTeid, pdi.value.fTeid),
                  Or(a.value.sdf, pdi.value.sdf)))
  }

  /** The attribute loop of `pdr_fill`. */
  function FillPdr(p: Pdr, a: PdrAttrs): Pdr {
    p.(precedence := if a.precedence.Some? then a.precedence.value else p.precedence,
       pdi := FillPdi(p.pdi, a.pdi),
       farId := if a.farId.Some? then a.farId.value else p.farId,
       qerIds := Merge(p.qerIds, a.qerIds),
       urrIds := Merge(p.urrIds, a.urrIds))
  }

  const BLANK := Pdr(0, None, 0, None, [], None, [], Free, Free)

  /** The PDR as the command leaves it, once its FAR is known. */
  function Linked(cfg: Config, s: Dev, k: Key, p: Pdr, far: Ref): Pdr
    requires cfg.size > 0
  {
    p.(far := Some(far), qerWithRate := RateOf(s.qers, k.seid, p.qerIds, p.qerWithRate),
       teidNode := NextNode(p.teidNode, SlotOf(cfg, ByTeid, p).Some?),
       addrNode := NextNode(p.addrNode, SlotOf(cfg, ByAddr, p).Some?))
  }

  /** One of the nodes that `pdr_update_hlist_table` and `pdr_context_delete` unlink whenever
      they look linked is poisoned. */
  predicate HasPoison(p: Pdr) { p.teidNode == Poisoned || p.addrNode == Poisoned }

  lemma UnlinkedMembers(cfg: Config, ix: Index, tbl: Table, pdrs: map<Key, Pdr>, k: Key)
    requires Indexed(cfg, ix, tbl, pdrs)
    ensures forall b, x :: 0 <= b < |tbl| && x in Unlink(tbl, k)[b] ==> x in pdrs - {k}
  {
    UnlinkRemoves(cfg, ix, tbl, pdrs, k);
    forall b, x | 0 <= b < |tbl| && x in Unlink(tbl, k)[b] ensures x in pdrs - {k} {
      assert BucketOk(cfg, ix, b, Unlink(tbl, k)[b], pdrs - {k});
    }
  }

  function Relink(cfg: Config, ix: Index, tbl: Table, pdrs: map<Key, Pdr>, k: Key, p: Pdr): Table
    requires Indexed(cfg, ix, tbl, pdrs)
  {
    UnlinkedMembers(cfg, ix, tbl, pdrs, k);
    Link(cfg, ix, Unlink(tbl, k), pdrs - {k}, k, p)
  }

  function Renode(cfg: Config, kind: Kind, tbl: Table, k: Key, p: Pdr): Table
    requires cfg.size > 0 && |tbl| == cfg.size
  {
    SetNodes(tbl, Buckets(cfg, k.seid, Ids(kind, p)), k)
  }

  function Denode(cfg: Config, kind: Kind, tbl: Table, k: Key, p: Pdr): Table
    requires cfg.size > 0 && |tbl| == cfg.size
  {
    DelNodes(tbl, Buckets(cfg, k.seid, Ids(kind, p)), k)
  }

  function Install(cfg: Config, s: Dev, k: Key, p: Pdr): Dev
    requires Inv(cfg, s)
  {
    s.(pdrs := s.pdrs[k := p],
       iTeid := Relink(cfg, ByTeid, s.iTeid, s.pdrs, k, p),
       addr := Relink(cfg, ByAddr, s.addr, s.pdrs, k, p),
       relFar := Renode(cfg, FarKind, s.relFar, k, p),
       relQer := Renode(cfg, QerKind, s.relQer, k, p),
       relUrr := Renode(cfg, UrrKind, s.relUrr, k, p))
  }

  /** `pdr_context_delete` alone: the related nodes stay. */
  function Drop(s: Dev, k: Key): Dev {
    s.(pdrs := s.pdrs - {k}, iTeid := Unlink(s.iTeid, k), addr := Unlink(s.addr, k))
  }

  /** The end of `pdr_fill` that an unusable socket cuts short: the related nodes are set,
      then the PDR is freed. */
  function Orphan(cfg: Config, s: Dev, k: Key, p: Pdr): Dev
    requires Inv(cfg, s)
  {
    Drop(s, k).(relFar := Renode(cfg, FarKind, s.relFar, k, p),
                relQer := Renode(cfg, QerKind, s.relQer, k, p),
                relUrr := Renode(cfg, UrrKind, s.relUrr, k, p))
  }

  /** `pdr_fill` and what follows it, for the PDR the attributes are added to. */
  function FillAndInstall(cfg: Config, s: Dev, k: Key, p0: Pdr, a: PdrAttrs): (Dev, Status)
    requires Inv(cfg, s)
  {
    var p := FillPdr(p0, a);
    var far := Get(s.fars, FarKey(k, p));
    if far.None? then (Drop(s, k), Invalid)
    else if !a.socketOk then (Orphan(cfg, s, k, p), Invalid)
    else (Install(cfg, s, k, Linked(cfg, s, k, p, far.value)), Ok)
  }

  function DoPutPdr(cfg: Config, s: Dev, k: Key, flags: Flags, a: PdrAttrs): (Dev, Status)
    requires Inv(cfg, s)
  {
    if k in s.pdrs then
      if flags.excl then (s, Exists)
      else if !flags.replace then (s, NotSupported)
      else if HasPoison(s.pdrs[k]) then (s, PoisonedList)
      else FillAndInstall(cfg, s, k, s.pdrs[k], a)
    else if flags.replace then (s, NoEntry)
    else if flags.append then (s, NotSupported)
    else if a.precedence.None? then (s, Invalid)
    else if a.farId.None? then (s, NullPointer)
    else FillAndInstall(cfg, s, k, BLANK, a)
  }

  function DoDelPdr(cfg: Config, s: Dev, k: Key): (Dev, Status)
    requires Inv(cfg, s)
  {
    if k !in s.pdrs then (s, NoEntry)
    else if HasPoison(s.pdrs[k]) then (s, PoisonedList)
    else
      var p := s.pdrs[k];
      (Drop(s, k).(relFar := Denode(cfg, FarKind, s.relFar, k, p),
                   relQer := Denode(cfg, QerKind, s.relQer, k, p),
                   relUrr := Denode(cfg, UrrKind, s.relUrr, k, p)), Ok)
  }

  /** `far_context_delete`. */
  function RemoveFar(cfg: Config, s: Dev, fk: Key): Dev
    requires Inv(cfg, s)
  {
    s.(fars := s.fars - {fk},
       pdrs := SetFar(s.pdrs, s.relFar[Bucket(cfg, fk)], fk, None))
  }

  function DoPutFar(cfg: Config, s: Dev, fk: Key, flags: Flags, hasAction: bool, paramsOk: bool): (Dev, Status)
    requires Inv(cfg, s)
  {
    var bucket := s.relFar[Bucket(cfg, fk)];
    if fk in s.fars then
      if flags.excl then (s, Exists)
      else if !flags.replace then (s, NotSupported)
      else if !paramsOk then (RemoveFar(cfg, s, fk), Invalid)
      else (s.(pdrs := SetFar(s.pdrs, bucket, fk, Some(s.fars[fk]))), Ok)
    else if flags.replace then (s, NoEntry)
    else if flags.append then (s, NotSupported)
    else if !hasAction then (s, Invalid)
    else if !paramsOk then (RemoveFar(cfg, s, fk).(next := s.next + 1), Invalid)
    else (s.(fars := s.fars[fk := s.next], next := s.next + 1,
             pdrs := SetFar(s.pdrs, bucket, fk, Some(s.next))), Ok)
  }

  function DoDelFar(cfg: Config, s: Dev, fk: Key): (Dev, Status)
    requires Inv(cfg, s)
  {
    if fk !in s.fars then (s, NoEntry) else (RemoveFar(cfg, s, fk), Ok)
  }

  function DoPutQer(s: Dev, qk: Key, flags: Flags, hasMbr: bool): (Dev, Status) {
    if qk in s.qers then
      if flags.excl then (s, Exists)
      else if !flags.replace then (s, NotSupported)
      else (s.(qers := s.qers[qk := s.qers[qk].(hasRate := s.qers[qk].hasRate || hasMbr)]), Ok)
    else if flags.replace then (s, NoEntry)
    else if flags.append then (s, NotSupported)
    else (s.(qers := s.qers[qk := Qer(s.next, hasMbr)], next := s.next + 1), Ok)
  }

  function DoDelQer(cfg: Config, s: Dev, qk: Key): (Dev, Status)
    requires Inv(cfg, s)
  {
    if qk !in s.qers then (s, NoEntry)
    else (s.(qers := s.qers - {qk}, pdrs := ClearRate(s.pdrs, s.relQer[Bucket(cfg, qk)])), Ok)
  }

  function Step(cfg: Config, s: Dev, c: Command): (Dev, Status)
    requires Inv(cfg, s)
  {
    match c
    case PutFar(k, flags, hasAction, paramsOk) => DoPutFar(cfg, s, k, flags, hasAction, paramsOk)
    case DelFar(k) => DoDelFar(cfg, s, k)
    case PutQer(k, flags, hasMbr) => DoPutQer(s, k, flags, hasMbr)
    case DelQer(k) => DoDelQer(cfg, s, k)
    case PutPdr(k, flags, attrs) => DoPutPdr(cfg, s, k, flags, attrs)
    case DelPdr(k) => DoDelPdr(cfg, s, k)
  }

  // ---------- each command keeps the invariant ----------

  /** The only commands that fault or break the invariant are PDR commands.  A new PDR has
      to name a FAR, and to get its socket if that FAR exists; an accepted replace has to end
      up with a FAR that exists and shares a bucket with the one named before, and to get its
      socket; and neither a replaced nor a deleted PDR may have moved from the address table
      to the TEID table. */
  ghost predicate Admissible(cfg: Config, s: Dev, c: Command)
    requires cfg.size > 0
  {
    match c
    case PutPdr(k, flags, a) =>
      if k in s.pdrs then
        !flags.excl && flags.replace ==>
          var before := FarKey(k, s.pdrs[k]);
          var after := Key(k.seid, if a.farId.Some? then a.farId.value else s.pdrs[k].farId);
          && after in s.fars && Bucket(cfg, after) == Bucket(cfg, before)
          && a.socketOk && s.pdrs[k].addrNode != Poisoned
      else
        !flags.replace && !flags.append && a.precedence.Some? ==>
          a.farId.Some? && (Key(k.seid, a.farId.value) in s.fars ==> a.socketOk)
    case DelPdr(k) => k in s.pdrs ==> s.pdrs[k].addrNode != Poisoned
    case _ => true
  }

  lemma TablesFrame(cfg: Config, s: Dev, pdrs: map<Key, Pdr>)
    requires Inv(cfg, s) && pdrs.Keys == s.pdrs.Keys
    requires forall k :: k in pdrs ==>
               && pdrs[k].pdi == s.pdrs[k].pdi && pdrs[k].precedence == s.pdrs[k].precedence
               && pdrs[k].farId == s.pdrs[k].farId
               && pdrs[k].qerIds == s.pdrs[k].qerIds && pdrs[k].urrIds == s.pdrs[k].urrIds
               && pdrs[k].teidNode == s.pdrs[k].teidNode && pdrs[k].addrNode == s.pdrs[k].addrNode
    ensures Indexed(cfg, ByTeid, s.iTeid, pdrs) && Indexed(cfg, ByAddr, s.addr, pdrs)
    ensures Related(cfg, FarKind, s.relFar, pdrs)
    ensures Related(cfg, QerKind, s.relQer, pdrs)
    ensures Related(cfg, UrrKind, s.relUrr, pdrs)
    ensures AllNodesRight(cfg, pdrs)
  {
    NodesFrame(cfg, s, pdrs);
    hide Indexed, Related, AllNodesRight, FarLinked, RateLive, Fresh;
    IndexedFrame(cfg, ByTeid, s.iTeid, s.pdrs, pdrs);
    IndexedFrame(cfg, ByAddr, s.addr, s.pdrs, pdrs);
    RelatedFrame(cfg, FarKind, s.relFar, s.pdrs, pdrs);
    RelatedFrame(cfg, QerKind, s.relQer, s.pdrs, pdrs);
    RelatedFrame(cfg, UrrKind, s.relUrr, s.pdrs, pdrs);
  }

  lemma NodesFrame(cfg: Config, s: Dev, pdrs: map<Key, Pdr>)
    requires Inv(cfg, s) && pdrs.Keys == s.pdrs.Keys
    requires forall k :: k in pdrs ==>
               && pdrs[k].pdi == s.pdrs[k].pdi
               && pdrs[k].teidNode == s.pdrs[k].teidNode && pdrs[k].addrNode == s.pdrs[k].addrNode
    ensures cfg.size > 0 && AllNodesRight(cfg, pdrs)
  {
    RelatedSize(cfg, s);
    hide Indexed, Related, FarLinked, RateLive, Fresh, NodesRight;
    forall k | k in pdrs ensures NodesRight(cfg, pdrs[k]) { NodesSame(cfg, s.pdrs[k], pdrs[k]); }
  }

  lemma NodesSame(cfg: Config, p: Pdr, q: Pdr)
    requires cfg.size > 0 && NodesRight(cfg, p)
    requires q.pdi == p.pdi && q.teidNode == p.teidNode && q.addrNode == p.addrNode
    ensures NodesRight(cfg, q)
  {}

  /** The walk over one bucket reaches exactly the PDRs that name the FAR. */
  lemma SetFarIsGlobal(cfg: Config, s: Dev, fk: Key, far: Option<Ref>, k: Key)
    requires Inv(cfg, s) && k in s.pdrs
    ensures SetFar(s.pdrs, s.relFar[Bucket(cfg, fk)], fk, far)[k] ==
            if FarKey(k, s.pdrs[k]) == fk then s.pdrs[k].(far := far) else s.pdrs[k]
  {
    if FarKey(k, s.pdrs[k]) == fk { WalkReaches(cfg, FarKind, s.relFar, s.pdrs, k, fk.id); }
  }

  /** Every PDR has the right FAR pointer and still polices with a stored QER. */
  lemma FarStepLinks(cfg: Config, s: Dev, fk: Key, far: Option<Ref>, fars: map<Key, Ref>)
    requires Inv(cfg, s)
    requires fars == if far.Some? then s.fars[fk := far.value] else s.fars - {fk}
    ensures
      var pdrs := SetFar(s.pdrs, s.relFar[Bucket(cfg, fk)], fk, far);
      FarLinked(pdrs, fars) && RateLive(pdrs, s.qers)
  {
    RelatedSize(cfg, s);
    var pdrs := SetFar(s.pdrs, s.relFar[Bucket(cfg, fk)], fk, far);
    hide Indexed, Related, Fresh, AllNodesRight, SetFar;
    forall k | k in pdrs
      ensures pdrs[k].far == Get(fars, FarKey(k, pdrs[k])) && RateStored(k, pdrs[k], s.qers)
    {
      SetFarIsGlobal(cfg, s, fk, far, k);
      assert RateStored(k, s.pdrs[k], s.qers);
    }
  }

  lemma FarStepInv(cfg: Config, s: Dev, fk: Key, far: Option<Ref>, s': Dev)
    requires Inv(cfg, s)
    requires far.Some? ==> far.value < s.next + 1 && forall k :: k in s.fars && k != fk ==> s.fars[k] != far.value
    requires s'.fars == if far.Some? then s.fars[fk := far.value] else s.fars - {fk}
    requires s' == s.(pdrs := SetFar(s.pdrs, s.relFar[Bucket(cfg, fk)], fk, far), fars := s'.fars, next := s'.next)
    requires s'.next >= s.next && (far.Some? ==> far.value < s'.next)
    ensures Inv(cfg, s')
  {
    RelatedSize(cfg, s);
    FarStepLinks(cfg, s, fk, far, s'.fars);
    FarStepFresh(s, fk, far, s');
    FarStepTables(cfg, s, fk, far);
    hide Indexed, Related, AllNodesRight, FarLinked, RateLive, Fresh, SetFar;
  }

  lemma FarStepTables(cfg: Config, s: Dev, fk: Key, far: Option<Ref>)
    requires Inv(cfg, s)
    ensures
      var pdrs := SetFar(s.pdrs, s.relFar[Bucket(cfg, fk)], fk, far);
      && Indexed(cfg, ByTeid, s.iTeid, pdrs) && Indexed(cfg, ByAddr, s.addr, pdrs)
      && Related(cfg, FarKind, s.relFar, pdrs) && Related(cfg, QerKind, s.relQer, pdrs)
      && Related(cfg, UrrKind, s.relUrr, pdrs) && AllNodesRight(cfg, pdrs)
  {
    RelatedSize(cfg, s);
    TablesFrame(cfg, s, SetFar(s.pdrs, s.relFar[Bucket(cfg, fk)], fk, far));
    hide Inv, Indexed, Related, AllNodesRight;
  }

  lemma FarStepFresh(s: Dev, fk: Key, far: Option<Ref>, s': Dev)
    requires Fresh(s) && s'.qers == s.qers && s'.next >= s.next
    requires far.Some? ==> far.value < s'.next && forall k :: k in s.fars && k != fk ==> s.fars[k] != far.value
    requires s'.fars == if far.Some? then s.fars[fk := far.value] else s.fars - {fk}
    ensures Fresh(s')
  {}

  lemma PutFarInv(cfg: Config, s: Dev, fk: Key, flags: Flags, hasAction: bool, paramsOk: bool)
    requires Inv(cfg, s)
    ensures Inv(cfg, DoPutFar(cfg, s, fk, flags, hasAction, paramsOk).0)
  {
    hide Indexed, Related, RateLive, FarLinked, SetFar;
    var s' := DoPutFar(cfg, s, fk, flags, hasAction, paramsOk).0;
    if s' != s {
      var far := if !paramsOk then None else if fk in s.fars then Some(s.fars[fk]) else Some(s.next);
      FarStepInv(cfg, s, fk, far, s');
    }
  }

  lemma DelFarInv(cfg: Config, s: Dev, fk: Key)
    requires Inv(cfg, s)
    ensures Inv(cfg, DoDelFar(cfg, s, fk).0)
  {
    hide Indexed, Related, RateLive, FarLinked, SetFar;
    if fk in s.fars { FarStepInv(cfg, s, fk, None, DoDelFar(cfg, s, fk).0); }
  }

  lemma PutQerInv(cfg: Config, s: Dev, qk: Key, flags: Flags, hasMbr: bool)
    requires Inv(cfg, s)
    ensures Inv(cfg, DoPutQer(s, qk, flags, hasMbr).0)
  {
    hide Indexed, Related;
    var s' := DoPutQer(s, qk, flags, hasMbr).0;
    forall k | k in s.pdrs ensures RateStored(k, s.pdrs[k], s'.qers) {
      assert RateStored(k, s.pdrs[k], s.qers);
      if s.pdrs[k].qerWithRate.Some? {
        var i :| i in s.pdrs[k].qerIds && Key(k.seid, i) in s.qers && s.qers[Key(k.seid, i)].hasRate
                 && s.qers[Key(k.seid, i)].ref == s.pdrs[k].qerWithRate.value;
        assert Key(k.seid, i) in s'.qers;
      }
    }
  }

  lemma DelQerInv(cfg: Config, s: Dev, qk: Key)
    requires Inv(cfg, s)
    ensures Inv(cfg, DoDelQer(cfg, s, qk).0)
  {
    hide Indexed, Related;
    if qk in s.qers {
      var s' := DoDelQer(cfg, s, qk).0;
      TablesFrame(cfg, s, s'.pdrs);
      forall k | k in s'.pdrs
        ensures RateStored(k, s'.pdrs[k], s'.qers)
      {
        DelQerRate(cfg, s, qk, k);
      }
    }
  }

  lemma QerNodesInstalled(cfg: Config, s: Dev, b: nat)
    requires Inv(cfg, s) && b < |s.relQer|
    ensures forall k :: k in s.relQer[b] ==> k in s.pdrs
  {
    forall k | k in s.relQer[b] ensures k in s.pdrs { NoDangling(cfg, QerKind, s.relQer, s.pdrs, b, k); }
  }

  lemma DelQerRate(cfg: Config, s: Dev, qk: Key, k: Key)
    requires Inv(cfg, s) && k in s.pdrs && qk in s.qers
    ensures
      var s' := DoDelQer(cfg, s, qk).0;
      RateStored(k, s'.pdrs[k], s'.qers) && s'.pdrs[k].qerWithRate != Some(s.qers[qk].ref)
  {
    assert RateStored(k, s.pdrs[k], s.qers);
    if s.pdrs[k].qerWithRate.Some? {
      var i :| i in s.pdrs[k].qerIds && Key(k.seid, i) in s.qers && s.qers[Key(k.seid, i)].hasRate
               && s.qers[Key(k.seid, i)].ref == s.pdrs[k].qerWithRate.value;
      if Key(k.seid, i) == qk { WalkReaches(cfg, QerKind, s.relQer, s.pdrs, k, i); }
    }
  }

  /** After a QER is deleted no installed PDR polices with it any more. */
  lemma DelQerLeavesNoUser(cfg: Config, s: Dev, qk: Key)
    requires Inv(cfg, s) && qk in s.qers
    ensures
      var s' := DoDelQer(cfg, s, qk).0;
      && (forall k :: k in s'.pdrs ==> s'.pdrs[k].qerWithRate != Some(s.qers[qk].ref))
      && (forall q :: q in s'.qers ==> s'.qers[q].ref != s.qers[qk].ref)
  {
    forall k | k in s.pdrs ensures DoDelQer(cfg, s, qk).0.pdrs[k].qerWithRate != Some(s.qers[qk].ref) {
      DelQerRate(cfg, s, qk, k);
    }
  }

  /** Deleting a QER leaves the policing of all PDRs that do not police with it alone, exactly
      when every policing PDR that names an id in its bucket does police with it. */
  lemma DelQerSparesOthersIff(cfg: Config, s: Dev, qk: Key)
    requires Inv(cfg, s) && qk in s.qers
    ensures
      var s' := DoDelQer(cfg, s, qk).0;
      var ref := Some(s.qers[qk].ref);
      (forall k :: k in s.pdrs && s.pdrs[k].qerWithRate != ref ==> s'.pdrs[k] == s.pdrs[k]) <==>
        forall k, i :: k in s.pdrs && i in s.pdrs[k].qerIds && Bucket(cfg, Key(k.seid, i)) == Bucket(cfg, qk) ==>
                         s.pdrs[k].qerWithRate in {None, ref}
  {
    var b := Bucket(cfg, qk);
    forall k | k in s.pdrs
      ensures k in s.relQer[b] <==> exists i :: i in s.pdrs[k].qerIds && Bucket(cfg, Key(k.seid, i)) == b
    {
      InBucketIff(cfg, QerKind, s.relQer, s.pdrs, b, k);
    }
    hide Inv;
  }

  lemma {:induction false} RateOfStored(qers: map<Key, Qer>, seid: nat, ids: seq<nat>, current: Option<Ref>)
    ensures
      var r := RateOf(qers, seid, ids, current);
      r == current ||
      exists i :: i in ids && Key(seid, i) in qers && qers[Key(seid, i)].hasRate && Some(qers[Key(seid, i)].ref) == r
    decreases |ids|
  {
    if ids != [] {
      RateOfStored(qers, seid, ids[..|ids| - 1], current);
      assert ids[|ids| - 1] in ids;
      assert forall i :: i in ids[..|ids| - 1] ==> i in ids;
    }
  }

  /** Both lookup tables follow every installation. */
  lemma RelinkIndexed(cfg: Config, ix: Index, tbl: Table, pdrs: map<Key, Pdr>, k: Key, p: Pdr)
    requires Indexed(cfg, ix, tbl, pdrs)
    ensures Indexed(cfg, ix, Relink(cfg, ix, tbl, pdrs, k, p), pdrs[k := p])
  {
    hide Indexed;
    UnlinkRemoves(cfg, ix, tbl, pdrs, k);
    UnlinkedMembers(cfg, ix, tbl, pdrs, k);
    LinkIndexes(cfg, ix, Unlink(tbl, k), pdrs - {k}, k, p);
    assert (pdrs - {k})[k := p] == pdrs[k := p];
  }

  lemma LinkedRate(cfg: Config, s: Dev, k: Key, a: PdrAttrs, far: Ref)
    requires Inv(cfg, s)
    ensures
      var p := FillPdr(if k in s.pdrs then s.pdrs[k] else BLANK, a);
      RateStored(k, Linked(cfg, s, k, p, far), s.qers)
  {
    var p0 := if k in s.pdrs then s.pdrs[k] else BLANK;
    var p := FillPdr(p0, a);
    assert RateStored(k, p0, s.qers);
    RateOfStored(s.qers, k.seid, p.qerIds, p.qerWithRate);
    assert forall i :: i in p0.qerIds ==> i in p.qerIds;
  }

  /** Attributes are only added to a PDR: what has an F-TEID keeps one. */
  lemma LinkedNodes(cfg: Config, s: Dev, k: Key, a: PdrAttrs, far: Ref)
    requires Inv(cfg, s)
    ensures
      var p := FillPdr(if k in s.pdrs then s.pdrs[k] else BLANK, a);
      NodesRight(cfg, Linked(cfg, s, k, p, far))
  {
    RelatedSize(cfg, s);
    hide Indexed, Related;
    var p0 := if k in s.pdrs then s.pdrs[k] else BLANK;
    assert NodesRight(cfg, p0);
    var p := FillPdr(p0, a);
    assert SlotOf(cfg, ByTeid, p0).Some? ==> SlotOf(cfg, ByTeid, p).Some?;
    assert SlotOf(cfg, ByAddr, p0).Some? ==> SlotOf(cfg, ByTeid, p).Some? || SlotOf(cfg, ByAddr, p).Some?;
  }

  /** Installing keeps the invariant exactly when the FAR bucket stays the same. */
  lemma InstallInvIff(cfg: Config, s: Dev, k: Key, a: PdrAttrs)
    requires Inv(cfg, s)
    requires FarKey(k, FillPdr(if k in s.pdrs then s.pdrs[k] else BLANK, a)) in s.fars
    ensures
      var p := FillPdr(if k in s.pdrs then s.pdrs[k] else BLANK, a);
      Inv(cfg, Install(cfg, s, k, Linked(cfg, s, k, p, s.fars[FarKey(k, p)]))) <==>
        (k in s.pdrs ==> Bucket(cfg, FarKey(k, p)) == Bucket(cfg, FarKey(k, s.pdrs[k])))
  {
    RelatedSize(cfg, s);
    var p0 := if k in s.pdrs then s.pdrs[k] else BLANK;
    var p1 := FillPdr(p0, a);
    var p := Linked(cfg, s, k, p1, s.fars[FarKey(k, p1)]);
    assert p.farId == p1.farId && p0.qerIds <= p.qerIds && p0.urrIds <= p.urrIds;
    assert p.far == Some(s.fars[FarKey(k, p1)]);
    LinkedNodes(cfg, s, k, a, s.fars[FarKey(k, p1)]);
    LinkedRate(cfg, s, k, a, s.fars[FarKey(k, p1)]);
    assert p.far == Get(s.fars, FarKey(k, p));
    InstallTables(cfg, s, k, p);
    InstallLinks(cfg, s, k, p);
    hide Indexed, Related, FarLinked, RateLive, AllNodesRight, RateStored, NodesRight, Relink, Renode, FillPdr, Linked;
  }

  lemma InstallLinks(cfg: Config, s: Dev, k: Key, p: Pdr)
    requires Inv(cfg, s) && cfg.size > 0
    requires p.far == Get(s.fars, FarKey(k, p)) && RateStored(k, p, s.qers) && NodesRight(cfg, p)
    ensures FarLinked(s.pdrs[k := p], s.fars) && RateLive(s.pdrs[k := p], s.qers) && AllNodesRight(cfg, s.pdrs[k := p])
  {
    hide Indexed, Related, RateStored, NodesRight;
  }

  /** Of the five tables only the related-FAR table can go wrong. */
  lemma InstallTables(cfg: Config, s: Dev, k: Key, p: Pdr)
    requires Inv(cfg, s)
    requires k in s.pdrs ==> s.pdrs[k].qerIds <= p.qerIds && s.pdrs[k].urrIds <= p.urrIds
    ensures
      var s' := Install(cfg, s, k, p);
      && Indexed(cfg, ByTeid, s'.iTeid, s'.pdrs) && Indexed(cfg, ByAddr, s'.addr, s'.pdrs)
      && Related(cfg, QerKind, s'.relQer, s'.pdrs) && Related(cfg, UrrKind, s'.relUrr, s'.pdrs)
      && (Related(cfg, FarKind, s'.relFar, s'.pdrs) <==>
            (k in s.pdrs ==> Bucket(cfg, FarKey(k, p)) == Bucket(cfg, FarKey(k, s.pdrs[k]))))
  {
    RelatedSize(cfg, s);
    hide Indexed, Related, FarLinked, RateLive, AllNodesRight, Fresh, Relink, SetNodes, Covers;
    RelinkIndexed(cfg, ByTeid, s.iTeid, s.pdrs, k, p);
    RelinkIndexed(cfg, ByAddr, s.addr, s.pdrs, k, p);
    SetNodesRelatedIff(cfg, FarKind, s.relFar, s.pdrs, k, p);
    SetNodesRelatedIff(cfg, QerKind, s.relQer, s.pdrs, k, p);
    SetNodesRelatedIff(cfg, UrrKind, s.relUrr, s.pdrs, k, p);
    if k in s.pdrs {
      SingleCovers(cfg, k.seid, p.farId, s.pdrs[k].farId);
      PrefixCovers(cfg, k.seid, p.qerIds, s.pdrs[k].qerIds);
      PrefixCovers(cfg, k.seid, p.urrIds, s.pdrs[k].urrIds);
    }
  }

  lemma RelatedSize(cfg: Config, s: Dev)
    requires Inv(cfg, s)
    ensures cfg.size > 0
    ensures |s.iTeid| == |s.addr| == |s.relFar| == |s.relQer| == |s.relUrr| == cfg.size
  {}

  lemma DelPdrInv(cfg: Config, s: Dev, k: Key)
    requires Inv(cfg, s)
    ensures Inv(cfg, DoDelPdr(cfg, s, k).0)
  {
    RelatedSize(cfg, s);
    hide Indexed, Related, RateStored, NodesRight, DelNodes, Unlink;
    if k in s.pdrs {
      UnlinkRemoves(cfg, ByTeid, s.iTeid, s.pdrs, k);
      UnlinkRemoves(cfg, ByAddr, s.addr, s.pdrs, k);
      DelNodesRelated(cfg, FarKind, s.relFar, s.pdrs, k);
      DelNodesRelated(cfg, QerKind, s.relQer, s.pdrs, k);
      DelNodesRelated(cfg, UrrKind, s.relUrr, s.pdrs, k);
    }
  }

  /** A replace whose FAR is gone frees the PDR and leaves its FAR node behind. */
  lemma DropLeavesNode(cfg: Config, s: Dev, k: Key)
    requires Inv(cfg, s) && k in s.pdrs
    ensures !Related(cfg, FarKind, s.relFar, s.pdrs - {k})
  {
    WalkReaches(cfg, FarKind, s.relFar, s.pdrs, k, s.pdrs[k].farId);
    if Related(cfg, FarKind, s.relFar, s.pdrs - {k}) {
      NoDangling(cfg, FarKind, s.relFar, s.pdrs - {k}, Bucket(cfg, FarKey(k, s.pdrs[k])), k);
    }
  }

  /** A PDR that gets no socket is freed after its nodes were set, and leaves them behind. */
  lemma OrphanLeavesNode(cfg: Config, s: Dev, k: Key, p: Pdr)
    requires Inv(cfg, s)
    ensures !Related(cfg, FarKind, Renode(cfg, FarKind, s.relFar, k, p), s.pdrs - {k})
  {
    RelatedSize(cfg, s);
    var b := Bucket(cfg, FarKey(k, p));
    var bs := Buckets(cfg, k.seid, Ids(FarKind, p));
    assert bs == [b];
    assert Count(bs, b) == 1;
    SetNodesCount(s.relFar, bs, k, b, k);
    hide SetNodes, Inv;
    assert Expected(cfg, FarKind, s.pdrs - {k}, b, k) == 0;
  }

  /** A replace that moves the PDR to a FAR in another bucket leaves a node behind that not
      even the deletion of the PDR removes. */
  lemma ChangedFarLeavesNode(cfg: Config, s: Dev, k: Key, p: Pdr)
    requires Inv(cfg, s) && k in s.pdrs
    requires Bucket(cfg, FarKey(k, p)) != Bucket(cfg, FarKey(k, s.pdrs[k]))
    ensures k in Denode(cfg, FarKind, Renode(cfg, FarKind, s.relFar, k, p), k, p)[Bucket(cfg, FarKey(k, s.pdrs[k]))]
  {
    var bs := Buckets(cfg, k.seid, Ids(FarKind, p));
    var b := Bucket(cfg, FarKey(k, s.pdrs[k]));
    assert bs == [Bucket(cfg, FarKey(k, p))];
    NotCounted(bs, b);
    WalkReaches(cfg, FarKind, s.relFar, s.pdrs, k, s.pdrs[k].farId);
    SetNodesCount(s.relFar, bs, k, b, k);
    DelNodesCount(SetNodes(s.relFar, bs, k), bs, k, b, k);
    hide SetNodes, DelNodes, Related, Indexed;
  }

  lemma FillInvIff(cfg: Config, s: Dev, k: Key, a: PdrAttrs)
    requires Inv(cfg, s)
    ensures
      var p0 := if k in s.pdrs then s.pdrs[k] else BLANK;
      var after := FarKey(k, FillPdr(p0, a));
      && cfg.size > 0 && !FillAndInstall(cfg, s, k, p0, a).1.IsFault()
      && (Inv(cfg, FillAndInstall(cfg, s, k, p0, a).0) <==>
            if k in s.pdrs then after in s.fars && a.socketOk && Bucket(cfg, after) == Bucket(cfg, FarKey(k, p0))
            else after in s.fars ==> a.socketOk)
  {
    RelatedSize(cfg, s);
    hide Inv, Install, Drop, Orphan, FillPdr, Linked, BLANK;
    var p := FillPdr(if k in s.pdrs then s.pdrs[k] else BLANK, a);
    if FarKey(k, p) in s.fars {
      InstallInvIff(cfg, s, k, a);
      OrphanBreaksInv(cfg, s, k, p);
    } else {
      DropInvIff(cfg, s, k);
    }
  }

  lemma PutPdrInvIff(cfg: Config, s: Dev, k: Key, flags: Flags, a: PdrAttrs)
    requires Inv(cfg, s)
    ensures
      var r := DoPutPdr(cfg, s, k, flags, a);
      cfg.size > 0 && (Inv(cfg, r.0) && !r.1.IsFault() <==> Admissible(cfg, s, PutPdr(k, flags, a)))
  {
    hide Inv, FillAndInstall, FillPdr, BLANK, HasPoison;
    FilledFar(BLANK, a);
    if k in s.pdrs { FilledFar(s.pdrs[k], a); }
    PoisonIsInAddrNode(cfg, s);
    FillInvIff(cfg, s, k, a);
  }

  lemma FilledFar(p: Pdr, a: PdrAttrs)
    ensures FillPdr(p, a).farId == if a.farId.Some? then a.farId.value else p.farId
  {}

  /** Freeing a PDR without its nodes is harmless only if it is not installed. */
  lemma DropInvIff(cfg: Config, s: Dev, k: Key)
    requires Inv(cfg, s)
    ensures Inv(cfg, Drop(s, k)) <==> k !in s.pdrs
  {
    RelatedSize(cfg, s);
    UnlinkRemoves(cfg, ByTeid, s.iTeid, s.pdrs, k);
    UnlinkRemoves(cfg, ByAddr, s.addr, s.pdrs, k);
    if k in s.pdrs {
      DropLeavesNode(cfg, s, k);
    } else {
      assert s.pdrs - {k} == s.pdrs;
    }
    hide Related, Indexed, NodesRight, RateStored, Unlink;
  }

  lemma OrphanBreaksInv(cfg: Config, s: Dev, k: Key, p: Pdr)
    requires Inv(cfg, s)
    ensures !Inv(cfg, Orphan(cfg, s, k, p))
  {
    OrphanLeavesNode(cfg, s, k, p);
    RelatedSize(cfg, s);
    hide Related, Indexed, Renode;
  }

  /** THE INVARIANT, EXACTLY.  A command neither faults nor leaves a wrong table or cross
      link if and only if it is admissible. */
  lemma StepInvIff(cfg: Config, s: Dev, c: Command)
    requires Inv(cfg, s)
    ensures Inv(cfg, Step(cfg, s, c).0) && !Step(cfg, s, c).1.IsFault() <==> Admissible(cfg, s, c)
  {
    RelatedSize(cfg, s);
    PoisonIsInAddrNode(cfg, s);
    hide Inv, Install, SetFar, FillPdr, Linked, BLANK, HasPoison, Orphan;
    match c
    case PutFar(k, flags, hasAction, paramsOk) => PutFarInv(cfg, s, k, flags, hasAction, paramsOk);
    case DelFar(k) => DelFarInv(cfg, s, k);
    case PutQer(k, flags, hasMbr) => PutQerInv(cfg, s, k, flags, hasMbr);
    case DelQer(k) => DelQerInv(cfg, s, k);
    case DelPdr(k) => DelPdrInv(cfg, s, k);
    case PutPdr(k, flags, a) => PutPdrInvIff(cfg, s, k, flags, a);
  }

  lemma PoisonIsInAddrNode(cfg: Config, s: Dev)
    requires Inv(cfg, s)
    ensures forall k :: k in s.pdrs ==> (HasPoison(s.pdrs[k]) <==> s.pdrs[k].addrNode == Poisoned)
  {
    forall k | k in s.pdrs ensures s.pdrs[k].teidNode != Poisoned { assert NodesRight(cfg, s.pdrs[k]); }
  }

  /** The PDR linked at position `i` of bucket `b` of one of the two lookup tables. */
  ghost predicate LinkedAt(s: Dev, ix: Index, b: nat, i: nat, k: Key) {
    var tbl := if ix == ByTeid then s.iTeid else s.addr;
    b < |tbl| && i < |tbl[b]| && tbl[b][i] == k
  }

  /** Over both lookup tables together, a PDR is linked at most once, and it is linked at
      all exactly when it has an F-TEID or a UE address. */
  lemma LinkedOnce(cfg: Config, s: Dev, k: Key)
    requires Inv(cfg, s)
    ensures forall ix, b: nat, i: nat, ix', b': nat, i': nat ::
              LinkedAt(s, ix, b, i, k) && LinkedAt(s, ix', b', i', k) ==> ix == ix' && b == b' && i == i'
    ensures (exists ix, b: nat, i: nat :: LinkedAt(s, ix, b, i, k)) <==>
              && k in s.pdrs && s.pdrs[k].pdi.Some?
              && (s.pdrs[k].pdi.value.fTeid.Some? || s.pdrs[k].pdi.value.ueAddr.Some?)
  {
    forall ix, b: nat, i: nat | LinkedAt(s, ix, b, i, k)
      ensures k in s.pdrs && SlotOf(cfg, ix, s.pdrs[k]) == Some(b)
      ensures forall j: nat :: LinkedAt(s, ix, b, j, k) ==> i == j
    {
      LinkedSlot(cfg, s, ix, b, i, k);
    }
    if k in s.pdrs {
      forall ix | SlotOf(cfg, ix, s.pdrs[k]).Some?
        ensures exists b: nat, i: nat :: LinkedAt(s, ix, b, i, k)
      {
        SlotLinked(cfg, s, ix, k);
      }
      assert SlotOf(cfg, ByTeid, s.pdrs[k]).Some? || SlotOf(cfg, ByAddr, s.pdrs[k]).Some? <==>
             s.pdrs[k].pdi.Some? && (s.pdrs[k].pdi.value.fTeid.Some? || s.pdrs[k].pdi.value.ueAddr.Some?);
    }
    hide Indexed, Related, LinkedAt;
  }

  lemma LinkedSlot(cfg: Config, s: Dev, ix: Index, b: nat, i: nat, k: Key)
    requires Inv(cfg, s) && LinkedAt(s, ix, b, i, k)
    ensures k in s.pdrs && SlotOf(cfg, ix, s.pdrs[k]) == Some(b)
    ensures forall j: nat :: LinkedAt(s, ix, b, j, k) ==> i == j
  {
    var tbl := if ix == ByTeid then s.iTeid else s.addr;
    assert BucketOk(cfg, ix, b, tbl[b], s.pdrs);
  }

  lemma SlotLinked(cfg: Config, s: Dev, ix: Index, k: Key)
    requires Inv(cfg, s) && k in s.pdrs && SlotOf(cfg, ix, s.pdrs[k]).Some?
    ensures exists b: nat, i: nat :: LinkedAt(s, ix, b, i, k)
  {
    var tbl := if ix == ByTeid then s.iTeid else s.addr;
    var b := SlotOf(cfg, ix, s.pdrs[k]).value;
    assert BucketOk(cfg, ix, b, tbl[b], s.pdrs);
    assert k in tbl[b];
    var i :| 0 <= i < |tbl[b]| && tbl[b][i] == k;
    assert LinkedAt(s, ix, b, i, k);
  }

  // ---------- whole runs ----------

  function Init(cfg: Config): Dev
    requires cfg.size > 0
  {
    var empty := seq(cfg.size, _ => []);
    Dev(map[], map[], map[], empty, empty, empty, empty, empty, 0)
  }

  lemma InitInv(cfg: Config)
    requires cfg.size > 0
    ensures Inv(cfg, Init(cfg))
  {}

  /** Every command of the run is admissible where it is executed. */
  ghost predicate AdmissibleRun(cfg: Config, s: Dev, cs: seq<Command>)
    requires Inv(cfg, s)
    decreases |cs|
  {
    cs == [] ||
    (Admissible(cfg, s, cs[0]) && (StepInvIff(cfg, s, cs[0]); AdmissibleRun(cfg, Step(cfg, s, cs[0]).0, cs[1..])))
  }

  ghost function Run(cfg: Config, s: Dev, cs: seq<Command>): Dev
    requires Inv(cfg, s) && AdmissibleRun(cfg, s, cs)
    decreases |cs|
  {
    if cs == [] then s
    else StepInvIff(cfg, s, cs[0]); Run(cfg, Step(cfg, s, cs[0]).0, cs[1..])
  }

  /** SAFETY.  Every state of every admissible run from the empty device satisfies the
      invariant: sorted and exact lookup buckets, right node counts, right FAR pointers,
      no policing with a deleted QER. */
  lemma {:induction false} RunInv(cfg: Config, s: Dev, cs: seq<Command>)
    requires Inv(cfg, s) && AdmissibleRun(cfg, s, cs)
    ensures Inv(cfg, Run(cfg, s, cs))
    decreases |cs|
  {
    hide Inv, Admissible, Step;
    if cs != [] {
      StepInvIff(cfg, s, cs[0]);
      RunInv(cfg, Step(cfg, s, cs[0]).0, cs[1..]);
    }
  }

  // ---------- poisoned list nodes ----------

  /** The states of a run, first and last included. */
  ghost function Trace(cfg: Config, s: Dev, cs: seq<Command>): (t: seq<Dev>)
    requires Inv(cfg, s) && AdmissibleRun(cfg, s, cs)
    ensures |t| == |cs| + 1 && t[0] == s && t[|cs|] == Run(cfg, s, cs)
    decreases |cs|
  {
    if cs == [] then [s]
    else StepInvIff(cfg, s, cs[0]); [s] + Trace(cfg, Step(cfg, s, cs[0]).0, cs[1..])
  }

  predicate HasTeid(p: Pdr) { p.pdi.Some? && p.pdi.value.fTeid.Some? }

  predicate HasAddrOnly(p: Pdr) { p.pdi.Some? && p.pdi.value.fTeid.None? && p.pdi.value.ueAddr.Some? }

  ghost predicate FoundByTeid(s: Dev, k: Key) { k in s.pdrs && HasTeid(s.pdrs[k]) }

  ghost predicate FoundByAddr(s: Dev, k: Key) { k in s.pdrs && HasAddrOnly(s.pdrs[k]) }

  /** The PDR is installed in every state from the `i`-th on. */
  ghost predicate StaysFrom(t: seq<Dev>, i: nat, k: Key) { forall j :: i <= j < |t| ==> k in t[j].pdrs }

  /** The PDR is found by TEID now and was found by its UE address since it was created. */
  ghost predicate Moved(t: seq<Dev>, k: Key)
    requires t != []
  {
    && FoundByTeid(t[|t| - 1], k)
    && exists i: nat :: i < |t| && FoundByAddr(t[i], k) && StaysFrom(t, i, k)
  }

  /** Attributes are only added, so a PDR can move from the address table to the TEID table
      and never back; the move poisons the address node. */
  lemma MovePoisons(cfg: Config, p0: Pdr, a: PdrAttrs)
    requires cfg.size > 0 && NodesRight(cfg, p0) && p0.addrNode != Poisoned
    ensures
      var p := FillPdr(p0, a);
      && (NextNode(p.addrNode, SlotOf(cfg, ByAddr, p).Some?) == Poisoned <==> HasAddrOnly(p0) && HasTeid(p))
      && (HasTeid(p0) ==> HasTeid(p))
      && (HasAddrOnly(p0) ==> HasAddrOnly(p) || HasTeid(p))
  {}

  lemma InstallPdrs(cfg: Config, s: Dev, k: Key, p: Pdr, far: Ref)
    requires Inv(cfg, s) && cfg.size > 0
    ensures
      var s' := Install(cfg, s, k, Linked(cfg, s, k, p, far));
      && s'.pdrs == s.pdrs[k := Linked(cfg, s, k, p, far)]
      && s'.fars == s.fars && s'.qers == s.qers && s'.next == s.next
      && s'.pdrs.Keys == s.pdrs.Keys + {k}
      && s'.pdrs[k].farId == p.farId && s'.pdrs[k].pdi == p.pdi
      && s'.pdrs[k].addrNode == NextNode(p.addrNode, SlotOf(cfg, ByAddr, p).Some?)
      && forall q :: q != k && q in s.pdrs ==> s'.pdrs[q] == s.pdrs[q]
  {
    RelatedSize(cfg, s);
    hide Related, FarLinked, RateLive, AllNodesRight, Fresh, Relink, Renode, RateOf, SlotOf, NextNode;
  }

  /** What a PDR command makes of the list nodes and the keys of its own PDR. */
  lemma PoisonOnInstall(cfg: Config, s: Dev, k: Key, a: PdrAttrs, far: Ref)
    requires Inv(cfg, s) && cfg.size > 0 && (k in s.pdrs ==> s.pdrs[k].addrNode != Poisoned)
    ensures
      var p := FillPdr(if k in s.pdrs then s.pdrs[k] else BLANK, a);
      var s' := Install(cfg, s, k, Linked(cfg, s, k, p, far));
      && s'.pdrs.Keys == s.pdrs.Keys + {k}
      && (s'.pdrs[k].addrNode == Poisoned <==> FoundByAddr(s, k) && FoundByTeid(s', k))
      && (FoundByTeid(s, k) ==> FoundByTeid(s', k))
      && (FoundByAddr(s, k) ==> FoundByAddr(s', k) || FoundByTeid(s', k))
      && forall q :: q != k && q in s.pdrs ==> s'.pdrs[q] == s.pdrs[q]
  {
    var p0 := if k in s.pdrs then s.pdrs[k] else BLANK;
    assert NodesRight(cfg, p0);
    hide Inv, Install, Linked, FillPdr, NodesRight, NextNode, SlotOf;
    MovePoisons(cfg, p0, a);
    InstallPdrs(cfg, s, k, FillPdr(p0, a), far);
  }

  /** Every other command leaves the list nodes and the keys of the PDRs alone. */
  lemma OthersKeepNodes(cfg: Config, s: Dev, c: Command, k: Key)
    requires Inv(cfg, s) && !c.PutPdr?
    ensures
      var s' := Step(cfg, s, c).0;
      k in s'.pdrs ==>
        k in s.pdrs && s'.pdrs[k].addrNode == s.pdrs[k].addrNode && s'.pdrs[k].pdi == s.pdrs[k].pdi
  {
    hide Inv, DoPutFar, DoDelFar, DoPutQer, DoDelQer, DoDelPdr;
    match c
    case PutFar(fk, flags, hasAction, paramsOk) => PutFarPdrs(cfg, s, fk, flags, hasAction, paramsOk);
    case DelFar(fk) => DelFarPdrs(cfg, s, fk);
    case PutQer(qk, flags, hasMbr) => PutQerPdrs(s, qk, flags, hasMbr);
    case DelQer(qk) => DelQerPdrs(cfg, s, qk);
    case DelPdr(x) => DelPdrPdrs(cfg, s, x);
  }

  /** The same PDRs, up to their FAR and QER pointers. */
  ghost predicate SamePdrs(pdrs: map<Key, Pdr>, pdrs': map<Key, Pdr>) {
    && pdrs'.Keys == pdrs.Keys
    && forall k :: k in pdrs ==> pdrs'[k] == pdrs[k].(far := pdrs'[k].far, qerWithRate := pdrs'[k].qerWithRate)
  }

  lemma PutFarPdrs(cfg: Config, s: Dev, fk: Key, flags: Flags, hasAction: bool, paramsOk: bool)
    requires Inv(cfg, s)
    ensures SamePdrs(s.pdrs, DoPutFar(cfg, s, fk, flags, hasAction, paramsOk).0.pdrs)
  {
    RelatedSize(cfg, s);
    hide Inv;
  }

  lemma DelFarPdrs(cfg: Config, s: Dev, fk: Key)
    requires Inv(cfg, s)
    ensures SamePdrs(s.pdrs, DoDelFar(cfg, s, fk).0.pdrs)
  {
    RelatedSize(cfg, s);
    hide Inv;
  }

  lemma PutQerPdrs(s: Dev, qk: Key, flags: Flags, hasMbr: bool)
    ensures DoPutQer(s, qk, flags, hasMbr).0.pdrs == s.pdrs
  {}

  lemma DelQerPdrs(cfg: Config, s: Dev, qk: Key)
    requires Inv(cfg, s)
    ensures SamePdrs(s.pdrs, DoDelQer(cfg, s, qk).0.pdrs)
  {
    RelatedSize(cfg, s);
    hide Inv;
  }

  lemma DelPdrPdrs(cfg: Config, s: Dev, x: Key)
    requires Inv(cfg, s)
    ensures DoDelPdr(cfg, s, x).0.pdrs in {s.pdrs, s.pdrs - {x}}
  {
    RelatedSize(cfg, s);
    hide Inv, Denode, Unlink, HasPoison;
  }

  /** One command: the address node is poisoned by a move from the address table to the
      TEID table, stays poisoned, and is clean in a new PDR. */
  lemma PoisonStep(cfg: Config, s: Dev, c: Command, k: Key)
    requires Inv(cfg, s) && Admissible(cfg, s, c) && k in Step(cfg, s, c).0.pdrs
    ensures
      var s' := Step(cfg, s, c).0;
      && (s'.pdrs[k].addrNode == Poisoned <==>
            k in s.pdrs && (s.pdrs[k].addrNode == Poisoned || (FoundByAddr(s, k) && FoundByTeid(s', k))))
      && (FoundByTeid(s, k) ==> FoundByTeid(s', k))
      && (FoundByAddr(s, k) ==> FoundByAddr(s', k) || FoundByTeid(s', k))
  {
    RelatedSize(cfg, s);
    hide Inv, DoPutPdr, DoDelPdr, DoPutFar, DoDelFar, DoPutQer, DoDelQer, HasTeid, HasAddrOnly;
    if c.PutPdr? { PoisonPut(cfg, s, c.key, c.flags, c.attrs, k); } else { OthersKeepNodes(cfg, s, c, k); }
  }

  lemma PoisonPut(cfg: Config, s: Dev, x: Key, flags: Flags, a: PdrAttrs, k: Key)
    requires Inv(cfg, s) && cfg.size > 0 && k in DoPutPdr(cfg, s, x, flags, a).0.pdrs
    ensures
      var s' := DoPutPdr(cfg, s, x, flags, a).0;
      && (s'.pdrs[k].addrNode == Poisoned <==>
            k in s.pdrs && (s.pdrs[k].addrNode == Poisoned || (FoundByAddr(s, k) && FoundByTeid(s', k))))
      && (FoundByTeid(s, k) ==> FoundByTeid(s', k))
      && (FoundByAddr(s, k) ==> FoundByAddr(s', k) || FoundByTeid(s', k))
  {
    PoisonIsInAddrNode(cfg, s);
    hide Inv, FillAndInstall, HasPoison, BLANK;
    var p0 := if x in s.pdrs then s.pdrs[x] else BLANK;
    if (x in s.pdrs ==> s.pdrs[x].addrNode != Poisoned) && k in FillAndInstall(cfg, s, x, p0, a).0.pdrs {
      PoisonFill(cfg, s, x, a, k);
    }
  }

  lemma PoisonFill(cfg: Config, s: Dev, x: Key, a: PdrAttrs, k: Key)
    requires Inv(cfg, s) && cfg.size > 0 && (x in s.pdrs ==> s.pdrs[x].addrNode != Poisoned)
    requires k in FillAndInstall(cfg, s, x, if x in s.pdrs then s.pdrs[x] else BLANK, a).0.pdrs
    ensures
      var s' := FillAndInstall(cfg, s, x, if x in s.pdrs then s.pdrs[x] else BLANK, a).0;
      && (s'.pdrs[k].addrNode == Poisoned <==>
            k in s.pdrs && (s.pdrs[k].addrNode == Poisoned || (FoundByAddr(s, k) && FoundByTeid(s', k))))
      && (FoundByTeid(s, k) ==> FoundByTeid(s', k))
      && (FoundByAddr(s, k) ==> FoundByAddr(s', k) || FoundByTeid(s', k))
  {
    hide Inv, Install, FillPdr, Linked, BLANK, Renode, Unlink;
    var p := FillPdr(if x in s.pdrs then s.pdrs[x] else BLANK, a);
    if FarKey(x, p) in s.fars { PoisonOnInstall(cfg, s, x, a, s.fars[FarKey(x, p)]); }
  }

  lemma PoisonHasTeid(cfg: Config, s: Dev, k: Key)
    requires Inv(cfg, s) && k in s.pdrs && s.pdrs[k].addrNode == Poisoned
    ensures FoundByTeid(s, k)
  {
    assert NodesRight(cfg, s.pdrs[k]);
  }

  /** One more state in front of a trace. */
  lemma MovedCons(s: Dev, t: seq<Dev>, k: Key)
    requires t != []
    ensures FoundByTeid(t[|t| - 1], k) ==>
              (Moved([s] + t, k) <==> Moved(t, k) || (FoundByAddr(s, k) && StaysFrom(t, 0, k)))
    ensures StaysFrom([s] + t, 0, k) <==> k in s.pdrs && StaysFrom(t, 0, k)
  {
    var u := [s] + t;
    forall i: nat | i < |t| ensures StaysFrom(u, i + 1, k) <==> StaysFrom(t, i, k) {
      assert forall j :: 0 <= j < |t| ==> u[j + 1] == t[j];
      if StaysFrom(t, i, k) { assert forall j :: i + 1 <= j < |u| ==> u[j] == t[j - 1]; }
    }
    assert StaysFrom(u, 1, k) <==> StaysFrom(t, 0, k);
    assert u[0] == s;
    assert StaysFrom(u, 0, k) <==> k in s.pdrs && StaysFrom(u, 1, k);
    if i: nat :| i < |t| && FoundByAddr(t[i], k) && StaysFrom(t, i, k) {
      assert u[i + 1] == t[i] && StaysFrom(u, i + 1, k);
    }
    if i: nat :| i < |u| && FoundByAddr(u[i], k) && StaysFrom(u, i, k) {
      if i > 0 { assert t[i - 1] == u[i] && StaysFrom(t, i - 1, k); }
    }
  }

  /** A PDR's address node is poisoned exactly when the PDR moved from the address table to
      the TEID table, in this run or before it. */
  lemma {:induction false} PoisonedIffMoved(cfg: Config, s: Dev, cs: seq<Command>, k: Key)
    requires Inv(cfg, s) && AdmissibleRun(cfg, s, cs) && k in Run(cfg, s, cs).pdrs
    ensures
      var t := Trace(cfg, s, cs);
      Run(cfg, s, cs).pdrs[k].addrNode == Poisoned <==>
        Moved(t, k) || (StaysFrom(t, 0, k) && s.pdrs[k].addrNode == Poisoned)
    decreases |cs|
  {
    hide Inv, Admissible, Step;
    var e := Run(cfg, s, cs);
    if cs != [] {
      StepInvIff(cfg, s, cs[0]);
      var s1 := Step(cfg, s, cs[0]).0;
      var t1 := Trace(cfg, s1, cs[1..]);
      PoisonedIffMoved(cfg, s1, cs[1..], k);
      assert Trace(cfg, s, cs) == [s] + t1;
      RunInv(cfg, s, cs);
      if e.pdrs[k].addrNode == Poisoned { PoisonHasTeid(cfg, e, k); }
      if k in s1.pdrs { PoisonStep(cfg, s, cs[0], k); }
      MovedCons(s, t1, k);
    }
  }

  /** The replace or delete that unlinks the nodes of an installed PDR. */
  predicate Unlinks(s: Dev, c: Command) {
    match c
    case PutPdr(k, flags, _) => k in s.pdrs && !flags.excl && flags.replace
    case DelPdr(k) => k in s.pdrs
    case _ => false
  }

  /** After every admissible run from the empty device, a command faults on a poisoned list
      node exactly when it unlinks a PDR that moved from the address table to the TEID table
      since it was created. */
  lemma FaultIffMoved(cfg: Config, cs: seq<Command>, c: Command)
    requires cfg.size > 0 && Inv(cfg, Init(cfg)) && AdmissibleRun(cfg, Init(cfg), cs)
    ensures
      var s := Run(cfg, Init(cfg), cs);
      Inv(cfg, s) && (Step(cfg, s, c).1 == PoisonedList <==> Unlinks(s, c) && Moved(Trace(cfg, Init(cfg), cs), c.key))
  {
    hide Inv, Step, Moved, Init, Trace, Run;
    RunInv(cfg, Init(cfg), cs);
    var s := Run(cfg, Init(cfg), cs);
    PoisonFaultIff(cfg, s, c);
    if Unlinks(s, c) {
      PoisonedIffMoved(cfg, Init(cfg), cs, c.key);
      NotAtFirst(cfg, cs, c.key);
    }
  }

  lemma NotAtFirst(cfg: Config, cs: seq<Command>, k: Key)
    requires cfg.size > 0 && Inv(cfg, Init(cfg)) && AdmissibleRun(cfg, Init(cfg), cs)
    ensures !StaysFrom(Trace(cfg, Init(cfg), cs), 0, k)
  {
    hide Inv, AdmissibleRun, Trace;
    assert Trace(cfg, Init(cfg), cs)[0] == Init(cfg);
  }

  lemma PoisonFaultIff(cfg: Config, s: Dev, c: Command)
    requires Inv(cfg, s)
    ensures Step(cfg, s, c).1 == PoisonedList <==> Unlinks(s, c) && s.pdrs[c.key].addrNode == Poisoned
  {
    PoisonIsInAddrNode(cfg, s);
    hide Inv, Install, HasPoison, FillPdr, Linked, Unlink, SetFar, ClearRate, Denode;
  }
}
