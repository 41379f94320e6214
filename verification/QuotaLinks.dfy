/** The related PDRs that the quota actions of `urr.c` meet, taken from the device's
    related-URR table. */
module QuotaLinks {
  import opened Base
  import opened Rules
  import opened Links
  import RuleEngine
  import opened RuleWitnesses
  import opened Quota

  /** `find_urr_id_in_pdr`: the session of the PDR is not compared. */
  predicate Names(pdrs: map<Key, Pdr>, id: nat, k: Key) { k in pdrs && id in pdrs[k].urrIds }

  /** The PDRs of a bucket that name the URR, one entry per node. */
  function Met(l: seq<Key>, pdrs: map<Key, Pdr>, id: nat): (r: seq<Key>)
    ensures forall k :: k in r ==> Names(pdrs, id, k)
  {
    if l == [] then []
    else if Names(pdrs, id, l[0]) then [l[0]] + Met(l[1..], pdrs, id)
    else Met(l[1..], pdrs, id)
  }

  function NodeList(met: seq<Key>, pdrs: map<Key, Pdr>): (nodes: seq<Node>)
    requires forall k :: k in met ==> k in pdrs
    ensures |nodes| == |met| && forall i :: 0 <= i < |met| ==> nodes[i] == Node(met[i].id, pdrs[met[i]].far)
  {
    if met == [] then [] else [Node(met[0].id, pdrs[met[0]].far)] + NodeList(met[1..], pdrs)
  }

  /** The nodes that the walks of the quota actions visit for URR `uk`, in order. */
  function NodesFor(cfg: Config, s: RuleEngine.Dev, uk: Key): (nodes: seq<Node>)
    requires cfg.size > 0 && |s.relUrr| == cfg.size
  {
    NodeList(Met(s.relUrr[Bucket(cfg, uk)], s.pdrs, uk.id), s.pdrs)
  }

  /** In the order of the bucket. */
  lemma {:induction false} MetConcat(a: seq<Key>, b: seq<Key>, pdrs: map<Key, Pdr>, id: nat)
    ensures Met(a + b, pdrs, id) == Met(a, pdrs, id) + Met(b, pdrs, id)
  {
    if a == [] {
      assert a + b == b;
    } else {
      MetConcat(a[1..], b, pdrs, id);
      assert (a + b)[1..] == a[1..] + b;
    }
  }

  lemma {:induction false} MetCount(l: seq<Key>, pdrs: map<Key, Pdr>, id: nat, k: Key)
    ensures Count(Met(l, pdrs, id), k) == if Names(pdrs, id, k) then Count(l, k) else 0
  {
    if l != [] {
      MetCount(l[1..], pdrs, id, k);
      assert l == [l[0]] + l[1..];
    }
  }

  /** Something occurs twice exactly when it is at two places. */
  lemma CountTwo<T>(s: seq<T>, x: T)
    ensures Count(s, x) >= 2 <==> exists i, j :: 0 <= i < j < |s| && s[i] == x && s[j] == x
  {
    if Count(s, x) >= 2 {
      var i :| 0 <= i < |s| && s[i] == x;
      assert s == s[..i] + [x] + s[i + 1..];
      assert x in s[..i] || x in s[i + 1..];
    }
    if i, j :| 0 <= i < j < |s| && s[i] == x && s[j] == x {
      assert s == s[..i] + [x] + s[i + 1..j] + [x] + s[j + 1..];
    }
  }

  /** How often a PDR is met: once per URR id it names that hashes to the bucket of `uk`,
      provided it names an id equal to that of `uk`. */
  ghost function Meetings(cfg: Config, s: RuleEngine.Dev, uk: Key, k: Key): nat
    requires cfg.size > 0
  {
    if Names(s.pdrs, uk.id, k) then Count(Buckets(cfg, k.seid, s.pdrs[k].urrIds), Bucket(cfg, uk)) else 0
  }

  lemma MeetingsCount(cfg: Config, s: RuleEngine.Dev, uk: Key, k: Key)
    requires RuleEngine.Inv(cfg, s)
    ensures Count(Met(s.relUrr[Bucket(cfg, uk)], s.pdrs, uk.id), k) == Meetings(cfg, s, uk, k)
  {
    var b := Bucket(cfg, uk);
    MetCount(s.relUrr[b], s.pdrs, uk.id, k);
    assert Count(s.relUrr[b], k) == Expected(cfg, UrrKind, s.pdrs, b, k);
  }

  /** Two places of a list satisfy `hit`. */
  ghost predicate TwoHits(met: seq<Key>, hit: Key -> bool) {
    exists i, j :: 0 <= i < j < |met| && hit(met[i]) && hit(met[j])
  }

  lemma TwoHitsIff(met: seq<Key>, hit: Key -> bool)
    ensures TwoHits(met, hit) <==>
      || (exists k, q :: k != q && k in met && q in met && hit(k) && hit(q))
      || (exists k :: Count(met, k) >= 2 && hit(k))
  {
    hide Count;
    if i, j :| 0 <= i < j < |met| && hit(met[i]) && hit(met[j]) {
      if met[i] == met[j] { CountTwo(met, met[i]); } else { assert met[i] in met && met[j] in met; }
    }
    if k, q :| k != q && k in met && q in met && hit(k) && hit(q) { DifferentHits(met, hit, k, q); }
    if k :| Count(met, k) >= 2 && hit(k) {
      CountTwo(met, k);
      var i, j :| 0 <= i < j < |met| && met[i] == k && met[j] == k;
      assert hit(met[i]) && hit(met[j]);
    }
  }

  lemma DifferentHits(met: seq<Key>, hit: Key -> bool, k: Key, q: Key)
    requires k != q && k in met && q in met && hit(k) && hit(q)
    ensures TwoHits(met, hit)
  {
    var i :| 0 <= i < |met| && met[i] == k;
    var j :| 0 <= j < |met| && met[j] == q;
    if i < j {
      assert hit(met[i]) && hit(met[j]);
    } else {
      assert hit(met[j]) && hit(met[i]);
    }
  }

  /** The PDRs with the FAR `f`. */
  function UserOf(pdrs: map<Key, Pdr>, f: Ref): Key -> bool { k => k in pdrs && pdrs[k].far == Some(f) }

  lemma SharedInList(met: seq<Key>, pdrs: map<Key, Pdr>, f: Ref)
    requires forall k :: k in met ==> k in pdrs
    ensures Shared(NodeList(met, pdrs), f) <==> TwoHits(met, UserOf(pdrs, f))
  {
    hide NodeList;
    var hit := UserOf(pdrs, f);
    var nodes := NodeList(met, pdrs);
    forall i | 0 <= i < |met| ensures nodes[i].far == Some(f) <==> hit(met[i]) { assert met[i] in met; }
    if i, j :| 0 <= i < j < |met| && hit(met[i]) && hit(met[j]) {
      assert nodes[i].far == Some(f) && nodes[j].far == Some(f);
    }
    if i, j :| 0 <= i < j < |nodes| && nodes[i].far == Some(f) && nodes[j].far == Some(f) {
      assert hit(met[i]) && hit(met[j]);
    }
  }

  /** `k` is met and has the FAR `f`. */
  ghost predicate MetWith(cfg: Config, s: RuleEngine.Dev, uk: Key, f: Ref, k: Key)
    requires cfg.size > 0
  {
    Meetings(cfg, s, uk, k) > 0 && s.pdrs[k].far == Some(f)
  }

  /** Two different related PDRs have the FAR `f`, or one with that FAR is met twice. */
  ghost predicate FarShared(cfg: Config, s: RuleEngine.Dev, uk: Key, f: Ref)
    requires cfg.size > 0
  {
    || (exists k, q :: k != q && MetWith(cfg, s, uk, f, k) && MetWith(cfg, s, uk, f, q))
    || (exists k :: MetWith(cfg, s, uk, f, k) && Meetings(cfg, s, uk, k) >= 2)
  }

  lemma HitsAreMeetings(cfg: Config, s: RuleEngine.Dev, uk: Key, met: seq<Key>, f: Ref)
    requires cfg.size > 0 && forall k :: k in met ==> k in s.pdrs
    requires forall k :: Count(met, k) == Meetings(cfg, s, uk, k)
    ensures TwoHits(met, UserOf(s.pdrs, f)) <==> FarShared(cfg, s, uk, f)
  {
    var hit := UserOf(s.pdrs, f);
    forall k
      ensures k in met && hit(k) <==> MetWith(cfg, s, uk, f, k)
      ensures Count(met, k) >= 2 && hit(k) <==> MetWith(cfg, s, uk, f, k) && Meetings(cfg, s, uk, k) >= 2
    {
      assert Count(met, k) == Meetings(cfg, s, uk, k);
      assert k in met <==> Count(met, k) > 0;
    }
    hide TwoHits, Meetings, MetWith, UserOf, Count;
    TwoHitsIff(met, hit);
    if k, q :| k != q && MetWith(cfg, s, uk, f, k) && MetWith(cfg, s, uk, f, q) {
      assert k in met && q in met && hit(k) && hit(q);
    }
  }

  lemma SharedIff(cfg: Config, s: RuleEngine.Dev, uk: Key, f: Ref)
    requires RuleEngine.Inv(cfg, s)
    ensures Shared(NodesFor(cfg, s, uk), f) <==> FarShared(cfg, s, uk, f)
  {
    RuleEngine.RelatedSize(cfg, s);
    hide RuleEngine.Inv, Met, Shared, TwoHits, FarShared, NodeList, UserOf, Meetings, Count;
    var met := Met(s.relUrr[Bucket(cfg, uk)], s.pdrs, uk.id);
    forall k ensures Count(met, k) == Meetings(cfg, s, uk, k) { MeetingsCount(cfg, s, uk, k); }
    HitsAreMeetings(cfg, s, uk, met, f);
    SharedInList(met, s.pdrs, f);
  }

  /** Every FAR that a PDR can point to has an action. */
  ghost predicate ActionsKnown(s: RuleEngine.Dev, actions: map<Ref, nat>) {
    forall fk :: fk in s.fars ==> s.fars[fk] in actions
  }

  /** The FAR pointers that the walks follow are all live. */
  lemma NodesKnown(cfg: Config, s: RuleEngine.Dev, uk: Key, actions: map<Ref, nat>)
    requires RuleEngine.Inv(cfg, s) && ActionsKnown(s, actions)
    ensures |s.relUrr| == cfg.size > 0 && FarsKnown(NodesFor(cfg, s, uk), actions)
  {
    RuleEngine.RelatedSize(cfg, s);
    var met := Met(s.relUrr[Bucket(cfg, uk)], s.pdrs, uk.id);
    var nodes := NodesFor(cfg, s, uk);
    forall i | 0 <= i < |nodes| && nodes[i].far.Some? ensures nodes[i].far.value in actions {
      var k := met[i];
      assert k in met && k in s.pdrs;
      assert s.pdrs[k].far == RuleEngine.Get(s.fars, RuleEngine.FarKey(k, s.pdrs[k]));
    }
  }

  /** No two related PDRs of different sessions have one id and different FARs. */
  ghost predicate NoClash(cfg: Config, s: RuleEngine.Dev, uk: Key)
    requires cfg.size > 0
  {
    forall k, q :: Meetings(cfg, s, uk, k) > 0 && Meetings(cfg, s, uk, q) > 0 && k.id == q.id ==>
                     s.pdrs[k].far == s.pdrs[q].far
  }

  lemma NoClashNames(cfg: Config, s: RuleEngine.Dev, uk: Key)
    requires RuleEngine.Inv(cfg, s) && cfg.size > 0 && NoClash(cfg, s, uk)
    ensures |s.relUrr| == cfg.size && IdsName(NodesFor(cfg, s, uk))
  {
    RuleEngine.RelatedSize(cfg, s);
    hide RuleEngine.Inv, Met, NodeList;
    var met := Met(s.relUrr[Bucket(cfg, uk)], s.pdrs, uk.id);
    var nodes := NodesFor(cfg, s, uk);
    forall i, j | 0 <= i < j < |nodes| && nodes[i].pdrId == nodes[j].pdrId ensures nodes[i].far == nodes[j].far {
      MeetingsCount(cfg, s, uk, met[i]);
      MeetingsCount(cfg, s, uk, met[j]);
      assert met[i] in met && met[j] in met;
    }
  }

  /** EXHAUST AND REVERSE ON THE DEVICE.  Unless PDRs of two sessions clash, a reverse action
      gives every FAR its action back if and only if no FAR that was not dropping belongs to
      two related PDRs, or to one that is met twice because two of its URRs share a bucket. */
  lemma DeviceRestoresIff(cfg: Config, s: RuleEngine.Dev, uk: Key, actions: map<Ref, nat>)
    requires RuleEngine.Inv(cfg, s) && ActionsKnown(s, actions) && cfg.size > 0 && NoClash(cfg, s, uk)
    ensures
      && |s.relUrr| == cfg.size
      && (Cycle(NodesFor(cfg, s, uk), actions) == actions <==>
            forall f :: f in actions && FarShared(cfg, s, uk, f) ==> actions[f] == DROP)
  {
    NodesKnown(cfg, s, uk, actions);
    NoClashNames(cfg, s, uk);
    forall f: Ref ensures Shared(NodesFor(cfg, s, uk), f) <==> FarShared(cfg, s, uk, f) { SharedIff(cfg, s, uk, f); }
    hide RuleEngine.Inv, Shared, FarShared, FarsKnown, IdsName, ComesBack, NodesFor, Cycle;
    ComesBackIff(NodesFor(cfg, s, uk), actions);
    CycleIs(NodesFor(cfg, s, uk), actions);
  }

  /** In general, clash or not: the FAR of a related PDR gets what was saved last under the id
      of the last related PDR that uses it. */
  lemma DeviceBackTo(cfg: Config, s: RuleEngine.Dev, uk: Key, actions: map<Ref, nat>)
    requires RuleEngine.Inv(cfg, s) && ActionsKnown(s, actions)
    ensures
      && |s.relUrr| == cfg.size > 0
      && var nodes := NodesFor(cfg, s, uk);
      && FarsKnown(nodes, actions)
      && (Cycle(nodes, actions) == actions <==>
            forall f :: f in actions && Uses(nodes, f) ==> BackTo(nodes, actions, f) == actions[f])
  {
    NodesKnown(cfg, s, uk, actions);
    CycleIs(NodesFor(cfg, s, uk), actions);
  }

  /** PDRs of one session do not clash. */
  lemma OneSessionNoClash(cfg: Config, s: RuleEngine.Dev, uk: Key)
    requires cfg.size > 0 && forall k :: Meetings(cfg, s, uk, k) > 0 ==> k.seid == uk.seid
    ensures NoClash(cfg, s, uk)
  {
    forall k, q | Meetings(cfg, s, uk, k) > 0 && Meetings(cfg, s, uk, q) > 0 && k.id == q.id
      ensures s.pdrs[k].far == s.pdrs[q].far
    {
      assert k.seid == uk.seid && q.seid == uk.seid;
      assert k == q;
    }
  }

  /** A PDR with two URRs in one bucket is met twice, and its FAR, which no other PDR uses,
      does not come back. */
  lemma TwoUrrsInOneBucket(cfg: Config, s: RuleEngine.Dev, k: Key, actions: map<Ref, nat>)
    requires RuleEngine.Inv(cfg, s) && ActionsKnown(s, actions) && cfg.size > 0
    requires s.pdrs.Keys == {k} && s.pdrs[k].urrIds == [1, 2] && s.pdrs[k].far.Some?
    requires Bucket(cfg, Key(k.seid, 1)) == Bucket(cfg, Key(k.seid, 2))
    requires s.pdrs[k].far.value in actions && actions[s.pdrs[k].far.value] != DROP
    ensures |s.relUrr| == cfg.size && Cycle(NodesFor(cfg, s, Key(k.seid, 1)), actions) != actions
  {
    var uk := Key(k.seid, 1);
    var b := Bucket(cfg, uk);
    var bs := Buckets(cfg, k.seid, [1, 2]);
    assert bs == [b, b];
    assert Count(bs, b) == 2;
    assert 1 in s.pdrs[k].urrIds;
    assert Meetings(cfg, s, uk, k) == 2;
    forall q | Meetings(cfg, s, uk, q) > 0 ensures q == k {}
    hide RuleEngine.Inv, Meetings, Cycle, NodesFor;
    OneSessionNoClash(cfg, s, uk);
    DeviceRestoresIff(cfg, s, uk, actions);
    assert FarShared(cfg, s, uk, s.pdrs[k].far.value);
  }

  lemma CreatedNamesBoth(s: RuleEngine.Dev, k: Key, ue: bv32)
    requires Key(k.seid, 1) in s.fars
    ensures Created(s, k, ue, [], [1, 2]).urrIds == [1, 2] && Created(s, k, ue, [], [1]).urrIds == [1]
    ensures Created(s, k, ue, [], [1, 2]).far == Created(s, k, ue, [], [1]).far == Some(s.fars[Key(k.seid, 1)])
  {
    assert [1, 2][1..] == [2] && [2][1..] == [] && [1][1..] == [];
    assert Merge([1, 2], []) == [1, 2] && Merge([1], []) == [1];
    assert Merge([1], [2]) == [1, 2];
  }

  /** Two commands from the empty device reach one: a FAR, and a PDR with two URRs that hash
      to one bucket. */
  lemma TwoUrrsRun(cfg: Config, k: Key, ue: bv32) returns (s: RuleEngine.Dev)
    requires cfg.size > 0 && Bucket(cfg, Key(k.seid, 1)) == Bucket(cfg, Key(k.seid, 2))
    ensures Reaches(cfg, [NewFar(Key(k.seid, 1)), CreateByAddr(k, ue, [], [1, 2])], s)
    ensures s.fars == map[Key(k.seid, 1) := 0] && |s.relUrr| == cfg.size
    ensures Cycle(NodesFor(cfg, s, Key(k.seid, 1)), map[0 := 2]) == map[0 := DROP]
  {
    hide Reaches, RuleEngine.Inv, RuleEngine.Init, NewFar, CreateByAddr, Created, Cycle, NodesFor;
    var c0, c1 := NewFar(Key(k.seid, 1)), CreateByAddr(k, ue, [], [1, 2]);
    s := RuleEngine.Init(cfg);
    ReachesInit(cfg);
    assert s.next == 0 by { InitNext(cfg); }
    s := ByNewFar(cfg, [], s, Key(k.seid, 1));
    CreatedNamesBoth(s, k, ue);
    s := ByCreate(cfg, [] + [c0], s, k, ue, [], [1, 2]);
    assert [] + [c0] + [c1] == [c0, c1];
    ReachedInv(cfg, [c0, c1], s);
    TwoUrrsInOneBucket(cfg, s, k, map[0 := 2]);
    var nodes := NodesFor(cfg, s, Key(k.seid, 1));
    NodesKnown(cfg, s, Key(k.seid, 1), map[0 := 2]);
    OnlyDrops(nodes, map[0 := 2]);
  }

  lemma InitNext(cfg: Config)
    requires cfg.size > 0
    ensures RuleEngine.Init(cfg).next == 0
  {}

  /** With one FAR, what does not come back drops. */
  lemma OnlyDrops(nodes: seq<Node>, actions: map<Ref, nat>)
    requires FarsKnown(nodes, actions) && actions == map[0 := 2] && Cycle(nodes, actions) != actions
    ensures Cycle(nodes, actions) == map[0 := DROP]
  {
    hide Cycle, ComesBack;
    CycleIs(nodes, actions);
    assert Cycle(nodes, actions).Keys == {0};
  }

  // ---------- other sessions ----------

  /** A related PDR of another session whose FAR is not dropping. */
  ghost predicate Stranger(cfg: Config, s: RuleEngine.Dev, uk: Key, actions: map<Ref, nat>, k: Key)
    requires cfg.size > 0 && ActionsKnown(s, actions)
  {
    && Meetings(cfg, s, uk, k) > 0 && k.seid != uk.seid
    && s.pdrs[k].far.Some? && s.pdrs[k].far.value in actions && actions[s.pdrs[k].far.value] != DROP
  }

  /** Every PDR that names a URR of its session is met by the quota actions of that URR. */
  lemma OwnPdrMet(cfg: Config, s: RuleEngine.Dev, k: Key, id: nat, f: Ref)
    requires RuleEngine.Inv(cfg, s) && k in s.pdrs && id in s.pdrs[k].urrIds && s.pdrs[k].far == Some(f)
    ensures |s.relUrr| == cfg.size > 0 && Uses(NodesFor(cfg, s, Key(k.seid, id)), f)
  {
    RuleEngine.RelatedSize(cfg, s);
    var ids := s.pdrs[k].urrIds;
    var i :| 0 <= i < |ids| && ids[i] == id;
    assert Buckets(cfg, k.seid, ids)[i] == Bucket(cfg, Key(k.seid, id));
    assert MetWith(cfg, s, Key(k.seid, id), f, k);
    hide RuleEngine.Inv, Meetings;
    UsesIff(cfg, s, Key(k.seid, id), f);
  }

  /** A FAR is met exactly if a PDR that is met has it. */
  lemma UsesIff(cfg: Config, s: RuleEngine.Dev, uk: Key, f: Ref)
    requires RuleEngine.Inv(cfg, s)
    ensures |s.relUrr| == cfg.size > 0
    ensures Uses(NodesFor(cfg, s, uk), f) <==> exists k :: MetWith(cfg, s, uk, f, k)
  {
    RuleEngine.RelatedSize(cfg, s);
    hide RuleEngine.Inv, Met, NodeList, Meetings;
    var met := Met(s.relUrr[Bucket(cfg, uk)], s.pdrs, uk.id);
    var nodes := NodesFor(cfg, s, uk);
    forall k ensures k in met <==> Meetings(cfg, s, uk, k) > 0 { MeetingsCount(cfg, s, uk, k); }
    hide Count;
    if i :| 0 <= i < |nodes| && nodes[i].far == Some(f) { assert met[i] in met && MetWith(cfg, s, uk, f, met[i]); }
    if k :| MetWith(cfg, s, uk, f, k) {
      var i :| 0 <= i < |met| && met[i] == k;
      assert nodes[i].far == Some(f);
    }
  }

  /** A PDR's FAR is one of its own session. */
  lemma FarOfSession(cfg: Config, s: RuleEngine.Dev, fk: Key, k: Key)
    requires RuleEngine.Inv(cfg, s) && fk in s.fars && k in s.pdrs && s.pdrs[k].far == Some(s.fars[fk])
    ensures RuleEngine.FarKey(k, s.pdrs[k]) == fk && k.seid == fk.seid
  {
    assert s.pdrs[k].far == RuleEngine.Get(s.fars, RuleEngine.FarKey(k, s.pdrs[k]));
    assert RuleEngine.Fresh(s);
    hide Links.Related, RuleEngine.AllNodesRight, RuleEngine.RateLive;
  }

  /** ISOLATION, EXACTLY.  The exhaustion of a URR leaves the FARs of all other sessions alone if
      and only if no PDR of another session, with a FAR that is not dropping, names the same
      URR id and has a URR id in the same bucket. */
  lemma ExhaustSparesOthersIff(cfg: Config, s: RuleEngine.Dev, uk: Key, actions: map<Ref, nat>)
    requires RuleEngine.Inv(cfg, s) && ActionsKnown(s, actions) && cfg.size > 0
    ensures
      && |s.relUrr| == cfg.size
      && var after := SaveAndDrop(NodesFor(cfg, s, uk), actions).1;
      && after.Keys == actions.Keys
      && ((forall fk :: fk in s.fars && fk.seid != uk.seid ==> after[s.fars[fk]] == actions[s.fars[fk]]) <==>
            forall k :: !Stranger(cfg, s, uk, actions, k))
  {
    hide RuleEngine.Inv, SaveAndDrop, NodesFor, Uses, Meetings, FarsKnown, Bucket;
    NodesKnown(cfg, s, uk, actions);
    DropEffect(NodesFor(cfg, s, uk), actions);
    if k :| Stranger(cfg, s, uk, actions, k) { StrangerDrops(cfg, s, uk, actions, k); }
    var after := SaveAndDrop(NodesFor(cfg, s, uk), actions).1;
    if fk :| fk in s.fars && fk.seid != uk.seid && after[s.fars[fk]] != actions[s.fars[fk]] {
      DropIsByStranger(cfg, s, uk, actions, fk);
    }
  }

  lemma StrangerDrops(cfg: Config, s: RuleEngine.Dev, uk: Key, actions: map<Ref, nat>, k: Key)
    requires RuleEngine.Inv(cfg, s) && ActionsKnown(s, actions) && cfg.size > 0 && Stranger(cfg, s, uk, actions, k)
    ensures
      && k in s.pdrs && |s.relUrr| == cfg.size
      && var fk := RuleEngine.FarKey(k, s.pdrs[k]);
      && fk in s.fars && fk.seid != uk.seid && s.fars[fk] in actions
      && actions[s.fars[fk]] != DROP && Uses(NodesFor(cfg, s, uk), s.fars[fk])
  {
    hide RuleEngine.Inv, NodesFor, Uses, Meetings, Bucket;
    MeetingsInstalled(cfg, s, uk, k);
    FarStored(cfg, s, k);
    var f := s.pdrs[k].far.value;
    assert MetWith(cfg, s, uk, f, k);
    UsesIff(cfg, s, uk, f);
  }

  lemma DropIsByStranger(cfg: Config, s: RuleEngine.Dev, uk: Key, actions: map<Ref, nat>, fk: Key)
    requires RuleEngine.Inv(cfg, s) && ActionsKnown(s, actions) && cfg.size > 0 && |s.relUrr| == cfg.size
    requires fk in s.fars && fk.seid != uk.seid && actions[s.fars[fk]] != DROP && Uses(NodesFor(cfg, s, uk), s.fars[fk])
    ensures exists k :: Stranger(cfg, s, uk, actions, k)
  {
    hide RuleEngine.Inv, NodesFor, Uses, Meetings, Bucket;
    UsesIff(cfg, s, uk, s.fars[fk]);
    var k :| MetWith(cfg, s, uk, s.fars[fk], k);
    MeetingsInstalled(cfg, s, uk, k);
    FarOfSession(cfg, s, fk, k);
    assert Stranger(cfg, s, uk, actions, k);
  }

  lemma MeetingsInstalled(cfg: Config, s: RuleEngine.Dev, uk: Key, k: Key)
    requires cfg.size > 0 && Meetings(cfg, s, uk, k) > 0
    ensures k in s.pdrs
  {}

  lemma FarStored(cfg: Config, s: RuleEngine.Dev, k: Key)
    requires RuleEngine.Inv(cfg, s) && k in s.pdrs && s.pdrs[k].far.Some?
    ensures
      var fk := RuleEngine.FarKey(k, s.pdrs[k]);
      fk in s.fars && s.pdrs[k].far == Some(s.fars[fk])
  {
    assert s.pdrs[k].far == RuleEngine.Get(s.fars, RuleEngine.FarKey(k, s.pdrs[k]));
  }

  /** Four commands from the empty device: two sessions with a FAR and a PDR each, whose URRs
      have one id and hash to one bucket.  The exhaustion of the URR of session 1 makes the
      FAR of session 2 drop. */
  lemma OtherSessionDrops(cfg: Config, ue: bv32) returns (s: RuleEngine.Dev)
    requires cfg.size > 0 && Bucket(cfg, Key(1, 1)) == Bucket(cfg, Key(2, 1))
    ensures
      Reaches(cfg, [NewFar(Key(1, 1)), NewFar(Key(2, 1)), CreateByAddr(Key(1, 1), ue, [], [1]),
                    CreateByAddr(Key(2, 1), ue, [], [1])], s)
    ensures s.fars == map[Key(1, 1) := 0, Key(2, 1) := 1] && |s.relUrr| == cfg.size
    ensures SaveAndDrop(NodesFor(cfg, s, Key(1, 1)), map[0 := 2, 1 := 2]).1 == map[0 := DROP, 1 := DROP]
  {
    hide Reaches, RuleEngine.Inv, RuleEngine.Init, NewFar, CreateByAddr, Created, SaveAndDrop, NodesFor;
    var k1, k2 := Key(1, 1), Key(2, 1);
    var c0, c1, c2, c3 := NewFar(k1), NewFar(k2), CreateByAddr(k1, ue, [], [1]), CreateByAddr(k2, ue, [], [1]);
    s := RuleEngine.Init(cfg);
    ReachesInit(cfg);
    InitNext(cfg);
    s := ByNewFar(cfg, [], s, k1);
    s := ByNewFar(cfg, [] + [c0], s, k2);
    CreatedNamesBoth(s, k1, ue);
    s := ByCreate(cfg, [] + [c0] + [c1], s, k1, ue, [], [1]);
    CreatedNamesBoth(s, k2, ue);
    s := ByCreate(cfg, [] + [c0] + [c1] + [c2], s, k2, ue, [], [1]);
    assert [] + [c0] + [c1] + [c2] + [c3] == [c0, c1, c2, c3];
    ReachedInv(cfg, [c0, c1, c2, c3], s);
    BothMet(cfg, s, map[0 := 2, 1 := 2]);
  }

  lemma BothMet(cfg: Config, s: RuleEngine.Dev, actions: map<Ref, nat>)
    requires RuleEngine.Inv(cfg, s) && s.pdrs.Keys == {Key(1, 1), Key(2, 1)} && s.fars.Values == {0, 1}
    requires s.pdrs[Key(1, 1)].urrIds == [1] && s.pdrs[Key(2, 1)].urrIds == [1]
    requires s.pdrs[Key(1, 1)].far == Some(0) && s.pdrs[Key(2, 1)].far == Some(1)
    requires cfg.size > 0 && Bucket(cfg, Key(1, 1)) == Bucket(cfg, Key(2, 1)) && actions == map[0 := 2, 1 := 2]
    ensures |s.relUrr| == cfg.size
    ensures SaveAndDrop(NodesFor(cfg, s, Key(1, 1)), actions).1 == map[0 := DROP, 1 := DROP]
  {
    hide RuleEngine.Inv, SaveAndDrop, NodesFor, Uses, Meetings, FarsKnown, Bucket;
    var uk, k2 := Key(1, 1), Key(2, 1);
    RuleEngine.RelatedSize(cfg, s);
    OneMeeting(cfg, s, uk, uk);
    OneMeeting(cfg, s, uk, k2);
    UsesIff(cfg, s, uk, 0);
    UsesIff(cfg, s, uk, 1);
    assert MetWith(cfg, s, uk, 0, uk) && MetWith(cfg, s, uk, 1, k2);
    assert ActionsKnown(s, actions) by { assert forall fk :: fk in s.fars ==> s.fars[fk] in s.fars.Values; }
    NodesKnown(cfg, s, uk, actions);
    DropEffect(NodesFor(cfg, s, uk), actions);
    var after := Dropped(NodesFor(cfg, s, uk), actions);
    assert after.Keys == {0, 1} && after[0] == DROP && after[1] == DROP;
  }

  lemma OneMeeting(cfg: Config, s: RuleEngine.Dev, uk: Key, k: Key)
    requires cfg.size > 0 && k in s.pdrs && s.pdrs[k].urrIds == [uk.id]
    requires Bucket(cfg, Key(k.seid, uk.id)) == Bucket(cfg, uk)
    ensures Meetings(cfg, s, uk, k) == 1
  {
    var bs := Buckets(cfg, k.seid, [uk.id]);
    assert bs == [Bucket(cfg, uk)];
    assert [uk.id][0] in s.pdrs[k].urrIds;
  }
}
