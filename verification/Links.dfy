/** The related-PDR tables: for every FAR, QER and URR id that a PDR names, one node in
    the bucket of that id (`far.c`, `qer.c`, `urr.c`).  Ids may be unknown to the
    device, and different ids may share a bucket. */
module Links {
  import opened Rules

  datatype Kind = FarKind | QerKind | UrrKind

  /** The ids a PDR names, per kind of rule. */
  function Ids(kind: Kind, p: Pdr): seq<nat> {
    match kind
    case FarKind => [p.farId]
    case QerKind => p.qerIds
    case UrrKind => p.urrIds
  }

  function Bucket(cfg: Config, k: Key): (b: nat)
    requires cfg.size > 0
    ensures b < cfg.size
  {
    cfg.keyHash(k) % cfg.size
  }

  /** The buckets of a list of ids, in order. */
  function Buckets(cfg: Config, seid: nat, ids: seq<nat>): (bs: seq<nat>)
    requires cfg.size > 0
    ensures |bs| == |ids| && forall i :: 0 <= i < |ids| ==> bs[i] == Bucket(cfg, Key(seid, ids[i]))
  {
    seq(|ids|, i requires 0 <= i < |ids| => Bucket(cfg, Key(seid, ids[i])))
  }

  ghost predicate InRange(bs: seq<nat>, n: nat) { forall i :: 0 <= i < |bs| ==> bs[i] < n }

  ghost function Count<T>(s: seq<T>, x: T): nat { multiset(s)[x] }

  /** In every bucket, a PDR has as many nodes as it names ids that hash there;
      whatever is not an installed PDR has none. */
  ghost predicate Related(cfg: Config, kind: Kind, tbl: Table, pdrs: map<Key, Pdr>) {
    && cfg.size > 0 && |tbl| == cfg.size
    && forall b, k :: 0 <= b < |tbl| ==> Count(tbl[b], k) == Expected(cfg, kind, pdrs, b, k)
  }

  ghost function Expected(cfg: Config, kind: Kind, pdrs: map<Key, Pdr>, b: nat, k: Key): nat
    requires cfg.size > 0
  {
    if k in pdrs then Count(Buckets(cfg, k.seid, Ids(kind, pdrs[k])), b) else 0
  }

  // ---------- removing and adding nodes ----------

  /** Position of the first node of `k`, or the length of the list. */
  function FirstNode(l: seq<Key>, k: Key): (i: nat)
    ensures i <= |l| && (i < |l| ==> l[i] == k) && forall j :: 0 <= j < i ==> l[j] != k
  {
    if l == [] || l[0] == k then 0 else 1 + FirstNode(l[1..], k)
  }

  /** The list without the first node of `k`, if there is one. */
  function RemoveFirst(l: seq<Key>, k: Key): seq<Key> {
    var i := FirstNode(l, k);
    if i < |l| then l[..i] + l[i + 1..] else l
  }

  lemma RemoveFirstCount(l: seq<Key>, k: Key, x: Key)
    ensures Count(RemoveFirst(l, k), x) == if x == k then Minus(Count(l, x), 1) else Count(l, x)
  {
    hide FirstNode;
    var i := FirstNode(l, k);
    if i < |l| {
      assert l == l[..i] + [k] + l[i + 1..];
    } else {
      assert k !in l;
    }
  }

  function DelNodes(tbl: Table, bs: seq<nat>, k: Key): (r: Table)
    requires InRange(bs, |tbl|)
    ensures |r| == |tbl|
    decreases |bs|
  {
    if bs == [] then tbl
    else
      var last := bs[|bs| - 1];
      var t := DelNodes(tbl, bs[..|bs| - 1], k);
      t[last := RemoveFirst(t[last], k)]
  }

  lemma DelNodesSnoc(tbl: Table, bs: seq<nat>, k: Key)
    requires InRange(bs, |tbl|) && bs != []
    ensures
      var last := bs[|bs| - 1];
      var t := DelNodes(tbl, bs[..|bs| - 1], k);
      DelNodes(tbl, bs, k) == t[last := RemoveFirst(t[last], k)]
  {
    hide RemoveFirst;
  }

  function AddNodes(tbl: Table, bs: seq<nat>, k: Key): (r: Table)
    requires InRange(bs, |tbl|)
    ensures |r| == |tbl|
    decreases |bs|
  {
    if bs == [] then tbl
    else
      var last := bs[|bs| - 1];
      var t := AddNodes(tbl, bs[..|bs| - 1], k);
      t[last := [k] + t[last]]
  }

  /** `far_set_pdr`, `qer_set_pdr`, `urr_set_pdr`: drop the old nodes, add new ones. */
  function SetNodes(tbl: Table, bs: seq<nat>, k: Key): (r: Table)
    requires InRange(bs, |tbl|)
    ensures |r| == |tbl|
  {
    AddNodes(DelNodes(tbl, bs, k), bs, k)
  }

  function Minus(a: nat, b: nat): nat { if a < b then 0 else a - b }

  lemma CountSnoc<T>(s: seq<T>, x: T)
    requires s != []
    ensures Count(s, x) == Count(s[..|s| - 1], x) + (if s[|s| - 1] == x then 1 else 0)
  {
    assert s == s[..|s| - 1] + [s[|s| - 1]];
  }

  lemma {:induction false} DelNodesCount(tbl: Table, bs: seq<nat>, k: Key, b: nat, x: Key)
    requires InRange(bs, |tbl|) && b < |tbl|
    ensures Count(DelNodes(tbl, bs, k)[b], x) ==
            if x == k then Minus(Count(tbl[b], x), Count(bs, b)) else Count(tbl[b], x)
    decreases |bs|
  {
    hide RemoveFirst;
    if bs != [] {
      DelNodesCount(tbl, bs[..|bs| - 1], k, b, x);
      CountSnoc(bs, b);
      DelNodesSnoc(tbl, bs, k);
      var t := DelNodes(tbl, bs[..|bs| - 1], k);
      RemoveFirstCount(t[bs[|bs| - 1]], k, x);
    }
    hide Count;
  }

  lemma {:induction false} AddNodesCount(tbl: Table, bs: seq<nat>, k: Key, b: nat, x: Key)
    requires InRange(bs, |tbl|) && b < |tbl|
    ensures Count(AddNodes(tbl, bs, k)[b], x) ==
            if x == k then Count(tbl[b], x) + Count(bs, b) else Count(tbl[b], x)
    decreases |bs|
  {
    if bs != [] {
      AddNodesCount(tbl, bs[..|bs| - 1], k, b, x);
      CountSnoc(bs, b);
    }
  }

  /** New nodes go to the front of their buckets. */
  lemma {:induction false} AddNodesFront(tbl: Table, bs: seq<nat>, k: Key, b: nat)
    requires InRange(bs, |tbl|) && b < |tbl|
    ensures AddNodes(tbl, bs, k)[b] == seq(Count(bs, b), _ => k) + tbl[b]
    decreases |bs|
  {
    if bs != [] {
      AddNodesFront(tbl, bs[..|bs| - 1], k, b);
      CountSnoc(bs, b);
      assert seq(Count(bs[..|bs| - 1], b) + 1, _ => k) == [k] + seq(Count(bs[..|bs| - 1], b), _ => k);
    }
  }

  /** After setting the nodes of `k`, a bucket holds as many as the ids demand plus the
      old ones the new ids did not account for. */
  lemma SetNodesCount(tbl: Table, bs: seq<nat>, k: Key, b: nat, x: Key)
    requires InRange(bs, |tbl|) && b < |tbl|
    ensures Count(SetNodes(tbl, bs, k)[b], x) ==
            if x == k then Minus(Count(tbl[b], k), Count(bs, b)) + Count(bs, b) else Count(tbl[b], x)
  {
    DelNodesCount(tbl, bs, k, b, x);
    AddNodesCount(DelNodes(tbl, bs, k), bs, k, b, x);
  }

  // ---------- what the commands keep ----------

  /** Every id of `old` hashes to a bucket that `ids` accounts for at least as often. */
  ghost predicate Covers(cfg: Config, seid: nat, ids: seq<nat>, older: seq<nat>)
    requires cfg.size > 0
  {
    forall b: nat :: Count(Buckets(cfg, seid, older), b) <= Count(Buckets(cfg, seid, ids), b)
  }

  /** EXACT CONDITION.  Installing or replacing a PDR keeps the node counts right if and
      only if the new ids cover the buckets of the ids it named before. */
  lemma SetNodesRelatedIff(cfg: Config, kind: Kind, tbl: Table, pdrs: map<Key, Pdr>, k: Key, p: Pdr)
    requires Related(cfg, kind, tbl, pdrs)
    ensures
      var bs := Buckets(cfg, k.seid, Ids(kind, p));
      Related(cfg, kind, SetNodes(tbl, bs, k), pdrs[k := p]) <==>
        (k in pdrs ==> Covers(cfg, k.seid, Ids(kind, p), Ids(kind, pdrs[k])))
  {
    hide SetNodes;
    var bs := Buckets(cfg, k.seid, Ids(kind, p));
    var tbl' := SetNodes(tbl, bs, k);
    var pdrs' := pdrs[k := p];
    forall b, x | 0 <= b < |tbl|
      ensures Count(tbl'[b], x) ==
              if x == k then Minus(Expected(cfg, kind, pdrs, b, k), Count(bs, b)) + Count(bs, b)
              else Expected(cfg, kind, pdrs, b, x)
    {
      SetNodesCount(tbl, bs, k, b, x);
      assert Count(tbl[b], x) == Expected(cfg, kind, pdrs, b, x);
    }
    if k in pdrs {
      var older := Buckets(cfg, k.seid, Ids(kind, pdrs[k]));
      if Related(cfg, kind, tbl', pdrs') {
        forall b: nat ensures Count(older, b) <= Count(bs, b) {
          if b < |tbl| {
            assert Count(tbl'[b], k) == Expected(cfg, kind, pdrs', b, k);
          } else {
            NotCounted(older, b);
          }
        }
      }
    }
  }

  lemma NotCounted(bs: seq<nat>, b: nat)
    requires b !in bs
    ensures Count(bs, b) == 0
  {}

  /** Deleting a PDR removes all of its nodes and nobody else's. */
  lemma DelNodesRelated(cfg: Config, kind: Kind, tbl: Table, pdrs: map<Key, Pdr>, k: Key)
    requires Related(cfg, kind, tbl, pdrs) && k in pdrs
    ensures Related(cfg, kind, DelNodes(tbl, Buckets(cfg, k.seid, Ids(kind, pdrs[k])), k), pdrs - {k})
  {
    hide DelNodes;
    var bs := Buckets(cfg, k.seid, Ids(kind, pdrs[k]));
    forall b, x | 0 <= b < |tbl|
      ensures Count(DelNodes(tbl, bs, k)[b], x) == Expected(cfg, kind, pdrs - {k}, b, x)
    {
      DelNodesCount(tbl, bs, k, b, x);
      assert Count(tbl[b], x) == Expected(cfg, kind, pdrs, b, x);
    }
  }

  /** Fields other than the named ids do not matter. */
  lemma RelatedFrame(cfg: Config, kind: Kind, tbl: Table, pdrs: map<Key, Pdr>, pdrs': map<Key, Pdr>)
    requires Related(cfg, kind, tbl, pdrs) && pdrs'.Keys == pdrs.Keys
    requires forall k :: k in pdrs ==> Ids(kind, pdrs'[k]) == Ids(kind, pdrs[k])
    ensures Related(cfg, kind, tbl, pdrs')
  {
    forall b, k | 0 <= b < |tbl| ensures Count(tbl[b], k) == Expected(cfg, kind, pdrs', b, k) {
      assert Count(tbl[b], k) == Expected(cfg, kind, pdrs, b, k);
    }
  }

  /** No node refers to a PDR that is not installed. */
  lemma NoDangling(cfg: Config, kind: Kind, tbl: Table, pdrs: map<Key, Pdr>, b: nat, k: Key)
    requires Related(cfg, kind, tbl, pdrs) && b < |tbl| && k in tbl[b]
    ensures k in pdrs
  {
    assert Count(tbl[b], k) == Expected(cfg, kind, pdrs, b, k);
  }

  /** A walk over the bucket of an id reaches every PDR that names it. */
  lemma WalkReaches(cfg: Config, kind: Kind, tbl: Table, pdrs: map<Key, Pdr>, k: Key, id: nat)
    requires Related(cfg, kind, tbl, pdrs) && k in pdrs && id in Ids(kind, pdrs[k])
    ensures k in tbl[Bucket(cfg, Key(k.seid, id))]
  {
    var ids := Ids(kind, pdrs[k]);
    var bs := Buckets(cfg, k.seid, ids);
    var i :| 0 <= i < |ids| && ids[i] == id;
    var b := Bucket(cfg, Key(k.seid, id));
    assert bs[i] == b && b in bs;
    assert Count(tbl[b], k) == Expected(cfg, kind, pdrs, b, k) == Count(bs, b);
  }

  /** A bucket holds a node of a PDR exactly when the PDR names an id that hashes there. */
  lemma InBucketIff(cfg: Config, kind: Kind, tbl: Table, pdrs: map<Key, Pdr>, b: nat, k: Key)
    requires Related(cfg, kind, tbl, pdrs) && k in pdrs && b < |tbl|
    ensures k in tbl[b] <==> exists i :: i in Ids(kind, pdrs[k]) && Bucket(cfg, Key(k.seid, i)) == b
  {
    var ids := Ids(kind, pdrs[k]);
    var bs := Buckets(cfg, k.seid, ids);
    assert Count(tbl[b], k) == Expected(cfg, kind, pdrs, b, k) == Count(bs, b);
    if b in bs {
      var j :| 0 <= j < |bs| && bs[j] == b;
      assert ids[j] in ids;
    }
    if i :| i in ids && Bucket(cfg, Key(k.seid, i)) == b {
      var j :| 0 <= j < |ids| && ids[j] == i;
      assert bs[j] in bs;
    }
  }

  // ---------- id lists of a PDR ----------

  /** `set_pdr_qer_ids` / `set_pdr_urr_ids` over the attributes of one command: ids
      already present are skipped, new ones are appended. */
  function Merge(ids: seq<nat>, more: seq<nat>): (r: seq<nat>)
    ensures ids <= r
    ensures forall x :: x in r <==> x in ids || x in more
    decreases |more|
  {
    if more == [] then ids
    else if more[0] in ids then Merge(ids, more[1..])
    else Merge(ids + [more[0]], more[1..])
  }

  /** In the order of the command, each id at its first occurrence. */
  lemma {:induction false} MergeConcat(ids: seq<nat>, a: seq<nat>, x: nat)
    ensures
      var r := Merge(ids, a);
      Merge(ids, a + [x]) == if x in r then r else r + [x]
    decreases |a|
  {
    var m := a + [x];
    if a == [] {
      assert m[1..] == [];
    } else {
      assert m[1..] == a[1..] + [x];
      MergeConcat(if a[0] in ids then ids else ids + [a[0]], a[1..], x);
    }
  }

  ghost predicate Distinct(ids: seq<nat>) { forall i, j :: 0 <= i < j < |ids| ==> ids[i] != ids[j] }

  /** The ids of a PDR stay distinct. */
  lemma {:induction false} MergeDistinct(ids: seq<nat>, more: seq<nat>)
    requires Distinct(ids)
    ensures Distinct(Merge(ids, more))
    decreases |more|
  {
    if more != [] {
      if more[0] in ids { MergeDistinct(ids, more[1..]); } else { MergeDistinct(ids + [more[0]], more[1..]); }
    }
  }

  lemma PrefixCovers(cfg: Config, seid: nat, ids: seq<nat>, older: seq<nat>)
    requires cfg.size > 0 && older <= ids
    ensures Covers(cfg, seid, ids, older)
  {
    var a, c := Buckets(cfg, seid, older), Buckets(cfg, seid, ids);
    assert c == a + c[|a|..];
  }

  /** With one id each, covering means the same bucket. */
  lemma SingleCovers(cfg: Config, seid: nat, id: nat, older: nat)
    requires cfg.size > 0
    ensures Covers(cfg, seid, [id], [older]) <==> Bucket(cfg, Key(seid, id)) == Bucket(cfg, Key(seid, older))
  {
    var a, c := Buckets(cfg, seid, [older]), Buckets(cfg, seid, [id]);
    assert a == [Bucket(cfg, Key(seid, older))] && c == [Bucket(cfg, Key(seid, id))];
    assert Count(a, a[0]) == 1;
    if a == c {} else { assert Count(c, a[0]) == 0; }
  }

  // ---------- the loops of the driver ----------

  /** One more turn of the removing and of the adding loop. */
  lemma NodesTurn(tbl: Table, bs: seq<nat>, k: Key, j: nat)
    requires InRange(bs, |tbl|) && j < |bs|
    ensures
      var t := DelNodes(tbl, bs[..j], k);
      DelNodes(tbl, bs[..j + 1], k) == t[bs[j] := RemoveFirst(t[bs[j]], k)]
    ensures
      var t := AddNodes(tbl, bs[..j], k);
      AddNodes(tbl, bs[..j + 1], k) == t[bs[j] := [k] + t[bs[j]]]
  {
    hide RemoveFirst;
    assert bs[..j + 1][..j] == bs[..j];
  }

  method MergeIds(ids: seq<nat>, more: seq<nat>) returns (r: seq<nat>)
    ensures r == Merge(ids, more)
  {
    r := ids;
    var i := 0;
    while i < |more|
      invariant i <= |more|
      invariant Merge(ids, more) == Merge(r, more[i..])
    {
      if more[i] !in r { r := r + [more[i]]; }
      assert more[i..][1..] == more[i + 1..];
      i := i + 1;
    }
  }

  /** The bucket scan of `del_related_*_hash`. */
  method RemoveFirstNode(l: seq<Key>, k: Key) returns (r: seq<Key>)
    ensures r == RemoveFirst(l, k)
  {
    hide FirstNode;
    var i := 0;
    while i < |l| && l[i] != k
      invariant i <= |l|
      invariant forall j :: 0 <= j < i ==> l[j] != k
    {
      i := i + 1;
    }
    assert i == FirstNode(l, k);
    r := if i < |l| then l[..i] + l[i + 1..] else l;
  }

  method DelRelated(cfg: Config, tbl: Table, seid: nat, ids: seq<nat>, k: Key) returns (r: Table)
    requires cfg.size > 0 && |tbl| == cfg.size
    ensures r == DelNodes(tbl, Buckets(cfg, seid, ids), k)
  {
    ghost var bs := Buckets(cfg, seid, ids);
    assert DelNodes(tbl, bs[..0], k) == tbl;
    hide DelNodes, RemoveFirst, Buckets;
    r := tbl;
    for j := 0 to |ids|
      invariant r == DelNodes(tbl, bs[..j], k)
    {
      var b := Bucket(cfg, Key(seid, ids[j]));
      var l := RemoveFirstNode(r[b], k);
      NodesTurn(tbl, bs, k, j);
      r := r[b := l];
    }
    assert bs[..|ids|] == bs;
  }

  method SetRelated(cfg: Config, tbl: Table, seid: nat, ids: seq<nat>, k: Key) returns (r: Table)
    requires cfg.size > 0 && |tbl| == cfg.size
    ensures r == SetNodes(tbl, Buckets(cfg, seid, ids), k)
  {
    ghost var bs := Buckets(cfg, seid, ids);
    r := DelRelated(cfg, tbl, seid, ids, k);
    ghost var cleaned := r;
    assert AddNodes(cleaned, bs[..0], k) == cleaned;
    hide AddNodes, DelNodes, Buckets;
    for j := 0 to |ids|
      invariant r == AddNodes(cleaned, bs[..j], k)
    {
      var b := Bucket(cfg, Key(seid, ids[j]));
      NodesTurn(cleaned, bs, k, j);
      r := r[b := [k] + r[b]];
    }
    assert bs[..|ids|] == bs;
  }
}
