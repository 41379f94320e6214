/** The bucketed id tables (`find_*_by_id`, `*_append`, `hlist_del` of a found entry) refine
    a finite map keyed by (seid, id), for any hash function whatsoever. */
module IdTable {
  import opened Base
  import opened Rules

  datatype Entry<+V> = Entry(key: Key, value: V)

  type Buckets<V> = seq<seq<Entry<V>>>

  function Slot(hash: Key -> nat, size: nat, k: Key): (b: nat)
    requires size > 0
    ensures b < size
  {
    hash(k) % size
  }

  /** The table holds the map: each binding once, in the bucket of its key. */
  ghost predicate Represents<V>(hash: Key -> nat, t: Buckets<V>, m: map<Key, V>) {
    && |t| > 0
    && (forall b, i, j :: 0 <= b < |t| && 0 <= i < j < |t[b]| ==> t[b][i].key != t[b][j].key)
    && (forall b, i :: 0 <= b < |t| && 0 <= i < |t[b]| ==>
          && Slot(hash, |t|, t[b][i].key) == b
          && t[b][i].key in m && m[t[b][i].key] == t[b][i].value)
    && (forall k :: k in m ==> Entry(k, m[k]) in t[Slot(hash, |t|, k)])
  }

  /** First entry with the key, as the lookup loops find it. */
  function Scan<V>(l: seq<Entry<V>>, k: Key): (i: nat)
    ensures i <= |l| && (i < |l| ==> l[i].key == k) && forall j :: 0 <= j < i ==> l[j].key != k
  {
    if l == [] || l[0].key == k then 0 else 1 + Scan(l[1..], k)
  }

  function Append<V>(hash: Key -> nat, t: Buckets<V>, k: Key, v: V): Buckets<V>
    requires |t| > 0
  {
    var b := Slot(hash, |t|, k);
    t[b := [Entry(k, v)] + t[b]]
  }

  function Delete<V>(hash: Key -> nat, t: Buckets<V>, k: Key): Buckets<V>
    requires |t| > 0
  {
    var b := Slot(hash, |t|, k);
    var i := Scan(t[b], k);
    if i < |t[b]| then t[b := t[b][..i] + t[b][i + 1..]] else t
  }

  /** A lookup finds an entry exactly when the map has the key, and then the right one. */
  lemma ScanFinds<V>(hash: Key -> nat, t: Buckets<V>, m: map<Key, V>, k: Key)
    requires Represents(hash, t, m)
    ensures
      var l := t[Slot(hash, |t|, k)];
      var i := Scan(l, k);
      (i < |l| <==> k in m) && (i < |l| ==> l[i].value == m[k])
  {
    var l := t[Slot(hash, |t|, k)];
    if k in m {
      assert Entry(k, m[k]) in l;
    }
  }

  lemma AppendRefines<V>(hash: Key -> nat, t: Buckets<V>, m: map<Key, V>, k: Key, v: V)
    requires Represents(hash, t, m) && k !in m
    ensures Represents(hash, Append(hash, t, k, v), m[k := v])
  {
    var t', m' := Append(hash, t, k, v), m[k := v];
    var b := Slot(hash, |t|, k);
    assert forall i :: 0 < i < |t'[b]| ==> t'[b][i] == t[b][i - 1];
    forall x | x in m' ensures Entry(x, m'[x]) in t'[Slot(hash, |t'|, x)] {
      var c := Slot(hash, |t|, x);
      if x == k {
        assert t'[b][0] == Entry(k, v);
      } else if c == b {
        var i :| 0 <= i < |t[b]| && t[b][i] == Entry(x, m[x]);
        assert t'[b][i + 1] == Entry(x, m[x]);
      }
    }
  }

  lemma RemainsIn<V>(l: seq<Entry<V>>, i: nat, e: Entry<V>)
    requires i < |l| && e in l && e != l[i]
    ensures e in l[..i] + l[i + 1..]
  {
    var j :| 0 <= j < |l| && l[j] == e;
    assert (l[..i] + l[i + 1..])[if j < i then j else j - 1] == e;
  }

  lemma DeleteRefines<V>(hash: Key -> nat, t: Buckets<V>, m: map<Key, V>, k: Key)
    requires Represents(hash, t, m)
    ensures Represents(hash, Delete(hash, t, k), m - {k})
  {
    ScanFinds(hash, t, m, k);
    var t', m' := Delete(hash, t, k), m - {k};
    var b := Slot(hash, |t|, k);
    var i := Scan(t[b], k);
    if i < |t[b]| {
      assert forall j :: 0 <= j < |t'[b]| ==> t'[b][j] == t[b][if j < i then j else j + 1];
      forall x | x in m' ensures Entry(x, m'[x]) in t'[Slot(hash, |t'|, x)] {
        if Slot(hash, |t|, x) == b { RemainsIn(t[b], i, Entry(x, m[x])); }
      }
    } else {
      assert m' == m;
    }
  }

  // ---------- runs of commands ----------

  datatype Command<V> = Add(key: Key, value: V) | Del(key: Key)

  /** A handler looks the key up first: adding a known or deleting an unknown one fails. */
  function Step<V>(hash: Key -> nat, t: Buckets<V>, c: Command<V>): (r: Buckets<V>)
    requires |t| > 0
    ensures |r| == |t|
  {
    var l := t[Slot(hash, |t|, c.key)];
    var known := Scan(l, c.key) < |l|;
    match c
    case Add(k, v) => if known then t else Append(hash, t, k, v)
    case Del(k) => if known then Delete(hash, t, k) else t
  }

  function MapStep<V>(m: map<Key, V>, c: Command<V>): map<Key, V> {
    match c
    case Add(k, v) => if k in m then m else m[k := v]
    case Del(k) => m - {k}
  }

  function Run<V>(hash: Key -> nat, t: Buckets<V>, cs: seq<Command<V>>): (r: Buckets<V>)
    requires |t| > 0
    ensures |r| == |t|
    decreases |cs|
  {
    if cs == [] then t else Step(hash, Run(hash, t, cs[..|cs| - 1]), cs[|cs| - 1])
  }

  function MapRun<V>(m: map<Key, V>, cs: seq<Command<V>>): map<Key, V>
    decreases |cs|
  {
    if cs == [] then m else MapStep(MapRun(m, cs[..|cs| - 1]), cs[|cs| - 1])
  }

  /** REFINEMENT.  Over every run the table represents the map that the same commands
      build, so lookups agree with it. */
  lemma {:induction false} TableRefinesMap<V>(hash: Key -> nat, t: Buckets<V>, m: map<Key, V>, cs: seq<Command<V>>)
    requires Represents(hash, t, m)
    ensures Represents(hash, Run(hash, t, cs), MapRun(m, cs))
    decreases |cs|
  {
    assert |t| > 0;
    hide Represents, Append, Delete;
    if cs != [] {
      var prefix, c := cs[..|cs| - 1], cs[|cs| - 1];
      TableRefinesMap(hash, t, m, prefix);
      var t1, m1 := Run(hash, t, prefix), MapRun(m, prefix);
      ScanFinds(hash, t1, m1, c.key);
      match c
      case Add(k, v) => if k !in m1 { AppendRefines(hash, t1, m1, k, v); }
      case Del(k) =>
        if k in m1 { DeleteRefines(hash, t1, m1, k); } else { assert m1 - {k} == m1; }
    }
  }

  // ---------- the driver's code ----------

  class HashTable<V> {
    const hash: Key -> nat
    var buckets: Buckets<V>

    constructor (hash: Key -> nat, size: nat)
      requires size > 0
      ensures this.hash == hash && Represents(hash, buckets, map[])
    {
      this.hash := hash;
      buckets := seq(size, _ => []);
    }

    /** `find_*_by_id`. */
    method Find(k: Key, ghost m: map<Key, V>) returns (r: Option<V>)
      requires Represents(hash, buckets, m)
      ensures r == if k in m then Some(m[k]) else None
    {
      ScanFinds(hash, buckets, m, k);
      var l := buckets[Slot(hash, |buckets|, k)];
      var i := 0;
      while i < |l|
        invariant i <= |l|
        invariant Scan(l, k) == i + Scan(l[i..], k)
      {
        if l[i].key == k { return Some(l[i].value); }
        assert l[i..][1..] == l[i + 1..];
        i := i + 1;
      }
      return None;
    }

    /** `*_append`. */
    method AddHead(k: Key, v: V, ghost m: map<Key, V>)
      requires Represents(hash, buckets, m) && k !in m
      modifies this
      ensures Represents(hash, buckets, m[k := v])
    {
      AppendRefines(hash, buckets, m, k, v);
      var b := Slot(hash, |buckets|, k);
      buckets := buckets[b := [Entry(k, v)] + buckets[b]];
    }

    /** Unlinking the entry of a key, if there is one. */
    method Remove(k: Key, ghost m: map<Key, V>)
      requires Represents(hash, buckets, m)
      modifies this
      ensures Represents(hash, buckets, m - {k})
    {
      DeleteRefines(hash, buckets, m, k);
      buckets := Delete(hash, buckets, k);
    }
  }
}
