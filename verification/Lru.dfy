/** The least-recently-used caches: `ip_lru.c`, which keeps its keys unique, and `uid_lru.c`, which
    relies on its caller for that. */
module Lru {
  import opened Wrappers

  datatype Entry<K, V> = Entry(key: K, value: V)

  /** A cache is its hash in insertion order: the oldest entry first. */
  type Cache<K, V> = seq<Entry<K, V>>

  ghost predicate UniqueKeys<K, V>(c: Cache<K, V>) {
    forall i, j | 0 <= i < j < |c| :: c[i].key != c[j].key
  }

  function IndexOf<K(==), V>(c: Cache<K, V>, k: K): (i: nat)
    ensures i <= |c|
    ensures i < |c| ==> c[i].key == k
    ensures forall j | 0 <= j < i :: c[j].key != k
  {
    if c == [] || c[0].key == k then 0 else 1 + IndexOf(c[1..], k)
  }

  predicate Has<K(==), V>(c: Cache<K, V>, k: K) {
    IndexOf(c, k) < |c|
  }

  function ValueIn<K(==), V>(c: Cache<K, V>, k: K): V
    requires Has(c, k)
  {
    c[IndexOf(c, k)].value
  }

  /** HASH_DELETE of the entry at `i`. */
  function DropAt<K, V>(c: Cache<K, V>, i: nat): Cache<K, V> {
    if i < |c| then c[..i] + c[i + 1..] else c
  }

  /** The entry of `k`, new or old, becomes the newest one, with value `v`. */
  function Renewed<K(==), V>(c: Cache<K, V>, k: K, v: V): Cache<K, V> {
    DropAt(c, IndexOf(c, k)) + [Entry(k, v)]
  }

  /** The eviction of the oldest entry from a cache that has grown over its limit. */
  function Trimmed<K, V>(c: Cache<K, V>, max: nat): Cache<K, V> {
    if |c| > max then c[1..] else c
  }

  // ---------------------------------------------------------------------------------------------
  // What a history of touches leaves in a cache
  // ---------------------------------------------------------------------------------------------

  /** Each element of a history touches an entry, or is None. */
  type History<K, V> = seq<Option<Entry<K, V>>>

  function CacheAfter<K(==), V>(max: nat, h: History<K, V>): Cache<K, V> {
    if h == [] then []
    else
      var c := CacheAfter(max, h[..|h| - 1]);
      match h[|h| - 1]
      case None => c
      case Some(e) => Trimmed(Renewed(c, e.key, e.value), max)
  }

  /** The keys touched after position `i`. */
  ghost function Since<K, V>(h: History<K, V>, i: int): set<K> {
    set j: int | 0 <= j < |h| && i < j && h[j].Some? :: h[j].value.key
  }

  /** Position `i` is the last touch of its key, and fewer than `max` other keys came after it. */
  ghost predicate Survives<K, V>(max: nat, h: History<K, V>, i: nat)
    requires i < |h|
  {
    h[i].Some? && h[i].value.key !in Since(h, i) && |Since(h, i)| < max
  }

  /** Without a limit. */
  function AllAfter<K(==), V>(h: History<K, V>): Cache<K, V> {
    if h == [] then []
    else
      var c := AllAfter(h[..|h| - 1]);
      match h[|h| - 1]
      case None => c
      case Some(e) => Renewed(c, e.key, e.value)
  }

  function Newest<K, V>(c: Cache<K, V>, max: nat): Cache<K, V> {
    if |c| > max then c[|c| - max..] else c
  }

  ghost function Keys<K, V>(c: Cache<K, V>): set<K> {
    set i | 0 <= i < |c| :: c[i].key
  }

  lemma RenewedIsUnique<K, V>(c: Cache<K, V>, k: K, v: V)
    requires UniqueKeys(c)
    ensures UniqueKeys(Renewed(c, k, v))
    ensures |Renewed(c, k, v)| == if Has(c, k) then |c| else |c| + 1
  {
  }

  lemma {:induction false} AllIsUnique<K, V>(h: History<K, V>)
    ensures UniqueKeys(AllAfter(h))
  {
    if h == [] {
    } else {
      AllIsUnique(h[..|h| - 1]);
      if h[|h| - 1].Some? {
        RenewedIsUnique(AllAfter(h[..|h| - 1]), h[|h| - 1].value.key, h[|h| - 1].value.value);
      }
    }
  }

  lemma IndexInTail<K, V>(c: Cache<K, V>, k: K, from: nat)
    requires UniqueKeys(c) && from <= |c|
    ensures IndexOf(c[from..], k) == if from <= IndexOf(c, k) then IndexOf(c, k) - from else |c| - from
  {
    var i, t := IndexOf(c, k), c[from..];
    assert forall j | 0 <= j < |t| :: t[j] == c[from + j];
    if from <= i < |c| {
      assert t[i - from].key == k;
    }
  }

  lemma DropThenSkip<K, V>(c: Cache<K, V>, i: nat, from: nat)
    requires from <= |c| && i <= |c|
    ensures var at := if from <= i then from else from - 1;
            at <= |DropAt(c, i)| && DropAt(c, i)[at..] == DropAt(c[from..], if from <= i then i - from else |c| - from)
  {
    if i < from {
      assert DropAt(c, i)[from - 1..] == c[from..];
    } else if i < |c| {
      assert DropAt(c, i)[from..] == c[from..i] + c[i + 1..];
      assert c[from..][..i - from] == c[from..i];
    }
  }

  /** The new cache from a place behind or at the place `from` of the old one. */
  lemma TailOfRenewed<K, V>(c: Cache<K, V>, k: K, v: V, from: nat)
    requires UniqueKeys(c) && from <= |c|
    ensures var at := if from <= IndexOf(c, k) then from else from - 1; var r := Renewed(c, k, v);
            0 <= at <= |r| && r[at..] == Renewed(c[from..], k, v)
  {
    IndexInTail(c, k, from);
    DropThenSkip(c, IndexOf(c, k), from);
    hide IndexOf, DropAt;
  }

  lemma SkipTwice<K, V>(c: Cache<K, V>, i: nat)
    requires i < |c|
    ensures c[i..][1..] == c[i + 1..]
  {
  }

  lemma TrimmedIsNewest<K, V>(a: Cache<K, V>, b: Cache<K, V>, max: nat)
    requires |b| <= |a| && a[|a| - |b|..] == b && |b| <= max + 1 && (|b| >= max || a == b)
    ensures Trimmed(b, max) == Newest(a, max)
  {
    if |b| == max + 1 {
      SkipTwice(a, |a| - |b|);
    }
  }

  lemma NewestStep<K, V>(c: Cache<K, V>, max: nat, k: K, v: V)
    requires UniqueKeys(c)
    ensures Trimmed(Renewed(Newest(c, max), k, v), max) == Newest(Renewed(c, k, v), max)
  {
    var n := Newest(c, max);
    hide IndexOf, DropAt, Renewed, UniqueKeys, Trimmed;
    RenewedIsUnique(c, k, v);
    if |c| > max {
      NewestIsUnique(c, max);
      RenewedIsUnique(n, k, v);
      TailOfRenewed(c, k, v, |c| - max);
      IndexInTail(c, k, |c| - max);
    }
    TrimmedIsNewest(Renewed(c, k, v), Renewed(n, k, v), max);
  }

  lemma NewestIsUnique<K, V>(c: Cache<K, V>, max: nat)
    requires UniqueKeys(c)
    ensures UniqueKeys(Newest(c, max))
  {
  }

  /** The cache holds the newest entries of what it would hold without a limit. */
  lemma {:induction false} CacheIsNewest<K, V>(max: nat, h: History<K, V>)
    ensures CacheAfter(max, h) == Newest(AllAfter(h), max)
  {
    if h == [] {
    } else {
      var p := h[..|h| - 1];
      CacheIsNewest(max, p);
      AllIsUnique(p);
      if h[|h| - 1].Some? {
        NewestStep(AllAfter(p), max, h[|h| - 1].value.key, h[|h| - 1].value.value);
      }
    }
  }

  /** Entry `e` at place `p` of `c` was last touched at `i` of `h`, and what was touched later is what
      stands behind it. */
  ghost predicate TouchedAt<K, V>(h: History<K, V>, c: Cache<K, V>, p: nat, i: nat)
    requires p < |c|
  {
    i < |h| && h[i] == Some(c[p]) && Since(h, i) == Keys(c[p + 1..])
  }

  lemma SinceNext<K, V>(h: History<K, V>, x: Option<Entry<K, V>>, i: int)
    requires i < |h|
    ensures Since(h + [x], i) == Since(h, i) + if x.Some? then {x.value.key} else {}
  {
    var h' := h + [x];
    assert h'[|h|] == x;
    assert forall j | 0 <= j < |h| :: h'[j] == h[j];
    forall k | k in Since(h, i) + if x.Some? then {x.value.key} else {}
      ensures k in Since(h', i)
    {
      if k in Since(h, i) {
        var j: int :| 0 <= j < |h| && i < j && h[j].Some? && h[j].value.key == k;
        assert h'[j].Some? && h'[j].value.key == k;
      } else {
        assert h'[|h|].value.key == k;
      }
    }
  }

  lemma KeysAround<K, V>(c: Cache<K, V>, i: nat, e: Entry<K, V>)
    requires i < |c| ==> c[i].key == e.key
    ensures Keys(DropAt(c, i) + [e]) == Keys(c) + {e.key}
  {
    var r := DropAt(c, i) + [e];
    assert r[|r| - 1] == e;
    forall k | k in Keys(c) + {e.key}
      ensures k in Keys(r)
    {
      if k == e.key {
        assert r[|r| - 1].key == k;
      } else {
        var j :| 0 <= j < |c| && c[j].key == k;
        assert r[if j < i then j else j - 1].key == k;
      }
    }
    assert forall j | 0 <= j < |r| - 1 :: r[j] == c[if j < i then j else j + 1];
  }

  lemma PlaceAfter<K, V>(c: Cache<K, V>, k: K, v: V, p: nat)
    requires p < |c| && c[p].key != k
    ensures var r := Renewed(c, k, v); var q := if p < IndexOf(c, k) then p else p - 1;
            0 <= q < |r| && r[q] == c[p]
  {
  }

  lemma KeysRenewed<K, V>(c: Cache<K, V>, k: K, v: V)
    ensures Keys(Renewed(c, k, v)) == Keys(c) + {k}
  {
    KeysAround(c, IndexOf(c, k), Entry(k, v));
    hide Keys, DropAt;
  }

  lemma KeysBehind<K, V>(c: Cache<K, V>, k: K, v: V, p: nat)
    requires UniqueKeys(c) && p < |c| && c[p].key != k
    ensures var r := Renewed(c, k, v); var q := if p < IndexOf(c, k) then p else p - 1;
            0 <= q < |r| && r[q] == c[p] && Keys(r[q + 1..]) == Keys(c[p + 1..]) + {k}
  {
    hide Keys, IndexOf, DropAt, Renewed, UniqueKeys;
    KeysRenewed(c[p + 1..], k, v);
    PlaceAfter(c, k, v, p);
    TailOfRenewed(c, k, v, p + 1);
  }

  lemma AllNext<K, V>(h: History<K, V>, x: Option<Entry<K, V>>)
    ensures AllAfter(h + [x]) == if x.Some? then Renewed(AllAfter(h), x.value.key, x.value.value) else AllAfter(h)
  {
    assert (h + [x])[..|h|] == h;
  }

  lemma TouchedNow<K, V>(h: History<K, V>, e: Entry<K, V>)
    ensures var c := AllAfter(h + [Some(e)]); |c| > 0 && TouchedAt(h + [Some(e)], c, |c| - 1, |h|)
  {
    AllNext(h, Some(e));
  }

  lemma TouchedBefore<K, V>(h: History<K, V>, x: Option<Entry<K, V>>, p: nat, i: nat) returns (q: nat)
    requires p < |AllAfter(h)| && TouchedAt(h, AllAfter(h), p, i)
    requires x.Some? ==> x.value.key != AllAfter(h)[p].key
    ensures var c := AllAfter(h + [x]); q < |c| && c[q] == AllAfter(h)[p] && TouchedAt(h + [x], c, q, i)
  {
    hide AllAfter, Keys, Since, IndexOf, Renewed, UniqueKeys;
    var c := AllAfter(h);
    q := p;
    AllNext(h, x);
    SinceNext(h, x, i);
    if x.Some? {
      AllIsUnique(h);
      KeysBehind(c, x.value.key, x.value.value, p);
      q := if p < IndexOf(c, x.value.key) then p else p - 1;
    }
  }

  /** Every touched key is in the unlimited cache, as its last touch left it. */
  lemma {:induction false} TouchedIsThere<K, V>(h: History<K, V>, j: nat) returns (p: nat, i: nat)
    requires j < |h| && h[j].Some?
    ensures p < |AllAfter(h)| && AllAfter(h)[p].key == h[j].value.key && TouchedAt(h, AllAfter(h), p, i)
    decreases |h|
  {
    var n := |h| - 1;
    var g := h[..n];
    assert h == g + [h[n]];
    if h[n].Some? && h[n].value.key == h[j].value.key {
      p, i := |AllAfter(h)| - 1, n;
      TouchedNow(g, h[n].value);
    } else {
      assert g[j] == h[j];
      p, i := TouchedIsThere(g, j);
      p := TouchedBefore(g, h[n], p, i);
    }
  }

  lemma {:induction false} EntriesWereTouched<K, V>(h: History<K, V>, p: nat) returns (j: nat)
    requires p < |AllAfter(h)|
    ensures j < |h| && h[j] == Some(AllAfter(h)[p])
    decreases |h|
  {
    var n := |h| - 1;
    var c := AllAfter(h[..n]);
    if h[n].Some? && p == |AllAfter(h)| - 1 {
      j := n;
    } else {
      var q := if h[n].None? || p < IndexOf(c, h[n].value.key) then p else p + 1;
      j := EntriesWereTouched(h[..n], q);
    }
  }

  lemma {:induction false} KeyCount<K, V>(c: Cache<K, V>)
    requires UniqueKeys(c)
    ensures |Keys(c)| == |c|
    decreases |c|
  {
    if c == [] {
    } else {
      KeyCount(c[1..]);
      assert forall i | 1 <= i < |c| :: c[i] == c[1..][i - 1];
      assert Keys(c) == {c[0].key} + Keys(c[1..]);
    }
  }

  lemma Behind<K, V>(c: Cache<K, V>, p: nat)
    requires UniqueKeys(c) && p < |c|
    ensures |Keys(c[p + 1..])| == |c| - p - 1 && c[p].key !in Keys(c[p + 1..])
  {
    KeyCount(c[p + 1..]);
  }

  lemma LastIsOne<K, V>(h: History<K, V>, i: nat, j: nat)
    requires i < |h| && j < |h| && h[i].Some? && h[j].Some? && h[i].value.key == h[j].value.key
    requires h[i].value.key !in Since(h, i) && h[j].value.key !in Since(h, j)
    ensures i == j
  {
  }

  lemma CachedIsRecent<K, V>(max: nat, h: History<K, V>, e: Entry<K, V>) returns (i: nat)
    requires e in CacheAfter(max, h)
    ensures i < |h| && h[i] == Some(e) && Survives(max, h, i)
  {
    hide Since, Keys, AllAfter, CacheAfter, Newest;
    CacheIsNewest(max, h);
    AllIsUnique(h);
    var c := AllAfter(h);
    var p := NewestPlace(c, max, e);
    var j := EntriesWereTouched(h, p);
    var p';
    p', i := TouchedIsThere(h, j);
    OnePlace(c, p, p');
    Behind(c, p);
    hide UniqueKeys;
  }

  lemma OnePlace<K, V>(c: Cache<K, V>, p: nat, q: nat)
    requires UniqueKeys(c) && p < |c| && q < |c| && c[p].key == c[q].key
    ensures p == q
  {
  }

  lemma NewestPlace<K, V>(c: Cache<K, V>, max: nat, e: Entry<K, V>) returns (p: nat)
    requires e in Newest(c, max)
    ensures p < |c| && c[p] == e && |c| - p <= max
  {
    var n := Newest(c, max);
    var q :| 0 <= q < |n| && n[q] == e;
    p := q + |c| - |n|;
  }

  lemma RecentIsCached<K, V>(max: nat, h: History<K, V>, i: nat)
    requires i < |h| && Survives(max, h, i)
    ensures h[i].value in CacheAfter(max, h)
  {
    CacheIsNewest(max, h);
    AllIsUnique(h);
    var c := AllAfter(h);
    var p, j := TouchedIsThere(h, i);
    Behind(c, p);
    LastIsOne(h, i, j);
    hide Since, Keys, AllAfter, CacheAfter;
    if |c| > max {
      assert Newest(c, max)[p - (|c| - max)] == c[p];
    }
  }

  /** For every history: an entry is in the cache exactly if its key was last touched with its value,
      and fewer than `max` other keys were touched since. */
  lemma CacheIsRecent<K, V>(max: nat, h: History<K, V>)
    ensures forall e :: e in CacheAfter(max, h) <==> exists i | 0 <= i < |h| :: h[i] == Some(e) && Survives(max, h, i)
    ensures UniqueKeys(CacheAfter(max, h)) && |CacheAfter(max, h)| <= max
  {
    CacheIsNewest(max, h);
    AllIsUnique(h);
    hide AllAfter, Survives;
    forall e | e in CacheAfter(max, h)
      ensures exists i | 0 <= i < |h| :: h[i] == Some(e) && Survives(max, h, i)
    {
      var i := CachedIsRecent(max, h, e);
    }
    forall i | 0 <= i < |h| && Survives(max, h, i)
      ensures h[i].Some? && h[i].value in CacheAfter(max, h)
    {
      SurvivorIsTouch(max, h, i);
      RecentIsCached(max, h, i);
    }
  }

  lemma SurvivorIsTouch<K, V>(max: nat, h: History<K, V>, i: nat)
    requires i < |h| && Survives(max, h, i)
    ensures h[i].Some?
  {
  }

  // ---------------------------------------------------------------------------------------------
  // ip_lru.c
  // ---------------------------------------------------------------------------------------------

  datatype Event<K, V> = Add(key: K, value: V) | Find(key: K)

  function Found<K(==), V>(c: Cache<K, V>, k: K): Cache<K, V> {
    if Has(c, k) then Renewed(c, k, ValueIn(c, k)) else c
  }

  function IpStep<K(==), V>(max: nat, c: Cache<K, V>, ev: Event<K, V>): Cache<K, V> {
    match ev
    case Find(k) => Found(c, k)
    case Add(k, v) => if Has(c, k) then Renewed(c, k, v) else Trimmed(c + [Entry(k, v)], max)
  }

  function IpAfter<K(==), V>(max: nat, evs: seq<Event<K, V>>): Cache<K, V> {
    if evs == [] then [] else IpStep(max, IpAfter(max, evs[..|evs| - 1]), evs[|evs| - 1])
  }

  /** The calls that touch an entry: every add, and every find that hits. */
  predicate IsTouch<K(==), V>(max: nat, evs: seq<Event<K, V>>, i: nat)
    requires i < |evs|
  {
    evs[i].Add? || Has(IpAfter(max, evs[..i]), evs[i].key)
  }

  ghost function TouchedSince<K, V>(max: nat, evs: seq<Event<K, V>>, i: int): set<K> {
    set j: nat | i < j < |evs| && IsTouch(max, evs, j) :: evs[j].key
  }

  ghost predicate AddedAt<K, V>(evs: seq<Event<K, V>>, k: K, v: V, a: nat) {
    a < |evs| && evs[a] == Add(k, v) && forall b | a < b < |evs| :: evs[b].Add? ==> evs[b].key != k
  }

  /** `v` is the value that `k` was last added with. */
  ghost predicate LastAdded<K, V>(evs: seq<Event<K, V>>, k: K, v: V) {
    exists a :: AddedAt(evs, k, v, a)
  }

  function HistoryOf<K(==), V>(max: nat, evs: seq<Event<K, V>>): (h: History<K, V>)
    ensures |h| == |evs|
  {
    if evs == [] then []
    else
      var p, ev := evs[..|evs| - 1], evs[|evs| - 1];
      HistoryOf(max, p) +
      [if ev.Add? then Some(Entry(ev.key, ev.value))
       else if Has(IpAfter(max, p), ev.key) then Some(Entry(ev.key, ValueIn(IpAfter(max, p), ev.key)))
       else None]
  }

  lemma {:induction false} IpIsCache<K, V>(max: nat, evs: seq<Event<K, V>>)
    ensures IpAfter(max, evs) == CacheAfter(max, HistoryOf(max, evs))
    ensures UniqueKeys(IpAfter(max, evs)) && |IpAfter(max, evs)| <= max
    decreases |evs|
  {
    CacheIsRecent(max, HistoryOf(max, evs));
    if evs == [] {
    } else {
      var p, ev := evs[..|evs| - 1], evs[|evs| - 1];
      IpIsCache(max, p);
      assert HistoryOf(max, evs)[..|p|] == HistoryOf(max, p);
      var c := IpAfter(max, p);
      if Has(c, ev.key) {
        RenewedIsUnique(c, ev.key, if ev.Add? then ev.value else ValueIn(c, ev.key));
      }
      hide UniqueKeys, HistoryOf, Survives;
    }
  }

  lemma {:induction false} HistoryAt<K, V>(max: nat, evs: seq<Event<K, V>>, i: nat)
    requires i < |evs|
    ensures var h := HistoryOf(max, evs);
            && (h[i].Some? <==> IsTouch(max, evs, i)) && (h[i].Some? ==> h[i].value.key == evs[i].key)
            && (evs[i].Add? ==> h[i] == Some(Entry(evs[i].key, evs[i].value)))
            && (evs[i].Find? && h[i].Some? ==> h[i].value in IpAfter(max, evs[..i]))
    decreases |evs|
  {
    if i < |evs| - 1 {
      HistoryAt(max, evs[..|evs| - 1], i);
      assert evs[..|evs| - 1][..i] == evs[..i];
    }
  }

  lemma TouchesAreHistory<K, V>(max: nat, evs: seq<Event<K, V>>, i: int)
    ensures TouchedSince(max, evs, i) == Since(HistoryOf(max, evs), i)
  {
    var h := HistoryOf(max, evs);
    forall j | 0 <= j < |evs|
      ensures (h[j].Some? <==> IsTouch(max, evs, j)) && (h[j].Some? ==> h[j].value.key == evs[j].key)
    {
      HistoryAt(max, evs, j);
    }
    hide IsTouch, HistoryOf;
  }

  lemma NoAddSince<K, V>(max: nat, evs: seq<Event<K, V>>, i: int, k: K)
    requires k !in TouchedSince(max, evs, i)
    ensures forall b: nat | i < b < |evs| && evs[b].Add? :: evs[b].key != k
  {
    forall b: nat | i < b < |evs| && evs[b].Add?
      ensures evs[b].key != k
    {
      assert IsTouch(max, evs, b);
    }
  }

  lemma AddedEarlier<K, V>(max: nat, evs: seq<Event<K, V>>, i: nat, k: K, v: V)
    requires i < |evs| && evs[i].Find? && k !in TouchedSince(max, evs, i) && LastAdded(evs[..i], k, v)
    ensures LastAdded(evs, k, v)
  {
    NoAddSince(max, evs, i, k);
    var g := evs[..i];
    var a: nat :| AddedAt(g, k, v, a);
    assert forall b: nat | a < b < i :: g[b] == evs[b];
    assert AddedAt(evs, k, v, a);
  }

  /** If `i` is the last touch of its key, the value it left is the one last added. */
  lemma {:induction false} ValueWasAdded<K, V>(max: nat, evs: seq<Event<K, V>>, i: nat)
    requires i < |evs| && IsTouch(max, evs, i) && evs[i].key !in TouchedSince(max, evs, i)
    ensures HistoryOf(max, evs)[i].Some? && LastAdded(evs, evs[i].key, HistoryOf(max, evs)[i].value.value)
    decreases i
  {
    var k := evs[i].key;
    HistoryAt(max, evs, i);
    var e := HistoryOf(max, evs)[i].value;
    if evs[i].Add? {
      NoAddSince(max, evs, i, k);
      assert AddedAt(evs, k, e.value, i);
    } else {
      var g := evs[..i];
      IpIsCache(max, g);
      var j := CachedIsRecent(max, HistoryOf(max, g), e);
      TouchesAreHistory(max, g, j);
      HistoryAt(max, g, j);
      hide TouchedSince, HistoryOf, IsTouch, LastAdded, IpAfter, CacheAfter, Since, UniqueKeys;
      ValueWasAdded(max, g, j);
      AddedEarlier(max, evs, i, k, e.value);
    }
  }

  /** Position `i` is the last touch of `k`, and fewer than `max` other keys were touched since. */
  ghost predicate RecentAt<K, V>(max: nat, evs: seq<Event<K, V>>, k: K, i: nat)
    requires i < |evs|
  {
    IsTouch(max, evs, i) && evs[i].key == k && k !in TouchedSince(max, evs, i) && |TouchedSince(max, evs, i)| < max
  }

  lemma RecentIsSurvivor<K, V>(max: nat, evs: seq<Event<K, V>>, k: K, i: nat)
    requires i < |evs|
    ensures var h := HistoryOf(max, evs);
            RecentAt(max, evs, k, i) <==> Survives(max, h, i) && h[i].value.key == k
    ensures RecentAt(max, evs, k, i) ==> LastAdded(evs, k, HistoryOf(max, evs)[i].value.value)
  {
    TouchesAreHistory(max, evs, i);
    HistoryAt(max, evs, i);
    if RecentAt(max, evs, k, i) {
      ValueWasAdded(max, evs, i);
    }
    hide TouchedSince, HistoryOf, IsTouch, LastAdded, IpAfter, Since;
  }

  lemma LastAddedIsOne<K, V>(evs: seq<Event<K, V>>, k: K, v: V, w: V)
    requires LastAdded(evs, k, v) && LastAdded(evs, k, w)
    ensures v == w
  {
    var a: nat, b: nat :| AddedAt(evs, k, v, a) && AddedAt(evs, k, w, b);
    assert a == b;
  }

  /** The contents of the cache in terms of the calls made so far: `k` is present with `v` exactly if
      `v` is the value last added for it and fewer than `max` other keys were added or hit since `k`
      last was. */
  lemma IpCacheContents<K, V>(max: nat, evs: seq<Event<K, V>>, k: K, v: V)
    ensures Entry(k, v) in IpAfter(max, evs) <==>
            LastAdded(evs, k, v) && exists i | 0 <= i < |evs| :: RecentAt(max, evs, k, i)
    ensures UniqueKeys(IpAfter(max, evs)) && |IpAfter(max, evs)| <= max
  {
    IpIsCache(max, evs);
    hide LastAdded, RecentAt, Survives, UniqueKeys, HistoryOf, IpAfter, CacheAfter;
    var h := HistoryOf(max, evs);
    if Entry(k, v) in IpAfter(max, evs) {
      var i := CachedIsRecent(max, h, Entry(k, v));
      RecentIsSurvivor(max, evs, k, i);
    }
    if LastAdded(evs, k, v) && exists i | 0 <= i < |evs| :: RecentAt(max, evs, k, i) {
      var i: nat :| i < |evs| && RecentAt(max, evs, k, i);
      RecentIsSurvivor(max, evs, k, i);
      SurvivorIsTouch(max, h, i);
      RecentIsCached(max, h, i);
      LastAddedIsOne(evs, k, v, h[i].value.value);
    }
  }

  // ---------------------------------------------------------------------------------------------
  // uid_lru.c and its caller
  // ---------------------------------------------------------------------------------------------

  const NOT_FOUND := -2

  /** `uid_lru_add` does not look for an entry with the same key. */
  function UidAdded<K>(max: nat, c: Cache<K, int>, k: K, uid: int): Cache<K, int> {
    Trimmed(c + [Entry(k, uid)], max)
  }

  /** Adding keeps the keys unique exactly if the key is not there, or is the one to be evicted. */
  lemma AddKeepsUnique<K>(max: nat, c: Cache<K, int>, k: K, uid: int)
    requires UniqueKeys(c)
    ensures UniqueKeys(UidAdded(max, c, k, uid)) <==> !Has(c, k) || (|c| >= max && IndexOf(c, k) == 0)
  {
    var r := UidAdded(max, c, k, uid);
    if Has(c, k) && !(|c| >= max && IndexOf(c, k) == 0) {
      var i := if |c| >= max then IndexOf(c, k) - 1 else IndexOf(c, k);
      assert r[i].key == k && r[|r| - 1].key == k;
    }
  }

  function UidIn<K(==)>(c: Cache<K, int>, k: K): int {
    if Has(c, k) then ValueIn(c, k) else NOT_FOUND
  }

  /** A packet of flow `key` needs its uid; `resolved` is what the slow way would answer. */
  datatype Lookup<K> = Lookup(key: K, resolved: int)

  function UidStep<K(==)>(max: nat, c: Cache<K, int>, l: Lookup<K>): Cache<K, int> {
    if UidIn(c, l.key) == NOT_FOUND then UidAdded(max, Found(c, l.key), l.key, l.resolved) else Found(c, l.key)
  }

  function UidAfter<K(==)>(max: nat, ls: seq<Lookup<K>>): Cache<K, int> {
    if ls == [] then [] else UidStep(max, UidAfter(max, ls[..|ls| - 1]), ls[|ls| - 1])
  }

  /** The uid that the caller gets for lookup `i`. */
  function Answer<K(==)>(max: nat, ls: seq<Lookup<K>>, i: nat): int
    requires i < |ls|
  {
    var uid := UidIn(UidAfter(max, ls[..i]), ls[i].key);
    if uid == NOT_FOUND then ls[i].resolved else uid
  }

  /** A resolver that answers with the value reserved for misses makes the caller add a second entry. */
  lemma SentinelDuplicates()
    ensures UidAfter(2, [Lookup(7, NOT_FOUND), Lookup(7, NOT_FOUND)]) == [Entry(7, NOT_FOUND), Entry(7, NOT_FOUND)]
  {
    var l, e := Lookup(7, NOT_FOUND), Entry(7, NOT_FOUND);
    assert [l, l][..1] == [l] && [l][..0] == [];
    assert UidAfter(2, [l]) == UidStep(2, [], l) == [e];
    assert IndexOf([e], 7) == 0;
    assert Found([e], 7) == [e];
  }

  function UidHistory<K(==)>(max: nat, ls: seq<Lookup<K>>): (h: History<K, int>)
    ensures |h| == |ls|
  {
    if ls == [] then []
    else UidHistory(max, ls[..|ls| - 1]) + [Some(Entry(ls[|ls| - 1].key, Answer(max, ls, |ls| - 1)))]
  }

  lemma {:induction false} UidHistoryAt<K>(max: nat, ls: seq<Lookup<K>>, i: nat)
    requires i < |ls|
    ensures UidHistory(max, ls)[i] == Some(Entry(ls[i].key, Answer(max, ls, i)))
    decreases |ls|
  {
    if i < |ls| - 1 {
      UidHistoryAt(max, ls[..|ls| - 1], i);
      assert ls[..|ls| - 1][..i] == ls[..i];
    }
  }

  ghost predicate NoSentinel<K>(c: Cache<K, int>) {
    forall i | 0 <= i < |c| :: c[i].value != NOT_FOUND
  }

  /** With unique keys and no reserved answer, a lookup is a touch. */
  lemma LookupIsTouch<K>(max: nat, c: Cache<K, int>, l: Lookup<K>)
    requires UniqueKeys(c) && |c| <= max && NoSentinel(c) && l.resolved != NOT_FOUND
    ensures var uid := if UidIn(c, l.key) == NOT_FOUND then l.resolved else UidIn(c, l.key);
            UidStep(max, c, l) == Trimmed(Renewed(c, l.key, uid), max)
    ensures NoSentinel(UidStep(max, c, l))
  {
    if Has(c, l.key) {
      RenewedIsUnique(c, l.key, ValueIn(c, l.key));
    }
    hide UniqueKeys;
  }

  lemma {:induction false} UidIsCache<K>(max: nat, ls: seq<Lookup<K>>)
    requires forall i | 0 <= i < |ls| :: ls[i].resolved != NOT_FOUND
    ensures UidAfter(max, ls) == CacheAfter(max, UidHistory(max, ls)) && NoSentinel(UidAfter(max, ls))
    decreases |ls|
  {
    if ls == [] {
    } else {
      var n := |ls| - 1;
      var h := UidHistory(max, ls[..n]);
      UidIsCache(max, ls[..n]);
      CacheIsRecent(max, h);
      assert UidHistory(max, ls)[..n] == h;
      LookupIsTouch(max, UidAfter(max, ls[..n]), ls[n]);
      hide UniqueKeys, UidHistory, Survives, UidStep, NoSentinel, Renewed, Trimmed;
    }
  }

  /** The flows looked up after position `i`. */
  ghost function LookedUpSince<K>(ls: seq<Lookup<K>>, i: int): set<K> {
    set j: int | 0 <= j < |ls| && i < j :: ls[j].key
  }

  lemma UidSurvives<K>(max: nat, ls: seq<Lookup<K>>, i: nat)
    requires i < |ls|
    ensures var h := UidHistory(max, ls);
            && h[i] == Some(Entry(ls[i].key, Answer(max, ls, i)))
            && (Survives(max, h, i) <==> ls[i].key !in LookedUpSince(ls, i) && |LookedUpSince(ls, i)| < max)
  {
    var h := UidHistory(max, ls);
    forall j | 0 <= j < |ls|
      ensures h[j] == Some(Entry(ls[j].key, Answer(max, ls, j)))
    {
      UidHistoryAt(max, ls, j);
    }
    hide UidHistory, Answer, UidAfter;
    assert Since(h, i) == LookedUpSince(ls, i);
  }

  /** Lookup `i` is the last one of `k`, and fewer than `max` other flows were looked up since. */
  ghost predicate Recent<K>(max: nat, ls: seq<Lookup<K>>, k: K, i: nat)
    requires i < |ls|
  {
    ls[i].key == k && k !in LookedUpSince(ls, i) && |LookedUpSince(ls, i)| < max
  }

  lemma CachedAnswers<K>(max: nat, ls: seq<Lookup<K>>, k: K, uid: int)
    requires forall i | 0 <= i < |ls| :: ls[i].resolved != NOT_FOUND
    ensures Entry(k, uid) in UidAfter(max, ls) <==>
            exists i | 0 <= i < |ls| :: Recent(max, ls, k, i) && Answer(max, ls, i) == uid
    ensures UniqueKeys(UidAfter(max, ls)) && |UidAfter(max, ls)| <= max
  {
    UidIsCache(max, ls);
    var h := UidHistory(max, ls);
    CacheIsRecent(max, h);
    hide UidHistory, Answer, UidAfter, CacheAfter, UniqueKeys, Since, LookedUpSince, Survives;
    forall i | 0 <= i < |ls|
      ensures h[i] == Some(Entry(ls[i].key, Answer(max, ls, i)))
      ensures Survives(max, h, i) <==> ls[i].key !in LookedUpSince(ls, i) && |LookedUpSince(ls, i)| < max
    {
      UidSurvives(max, ls, i);
    }
  }

  /** Lookup `i` has to ask the resolver: no earlier one of its flow is recent enough. */
  ghost predicate Missed<K>(max: nat, ls: seq<Lookup<K>>, i: nat)
    requires i < |ls|
  {
    forall j | 0 <= j < i :: !Recent(max, ls[..i], ls[i].key, j)
  }

  /** Lookup `m` is the last one of the flow of `i`, up to `i`, that had to ask the resolver. */
  ghost predicate AnsweredAt<K>(max: nat, ls: seq<Lookup<K>>, i: nat, m: nat)
    requires i < |ls|
  {
    && m <= i && ls[m].key == ls[i].key && Missed(max, ls, m)
    && forall j | m < j <= i && ls[j].key == ls[i].key :: !Missed(max, ls, j)
  }

  lemma MissIsResolved<K>(max: nat, ls: seq<Lookup<K>>, i: nat)
    requires i < |ls| && Missed(max, ls, i) && forall j | 0 <= j < |ls| :: ls[j].resolved != NOT_FOUND
    ensures Answer(max, ls, i) == ls[i].resolved
  {
    var g, k := ls[..i], ls[i].key;
    var c := UidAfter(max, g);
    hide UidAfter, Recent;
    if Has(c, k) {
      assert Entry(k, ValueIn(c, k)) in c;
      CachedAnswers(max, g, k, ValueIn(c, k));
    }
  }

  lemma HitIsRepeated<K>(max: nat, ls: seq<Lookup<K>>, i: nat, j: nat)
    requires i < |ls| && j < i && Recent(max, ls[..i], ls[i].key, j)
    requires forall l | 0 <= l < |ls| :: ls[l].resolved != NOT_FOUND
    ensures Answer(max, ls, i) == Answer(max, ls, j)
  {
    var g, k := ls[..i], ls[i].key;
    var c := UidAfter(max, g);
    assert g[..j] == ls[..j];
    assert Answer(max, g, j) == Answer(max, ls, j);
    CachedAnswers(max, g, k, Answer(max, g, j));
    UidIsCache(max, g);
    hide UidAfter, Recent;
    var p :| 0 <= p < |c| && c[p] == Entry(k, Answer(max, g, j));
    assert IndexOf(c, k) == p;
  }

  /** The caller is told what the resolver answered at the last lookup of the flow that had to ask. */
  lemma {:induction false} AnswerIsResolved<K>(max: nat, ls: seq<Lookup<K>>, i: nat) returns (m: nat)
    requires i < |ls| && forall j | 0 <= j < |ls| :: ls[j].resolved != NOT_FOUND
    ensures AnsweredAt(max, ls, i, m) && Answer(max, ls, i) == ls[m].resolved
    decreases i
  {
    hide Answer, Recent, AnsweredAt;
    if Missed(max, ls, i) {
      AnsweredItself(max, ls, i);
      MissIsResolved(max, ls, i);
      m := i;
    } else {
      var j: nat :| j < i && Recent(max, ls[..i], ls[i].key, j);
      HitIsRepeated(max, ls, i, j);
      m := AnswerIsResolved(max, ls, j);
      AnsweredEarlier(max, ls, i, j, m);
    }
  }

  lemma AnsweredEarlier<K>(max: nat, ls: seq<Lookup<K>>, i: nat, j: nat, m: nat)
    requires i < |ls| && j < i && Recent(max, ls[..i], ls[i].key, j) && !Missed(max, ls, i) && AnsweredAt(max, ls, j, m)
    ensures AnsweredAt(max, ls, i, m)
  {
    NoneSince(ls, i, j);
    hide Missed, LookedUpSince;
  }

  lemma AnsweredItself<K>(max: nat, ls: seq<Lookup<K>>, i: nat)
    requires i < |ls| && Missed(max, ls, i)
    ensures AnsweredAt(max, ls, i, i)
  {
    hide Missed;
  }

  lemma NoneSince<K>(ls: seq<Lookup<K>>, i: nat, j: nat)
    requires i < |ls| && j < i && ls[i].key !in LookedUpSince(ls[..i], j)
    ensures forall l | j < l < i :: ls[l].key != ls[i].key
  {
    var g := ls[..i];
    forall l | j < l < i
      ensures ls[l].key != ls[i].key
    {
      assert g[l].key in LookedUpSince(g, j);
    }
  }

  /** What the cache holds in terms of the lookups alone: `k` has the answer of the resolver at the last
      lookup that had to ask it, as long as fewer than `max` other flows were looked up since the last
      lookup of `k`. */
  lemma UidCacheContents<K>(max: nat, ls: seq<Lookup<K>>, k: K, uid: int)
    requires forall i | 0 <= i < |ls| :: ls[i].resolved != NOT_FOUND
    ensures Entry(k, uid) in UidAfter(max, ls) <==>
            exists i, m | 0 <= m <= i < |ls| ::
              Recent(max, ls, k, i) && AnsweredAt(max, ls, i, m) && ls[m].resolved == uid
    ensures UniqueKeys(UidAfter(max, ls)) && |UidAfter(max, ls)| <= max
  {
    hide Recent, Answer, UidAfter, UniqueKeys, AnsweredAt;
    CachedAnswers(max, ls, k, uid);
    if Entry(k, uid) in UidAfter(max, ls) {
      var i: nat :| i < |ls| && Recent(max, ls, k, i) && Answer(max, ls, i) == uid;
      var m := AnswerIsResolved(max, ls, i);
      AskedBefore(max, ls, i, m);
    }
    forall i, m | 0 <= m <= i < |ls| && Recent(max, ls, k, i) && AnsweredAt(max, ls, i, m) && ls[m].resolved == uid
      ensures Answer(max, ls, i) == uid
    {
      var m' := AnswerIsResolved(max, ls, i);
      AskedOnce(max, ls, i, m, m');
    }
  }

  lemma AskedBefore<K>(max: nat, ls: seq<Lookup<K>>, i: nat, m: nat)
    requires i < |ls| && AnsweredAt(max, ls, i, m)
    ensures m <= i
  {
  }

  lemma AskedOnce<K>(max: nat, ls: seq<Lookup<K>>, i: nat, m: nat, n: nat)
    requires i < |ls| && AnsweredAt(max, ls, i, m) && AnsweredAt(max, ls, i, n)
    ensures m == n
  {
    hide Missed;
  }

  // ---------------------------------------------------------------------------------------------
  // The caches as they are updated in place
  // ---------------------------------------------------------------------------------------------

  class IpLru<K(==), V> {
    const maxSize: nat
    var cache: Cache<K, V>

    constructor (maxSize: nat)
      ensures this.maxSize == maxSize && cache == []
    {
      this.maxSize := maxSize;
      cache := [];
    }

    method FindEntry(k: K) returns (hit: bool)
      modifies this
      ensures cache == Found(old(cache), k)
      ensures hit == Has(old(cache), k)
      ensures hit ==> cache != [] && cache[|cache| - 1] == Entry(k, ValueIn(old(cache), k))
    {
      var i := IndexOf(cache, k);
      hit := i < |cache|;
      if hit {
        var entry := cache[i];
        cache := DropAt(cache, i);
        cache := cache + [entry];
      }
    }

    method Add(k: K, v: V)
      modifies this
      ensures cache == IpStep(maxSize, old(cache), Event.Add(k, v))
    {
      var hit := FindEntry(k);
      if hit {
        cache := cache[|cache| - 1 := Entry(k, v)];
        return;
      }
      cache := cache + [Entry(k, v)];
      if |cache| > maxSize {
        cache := cache[1..];
      }
    }

    method Find(k: K) returns (v: Option<V>)
      modifies this
      ensures cache == IpStep(maxSize, old(cache), Event.Find(k))
      ensures v == if Has(old(cache), k) then Some(ValueIn(old(cache), k)) else None
    {
      var hit := FindEntry(k);
      v := if hit then Some(cache[|cache| - 1].value) else None;
    }
  }

  class UidLru<K(==)> {
    const maxSize: nat
    var cache: Cache<K, int>

    constructor (maxSize: nat)
      ensures this.maxSize == maxSize && cache == []
    {
      this.maxSize := maxSize;
      cache := [];
    }

    method Find(k: K) returns (uid: int)
      modifies this
      ensures cache == Found(old(cache), k) && uid == UidIn(old(cache), k)
    {
      var i := IndexOf(cache, k);
      uid := NOT_FOUND;
      if i < |cache| {
        var entry := cache[i];
        uid := entry.value;
        cache := DropAt(cache, i);
        cache := cache + [entry];
      }
    }

    method Add(k: K, uid: int)
      modifies this
      ensures cache == UidAdded(maxSize, old(cache), k, uid)
    {
      cache := cache + [Entry(k, uid)];
      if |cache| > maxSize {
        cache := cache[1..];
      }
    }

    /** How the packets of a capture get their uid. */
    method Resolve(l: Lookup<K>) returns (uid: int)
      modifies this
      ensures cache == UidStep(maxSize, old(cache), l)
      ensures uid == if UidIn(old(cache), l.key) == NOT_FOUND then l.resolved else UidIn(old(cache), l.key)
    {
      uid := Find(l.key);
      if uid == NOT_FOUND {
        uid := l.resolved;
        Add(l.key, uid);
      }
    }
  }
}
