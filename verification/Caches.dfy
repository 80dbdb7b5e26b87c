/** The agent's caches with a time to live — threat intelligence and CASB verdicts, certificate leaves,
    refused hosts — and why clearing them out never shows. */
module Caches {
  import opened Seqs
  import Text

  // ===== verdicts (threat_cache, casb_cache) =====

  const CACHE_MAX := 2048
  const THREAT_TTL := 300
  const CASB_TTL := 120

  /** A normalised host, and for CASB the activity. */
  datatype Key = Key(host: string, activity: string)

  datatype Verdict = Verdict(action: string, category: string, reason: string, risk: int)

  /** What a lookup found — no verdict is an answer too — and until when it holds. */
  datatype Entry = Entry(expiry: int, verdict: Option<Verdict>)

  type Cache = map<Key, Entry>

  function ThreatKey(host: string, lower: string -> string): Key { Key(Text.StripWww(lower(host)), "") }

  function CasbKey(host: string, activity: string, lower: string -> string): Key {
    Key(Text.StripWww(lower(host)), activity)
  }

  /** The first half of `check`: an entry that has not expired. */
  function Fresh(cache: Cache, key: Key, now: int): Option<Option<Verdict>> {
    if key in cache && cache[key].expiry > now then Some(cache[key].verdict) else None
  }

  /** The second half, after the lookup that began at `began`: `now` is still that time. */
  function Stored(cache: Cache, key: Key, began: int, ttl: int, verdict: Option<Verdict>): Cache {
    var more := cache[key := Entry(began + ttl, verdict)];
    if |more| > CACHE_MAX then map k | k in more && more[k].expiry > began :: more[k] else more
  }

  class VerdictCache {
    const ttl: int
    var cache: Cache

    constructor (ttl: int)
      ensures cache == map[] && this.ttl == ttl
    {
      this.ttl, cache := ttl, map[];
    }

    /** The lookup of one check: a cached answer, or none. */
    method Find(key: Key, now: int) returns (hit: Option<Option<Verdict>>)
      ensures hit == Fresh(cache, key, now)
    {
      if key in cache {
        var e := cache[key];
        if e.expiry > now {
          return Some(e.verdict);
        }
      }
      return None;
    }

    method Store(key: Key, began: int, verdict: Option<Verdict>)
      modifies this
      ensures cache == Stored(old(cache), key, began, ttl, verdict)
    {
      cache := cache[key := Entry(began + ttl, verdict)];
      if |cache| > CACHE_MAX {
        cache := map k | k in cache && cache[k].expiry > began :: cache[k];
      }
    }
  }

  /** A lookup that has begun. */
  datatype Begun = Begun(key: Key, at: int)

  /** A cache in use, beside it one that is never cleared out; lookups under way; and those done. */
  datatype World = World(
    cache: Cache, full: Cache, pending: multiset<Begun>, done: set<(Begun, Option<Verdict>)>, clock: int)

  const START := World(map[], map[], multiset{}, {}, 0)

  /** A check at some time, or a lookup that comes back; any number may be under way together. */
  datatype Move = Check(key: Key, now: int) | Comes(lookup: Begun, verdict: Option<Verdict>)

  function Next(w: World, m: Move, ttl: int): World {
    match m
    case Check(key, now) =>
      if now < w.clock then w
      else if Fresh(w.cache, key, now).Some? then w.(clock := now)
      else w.(clock := now, pending := w.pending + multiset{Begun(key, now)})
    case Comes(l, verdict) =>
      if l !in w.pending then w
      else w.(cache := Stored(w.cache, l.key, l.at, ttl, verdict),
              full := w.full[l.key := Entry(l.at + ttl, verdict)],
              pending := w.pending - multiset{l}, done := w.done + {(l, verdict)})
  }

  function Run(moves: seq<Move>, ttl: int): World {
    if moves == [] then START else Next(Run(moves[..|moves| - 1], ttl), moves[|moves| - 1], ttl)
  }

  /** A lookup for this key, done, that explains the entry. */
  ghost predicate Explained(w: World, k: Key, e: Entry, ttl: int) {
    exists at :: at <= w.clock && e.expiry == at + ttl && (Begun(k, at), e.verdict) in w.done
  }

  /** The cache holds what the full one does, and nothing that is live is missing. */
  ghost predicate Agrees(cache: Cache, full: Cache, clock: int) {
    && (forall k | k in cache :: k in full && cache[k] == full[k])
    && (forall k | k in full && full[k].expiry > clock :: k in cache)
  }

  lemma StoredAgrees(cache: Cache, full: Cache, clock: int, key: Key, began: int, ttl: int, verdict: Option<Verdict>)
    requires Agrees(cache, full, clock) && began <= clock
    ensures Agrees(Stored(cache, key, began, ttl, verdict), full[key := Entry(began + ttl, verdict)], clock)
  {
  }

  ghost predicate Inv(w: World, ttl: int) {
    && Agrees(w.cache, w.full, w.clock)
    && (forall l | l in w.pending :: l.at <= w.clock)
    && (forall k | k in w.full :: Explained(w, k, w.full[k], ttl))
  }

  lemma ExplainedLater(w: World, t: World, k: Key, e: Entry, ttl: int)
    requires Explained(w, k, e, ttl) && w.clock <= t.clock && w.done <= t.done
    ensures Explained(t, k, e, ttl)
  {
    var at :| at <= w.clock && e.expiry == at + ttl && (Begun(k, at), e.verdict) in w.done;
    assert at <= t.clock && (Begun(k, at), e.verdict) in t.done;
  }

  lemma NextKeeps(w: World, m: Move, ttl: int)
    requires Inv(w, ttl) && ttl > 0
    ensures Inv(Next(w, m, ttl), ttl)
  {
    match m
    case Check(key, now) =>
      var t := Next(w, m, ttl);
      forall k | k in t.full ensures Explained(t, k, t.full[k], ttl) {
        ExplainedLater(w, t, k, w.full[k], ttl);
      }
    case Comes(l, verdict) =>
      if l in w.pending {
        ComesKeeps(w, l, verdict, ttl);
      }
  }

  lemma ComesKeeps(w: World, l: Begun, verdict: Option<Verdict>, ttl: int)
    requires Inv(w, ttl) && ttl > 0 && l in w.pending
    ensures Inv(Next(w, Comes(l, verdict), ttl), ttl)
  {
    var t := Next(w, Comes(l, verdict), ttl);
    StoredAgrees(w.cache, w.full, w.clock, l.key, l.at, ttl, verdict);
    forall k | k in t.full ensures Explained(t, k, t.full[k], ttl) {
      if k == l.key {
        assert (Begun(k, l.at), t.full[k].verdict) in t.done;
      } else {
        ExplainedLater(w, t, k, w.full[k], ttl);
      }
    }
  }

  lemma {:induction false} RunKeeps(moves: seq<Move>, ttl: int)
    requires ttl > 0
    ensures Inv(Run(moves, ttl), ttl)
  {
    if moves != [] {
      RunKeeps(moves[..|moves| - 1], ttl);
      NextKeeps(Run(moves[..|moves| - 1], ttl), moves[|moves| - 1], ttl);
    }
  }

  /** Clearing out never shows: in any run, with any number of lookups overlapping, a check answers
      exactly as if nothing had ever been removed; and an answer from the cache was found by a lookup
      for the same key that began less than a time to live ago. */
  lemma {:induction false} PruningInvisible(moves: seq<Move>, ttl: int, key: Key, now: int)
    requires ttl > 0 && now >= Run(moves, ttl).clock
    ensures var w := Run(moves, ttl);
      && Fresh(w.cache, key, now) == Fresh(w.full, key, now)
      && (Fresh(w.cache, key, now).Some? ==>
            exists at :: now - ttl < at <= now && (Begun(key, at), Fresh(w.cache, key, now).value) in w.done)
  {
    RunKeeps(moves, ttl);
    var w := Run(moves, ttl);
    if Fresh(w.cache, key, now).Some? {
      assert Explained(w, key, w.full[key], ttl);
      var at :| at <= w.clock && w.full[key].expiry == at + ttl && (Begun(key, at), w.full[key].verdict) in w.done;
      assert now - ttl < at;
    }
  }

  /** A check begins a lookup exactly when no answer found so far is still live. */
  lemma {:induction false} LookupBegins(moves: seq<Move>, ttl: int, key: Key, now: int)
    requires ttl > 0 && now >= Run(moves, ttl).clock
    ensures var w := Run(moves, ttl);
      Next(w, Check(key, now), ttl) ==
        if key in w.full && w.full[key].expiry > now then w.(clock := now)
        else w.(clock := now, pending := w.pending + multiset{Begun(key, now)})
  {
    PruningInvisible(moves, ttl, key, now);
  }

  /** A lookup that comes back serves every check of its key until its time to live is over. */
  lemma HitsUntilExpiry(w: World, l: Begun, verdict: Option<Verdict>, ttl: int, now: int)
    requires l in w.pending && ttl > 0
    ensures Fresh(Next(w, Comes(l, verdict), ttl).cache, l.key, now) == if now < l.at + ttl then Some(verdict) else None
    ensures ttl == THREAT_TTL ==> (Fresh(Next(w, Comes(l, verdict), ttl).cache, l.key, now).Some? <==> now < l.at + 300)
    ensures ttl == CASB_TTL ==> (Fresh(Next(w, Comes(l, verdict), ttl).cache, l.key, now).Some? <==> now < l.at + 120)
  {
  }

  /** Nothing is cleared out up to 2048 entries; beyond, only what is live stays. */
  lemma ClearedOutBeyond(cache: Cache, key: Key, began: int, ttl: int, verdict: Option<Verdict>)
    ensures var all := cache[key := Entry(began + ttl, verdict)];
      var r := Stored(cache, key, began, ttl, verdict);
      && (|all| <= 2048 ==> r == all)
      && (|all| > 2048 ==> forall k :: k in r <==> k in all && all[k].expiry > began)
  {
  }

  /** Both caches in these terms: what a host is told comes from a lookup of the same normalised host —
      and, for CASB, the same activity — begun less than 300 or 120 seconds ago. */
  lemma AnswersAreRecent(moves: seq<Move>, moves': seq<Move>, host: string, activity: string,
                         lower: string -> string, now: int)
    requires now >= Run(moves, THREAT_TTL).clock && now >= Run(moves', CASB_TTL).clock
    ensures var w, key := Run(moves, THREAT_TTL), Key(Text.StripWww(lower(host)), "");
      Fresh(w.cache, key, now).Some? ==>
        exists at :: now - 300 < at <= now && (Begun(key, at), Fresh(w.cache, key, now).value) in w.done
    ensures var w, key := Run(moves', CASB_TTL), Key(Text.StripWww(lower(host)), activity);
      Fresh(w.cache, key, now).Some? ==>
        exists at :: now - 120 < at <= now && (Begun(key, at), Fresh(w.cache, key, now).value) in w.done
  {
    PruningInvisible(moves, THREAT_TTL, ThreatKey(host, lower), now);
    PruningInvisible(moves', CASB_TTL, CasbKey(host, activity, lower), now);
  }

  // ===== certificate leaves (mitm) =====

  const LEAF_REFRESH_MARGIN := 300
  const LEAF_CACHE_MAX := 2048

  datatype Leaf = Leaf(cert: string, expiry: int)

  type Leaves = map<string, Leaf>

  function Live(cache: Leaves, now: int): Leaves {
    map h | h in cache && cache[h].expiry > now :: cache[h]
  }

  /** Only live leaves stay, unchanged, as many as there is room for, and none that is evicted outlasts
      one that stays. */
  ghost predicate IsPruned(cache: Leaves, now: int, r: Leaves) {
    && (forall h | h in r :: h in cache && r[h] == cache[h] && cache[h].expiry > now)
    && |r| == Min(|Live(cache, now)|, 2048)
    && (forall e, k | e in cache && e !in r && k in r :: cache[e].expiry <= r[k].expiry)
  }

  /** Hosts in the order of their expiry. */
  ghost predicate Ordered(hosts: seq<string>, cache: Leaves) {
    && (forall i | 0 <= i < |hosts| :: hosts[i] in cache)
    && (forall i, j | 0 <= i < j < |hosts| :: hosts[i] != hosts[j] && cache[hosts[i]].expiry <= cache[hosts[j]].expiry)
  }

  /** `sort_by_key`: one more host put in its place. */
  method InsertByExpiry(hosts: seq<string>, h: string, cache: Leaves) returns (r: seq<string>)
    requires Ordered(hosts, cache) && h in cache && h !in hosts
    ensures Ordered(r, cache) && |r| == |hosts| + 1 && forall x :: x in r <==> x in hosts || x == h
  {
    var i := |hosts|;
    while i > 0 && cache[hosts[i - 1]].expiry > cache[h].expiry
      invariant 0 <= i <= |hosts|
      invariant i < |hosts| ==> cache[hosts[i]].expiry >= cache[h].expiry
    {
      i := i - 1;
    }
    InsertAt(hosts, i, h, cache);
    InsertedMembers(hosts, i, h);
    r := hosts[..i] + [h] + hosts[i..];
  }

  lemma InsertAt(hosts: seq<string>, i: nat, h: string, cache: Leaves)
    requires Ordered(hosts, cache) && h in cache && h !in hosts && i <= |hosts|
    requires i > 0 ==> cache[hosts[i - 1]].expiry <= cache[h].expiry
    requires i < |hosts| ==> cache[hosts[i]].expiry >= cache[h].expiry
    ensures Ordered(hosts[..i] + [h] + hosts[i..], cache)
  {
    var r := hosts[..i] + [h] + hosts[i..];
    forall m, n | 0 <= m < n < |r|
      ensures r[m] in cache && r[n] in cache && r[m] != r[n] && cache[r[m]].expiry <= cache[r[n]].expiry
    {
      Placed(hosts, i, h, m);
      Placed(hosts, i, h, n);
      assert n == i && i > 0 ==> cache[hosts[m]].expiry <= cache[hosts[i - 1]].expiry;
      assert m == i && i < |hosts| ==> cache[hosts[i]].expiry <= cache[hosts[n - 1]].expiry;
    }
    if |r| == 1 {
      Placed(hosts, i, h, 0);
    }
  }

  lemma Placed(hosts: seq<string>, i: nat, h: string, m: nat)
    requires i <= |hosts| && m <= |hosts|
    ensures var r := hosts[..i] + [h] + hosts[i..];
      r[m] == if m < i then hosts[m] else if m == i then h else hosts[m - 1]
  {
  }

  lemma InsertedMembers(hosts: seq<string>, i: nat, h: string)
    requires i <= |hosts|
    ensures forall x :: x in hosts[..i] + [h] + hosts[i..] <==> x in hosts || x == h
  {
    assert hosts == hosts[..i] + hosts[i..];
  }

  method HostsByExpiry(cache: Leaves) returns (hosts: seq<string>)
    ensures Ordered(hosts, cache) && |hosts| == |cache| && forall h :: h in hosts <==> h in cache
  {
    hosts := [];
    var rest := cache.Keys;
    while rest != {}
      invariant Ordered(hosts, cache) && rest <= cache.Keys && |hosts| + |rest| == |cache.Keys|
      invariant forall h :: h in hosts <==> h in cache && h !in rest
      decreases |rest|
    {
      ghost var some := AnElement(rest);
      var h :| h in rest;
      hosts := InsertByExpiry(hosts, h, cache);
      rest := rest - {h};
    }
  }

  /** `r` is `live` without the first `n` hosts. */
  ghost predicate Without(live: Leaves, hosts: seq<string>, n: nat, r: Leaves)
    requires n <= |hosts|
  {
    && |r| == |live| - n
    && (forall h :: h in r <==> h in live && h !in hosts[..n])
    && (forall h | h in r :: r[h] == live[h])
  }

  lemma OneMoreRemoved(live: Leaves, hosts: seq<string>, i: nat, r: Leaves)
    requires Ordered(hosts, live) && i < |hosts| && Without(live, hosts, i, r)
    ensures Without(live, hosts, i + 1, r - {hosts[i]})
  {
    assert hosts[..i + 1] == hosts[..i] + [hosts[i]];
    assert hosts[i] !in hosts[..i];
    WithoutOne(r, hosts[i]);
  }

  /** `take(overflow)`: the first hosts removed. */
  method RemoveFirst(live: Leaves, hosts: seq<string>, n: nat) returns (r: Leaves)
    requires Ordered(hosts, live) && n <= |hosts|
    ensures Without(live, hosts, n, r)
  {
    r := live;
    for i := 0 to n
      invariant Without(live, hosts, i, r)
    {
      OneMoreRemoved(live, hosts, i, r);
      r := r - {hosts[i]};
    }
  }

  method PruneLocked(cache: Leaves, now: int) returns (r: Leaves)
    ensures IsPruned(cache, now, r)
  {
    r := map h | h in cache && cache[h].expiry > now :: cache[h];
    assert r == Live(cache, now);
    if |r| > LEAF_CACHE_MAX {
      var live, overflow := r, |r| - LEAF_CACHE_MAX;
      var hosts := HostsByExpiry(live);
      r := RemoveFirst(live, hosts, overflow);
      EarliestGone(hosts, live, overflow);
    }
  }

  lemma WithoutOne(m: Leaves, h: string)
    requires h in m
    ensures |m - {h}| == |m| - 1
  {
    assert (m - {h}).Keys == m.Keys - {h};
    assert |m.Keys| == |m| && |(m - {h}).Keys| == |m - {h}|;
  }

  lemma EarliestGone(hosts: seq<string>, live: Leaves, n: nat)
    requires Ordered(hosts, live) && n <= |hosts|
    ensures forall e, k | e in hosts[..n] && k in hosts && k !in hosts[..n] :: live[e].expiry <= live[k].expiry
  {
    forall e, k | e in hosts[..n] && k in hosts && k !in hosts[..n] ensures live[e].expiry <= live[k].expiry {
      var i :| 0 <= i < n && hosts[i] == e;
      var j :| 0 <= j < |hosts| && hosts[j] == k;
      assert forall x | 0 <= x < n :: hosts[x] in hosts[..n];
    }
  }

  /** The end of `get_leaf`: a new leaf is kept, its expiry brought forward, and the cache pruned as of
      the time the request began. */
  method StoreLeaf(cache: Leaves, host: string, cert: string, began: int, expiresIn: nat) returns (r: Leaves)
    ensures |r| <= 2048
    ensures IsPruned(cache[host := Leaf(cert, began + if expiresIn > 300 then expiresIn - 300 else 0)], began, r)
    ensures expiresIn <= 300 ==> host !in r
  {
    var more := cache[host := Leaf(cert, began + Min0(expiresIn - LEAF_REFRESH_MARGIN))];
    r := PruneLocked(more, began);
  }

  /** `saturating_sub` stops at zero. */
  function Min0(n: int): nat { if n < 0 then 0 else n }

  // ===== hosts whose client refused inspection (mitm) =====

  /** A day, in seconds. */
  const REFUSED_FOR := 24 * 3600
  const REFUSED_MAX := 4096

  predicate RefusedRecently(refused: map<string, int>, host: string, now: int) {
    host in refused && now - refused[host] < REFUSED_FOR
  }

  function RecentRefusals(refused: map<string, int>, now: int): map<string, int> {
    map h | h in refused && now - refused[h] < REFUSED_FOR :: refused[h]
  }

  /** A refusal is reported exactly when the host was not being passed through already and there is
      room; from then on the host, and no other, is newly passed through, for a day. */
  method LearnRefused(refused: map<string, int>, host: string, now: int) returns (first: bool, r: map<string, int>)
    ensures var room := |RecentRefusals(refused, now)| < 4096;
      && first == (room && !RefusedRecently(refused, host, now))
      && forall h, t | t >= now ::
          RefusedRecently(r, h, t) <==>
            if h == host && room then t - now < 86_400 else RefusedRecently(refused, h, t)
  {
    r := map h | h in refused && now - refused[h] < REFUSED_FOR :: refused[h];
    if |r| >= REFUSED_MAX {
      return false, r;
    }
    first := host !in r;
    r := r[host := now];
  }
}
