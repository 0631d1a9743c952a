/** The tiered cache: several stores behind one another, read as one expiring map. */
module TieredCache {
  import opened Basics

  datatype RawEntry = RawEntry(value: string, expiresAt: Option<int>)

  type Tier = map<string, RawEntry>

  predicate Expired(e: RawEntry, now: int) {
    e.expiresAt.Some? && e.expiresAt.value <= now
  }

  function ExpiresAt(ttl: Option<int>, now: int): Option<int> {
    if ttl.None? then None else Some(now + ttl.value)
  }

  /* ---------- one expiring map ---------- */

  function Live(t: Tier, key: string, now: int): Option<RawEntry> {
    if key in t && !Expired(t[key], now) then Some(t[key]) else None
  }

  function ValueOf(e: Option<RawEntry>): Option<string> {
    if e.None? then None else Some(e.value.value)
  }

  /* ---------- filling the tiers above a hit ---------- */

  /** `Math.max(1, remaining)` of whole milliseconds, or no limit. */
  function BackfillTtl(e: RawEntry, now: int): Option<int> {
    if e.expiresAt.None? then None
    else
      var remaining := e.expiresAt.value - now;
      Some(if remaining < 1 then 1 else remaining)
  }

  /** A copy made at `now` expires with the original exactly while the original is alive; made later, the
      copy outlives it by up to the millisecond that is always granted. */
  lemma CopyExpiresWithOriginalExactlyWhen(e: RawEntry, now: int)
    ensures ExpiresAt(BackfillTtl(e, now), now) == e.expiresAt <==> !Expired(e, now)
  {
  }

  /* ---------- a tier against the map it stands for ---------- */

  /** Whatever the tier still shows, now or later, is what the map holds. */
  ghost predicate Shows(t: Tier, flat: Tier, now: int) {
    forall k :: k in t ==> Expired(t[k], now) || (k in flat && flat[k] == t[k])
  }

  /** Whatever is alive in the map is in the tier. */
  ghost predicate Covers(t: Tier, flat: Tier, now: int) {
    forall k :: k in flat ==> Expired(flat[k], now) || (k in t && t[k] == flat[k])
  }

  ghost predicate Represents(tiers: seq<Tier>, flat: Tier, now: int) {
    && |tiers| > 0
    && (forall i :: 0 <= i < |tiers| ==> Shows(tiers[i], flat, now))
    && Covers(tiers[|tiers| - 1], flat, now)
  }

  /** Nothing but expiry happens by the passing of time. */
  lemma TimeKeepsRepresents(tiers: seq<Tier>, flat: Tier, now: int, later: int)
    requires Represents(tiers, flat, now) && now <= later
    ensures Represents(tiers, flat, later)
  {
  }

  lemma ShownIsLive(t: Tier, flat: Tier, key: string, now: int)
    requires Shows(t, flat, now) && Live(t, key, now).Some?
    ensures Live(t, key, now) == Live(flat, key, now)
  {
  }

  lemma CoveredIsLive(t: Tier, flat: Tier, key: string, now: int)
    requires Shows(t, flat, now) && Covers(t, flat, now)
    ensures Live(t, key, now) == Live(flat, key, now)
  {
  }

  /** One tier written like the map. */
  lemma PutKeeps(t: Tier, flat: Tier, key: string, e: RawEntry, now: int)
    requires Shows(t, flat, now)
    ensures Shows(t[key := e], flat[key := e], now)
    ensures Covers(t, flat, now) ==> Covers(t[key := e], flat[key := e], now)
  {
  }

  lemma RemoveKeeps(t: Tier, flat: Tier, key: string, now: int)
    requires Shows(t, flat, now)
    ensures Shows(t - {key}, flat - {key}, now)
    ensures Covers(t, flat, now) ==> Covers(t - {key}, flat - {key}, now)
  {
  }

  function WithoutPrefix(t: Tier, prefix: string): Tier {
    map k | k in t && !(prefix <= k) :: t[k]
  }

  lemma PrefixKeeps(t: Tier, flat: Tier, prefix: string, now: int)
    requires Shows(t, flat, now)
    ensures Shows(WithoutPrefix(t, prefix), WithoutPrefix(flat, prefix), now)
    ensures Covers(t, flat, now) ==> Covers(WithoutPrefix(t, prefix), WithoutPrefix(flat, prefix), now)
  {
  }

  class Cache {
    var stores: seq<Tier>
    const defaultTtl: Option<int>

    /** The map the tiers stand for, and the latest clock value seen. */
    ghost var flat: Tier
    ghost var clock: int

    ghost predicate Valid()
      reads this
    {
      Represents(stores, flat, clock)
    }

    constructor (tiers: nat, defaultTtl: Option<int>, now: int)
      requires tiers > 0
      ensures Valid() && flat == map[] && clock == now && |stores| == tiers && this.defaultTtl == defaultTtl
    {
      stores := seq(tiers, _ => map[]);
      this.defaultTtl := defaultTtl;
      flat := map[];
      clock := now;
    }

    /** `store.get`: an expired entry is removed on the way. */
    method StoreGet(tier: nat, key: string, now: int) returns (e: Option<RawEntry>)
      requires Valid() && clock == now && tier < |stores|
      modifies this`stores
      ensures Valid() && |stores| == |old(stores)|
      ensures e == Live(old(stores)[tier], key, now)
      ensures forall i :: 0 <= i < |stores| && i != tier ==> stores[i] == old(stores)[i]
      ensures Live(stores[tier], key, now) == e
    {
      var t := stores[tier];
      if key !in t {
        return None;
      }
      if Expired(t[key], now) {
        stores := stores[tier := t - {key}];
        assert Shows(t, flat, now);
        assert Shows(t - {key}, flat, now);
        assert Represents(stores, flat, clock);
        return None;
      }
      return Some(t[key]);
    }

    /** The tiers above the hit get a copy with the time that remains. */
    method Backfill(key: string, entry: RawEntry, foundTier: nat, now: int)
      requires Valid() && clock == now && foundTier < |stores|
      requires Live(flat, key, now) == Some(entry)
      modifies this`stores
      ensures Valid() && |stores| == |old(stores)|
      ensures forall i :: 0 <= i < foundTier ==> key in stores[i] && stores[i][key] == entry
    {
      var ttl := BackfillTtl(entry, now);
      CopyExpiresWithOriginalExactlyWhen(entry, now);
      for tier := 0 to foundTier
        invariant Valid() && |stores| == |old(stores)|
        invariant forall i :: 0 <= i < tier ==> key in stores[i] && stores[i][key] == entry
      {
        assert Shows(stores[tier], flat, now);
        stores := stores[tier := stores[tier][key := RawEntry(entry.value, ExpiresAt(ttl, now))]];
        assert Shows(stores[tier], flat, now);
      }
    }

    /** The first live entry across the tiers: what the one map holds, whichever tiers still have it. */
    method ReadRaw(key: string, now: int) returns (hit: Option<RawEntry>)
      requires Valid() && clock == now
      modifies this`stores
      ensures Valid() && |stores| == |old(stores)|
      ensures hit == Live(flat, key, now)
    {
      for tier := 0 to |stores|
        invariant Valid() && |stores| == |old(stores)|
        invariant forall i :: 0 <= i < tier ==> Live(stores[i], key, now).None?
      {
        ghost var t := stores[tier];
        var entry := StoreGet(tier, key, now);
        if entry.Some? {
          assert Live(flat, key, now) == entry by {
            ShownIsLive(t, flat, key, now);
          }
          if tier > 0 {
            Backfill(key, entry.value, tier, now);
          }
          return entry;
        }
      }
      CoveredIsLive(stores[|stores| - 1], flat, key, now);
      return None;
    }

    method Get(key: string, now: int) returns (value: Option<string>)
      requires Valid() && clock <= now
      modifies this
      ensures Valid() && clock == now && flat == old(flat) && |stores| == |old(stores)|
      ensures value == ValueOf(Live(flat, key, now))
    {
      TimeKeepsRepresents(stores, flat, clock, now);
      clock := now;
      var hit := ReadRaw(key, now);
      return if hit.None? then None else Some(hit.value.value);
    }

    /** Without a value this is a delete. */
    method Set(key: string, value: Option<string>, ttl: Option<int>, now: int)
      requires Valid() && clock <= now
      modifies this
      ensures Valid() && clock == now && |stores| == |old(stores)|
      ensures flat == if value.None? then old(flat) - {key}
                      else old(flat)[key := RawEntry(value.value, ExpiresAt(if ttl.Some? then ttl else defaultTtl, now))]
    {
      if value.None? {
        var _ := Delete(key, now);
        return;
      }
      TimeKeepsRepresents(stores, flat, clock, now);
      clock := now;
      var effectiveTtl := if ttl.Some? then ttl else defaultTtl;
      var e := RawEntry(value.value, ExpiresAt(effectiveTtl, now));
      ghost var was := stores;
      for i := 0 to |stores|
        invariant |stores| == |was| && flat == old(flat) && clock == now
        invariant forall k :: 0 <= k < |was| ==> stores[k] == if k < i then was[k][key := e] else was[k]
      {
        stores := stores[i := stores[i][key := e]];
      }
      forall i | 0 <= i < |was| ensures Shows(stores[i], flat[key := e], now) {
        PutKeeps(was[i], flat, key, e, now);
      }
      PutKeeps(was[|was| - 1], flat, key, e, now);
      flat := flat[key := e];
    }

    /** True at least if the map held the key alive; a tier may also still have it expired. */
    method Delete(key: string, now: int) returns (any: bool)
      requires Valid() && clock <= now
      modifies this
      ensures Valid() && clock == now && |stores| == |old(stores)|
      ensures flat == old(flat) - {key}
      ensures any <==> exists i :: 0 <= i < |old(stores)| && key in old(stores)[i]
      ensures Live(old(flat), key, now).Some? ==> any
    {
      TimeKeepsRepresents(stores, flat, clock, now);
      clock := now;
      any := false;
      ghost var was := stores;
      for i := 0 to |stores|
        invariant |stores| == |was| && flat == old(flat) && clock == now
        invariant any <==> exists k :: 0 <= k < i && key in was[k]
        invariant forall k :: 0 <= k < |was| ==> stores[k] == if k < i then was[k] - {key} else was[k]
      {
        any := any || key in stores[i];
        stores := stores[i := stores[i] - {key}];
      }
      forall i | 0 <= i < |was| ensures Shows(stores[i], flat - {key}, now) {
        RemoveKeeps(was[i], flat, key, now);
      }
      RemoveKeeps(was[|was| - 1], flat, key, now);
      CoveredIsLive(was[|was| - 1], flat, key, now);
      flat := flat - {key};
    }

    method DeleteByPrefix(prefix: string, now: int)
      requires Valid() && clock <= now
      modifies this
      ensures Valid() && clock == now && |stores| == |old(stores)|
      ensures flat == WithoutPrefix(old(flat), prefix)
    {
      TimeKeepsRepresents(stores, flat, clock, now);
      clock := now;
      ghost var was := stores;
      for i := 0 to |stores|
        invariant |stores| == |was| && flat == old(flat) && clock == now
        invariant forall k :: 0 <= k < |was| ==> stores[k] == if k < i then WithoutPrefix(was[k], prefix) else was[k]
      {
        stores := stores[i := map k | k in stores[i] && !(prefix <= k) :: stores[i][k]];
      }
      forall i | 0 <= i < |was| ensures Shows(stores[i], WithoutPrefix(flat, prefix), now) {
        PrefixKeeps(was[i], flat, prefix, now);
      }
      PrefixKeeps(was[|was| - 1], flat, prefix, now);
      flat := WithoutPrefix(flat, prefix);
    }

    /** A tier in front of the last drops an entry, for its own reasons. */
    method Evict(tier: nat, key: string)
      requires Valid() && tier < |stores| - 1
      modifies this`stores
      ensures Valid() && |stores| == |old(stores)| && key !in stores[tier]
    {
      assert Shows(stores[tier], flat, clock);
      stores := stores[tier := stores[tier] - {key}];
      assert Shows(stores[tier], flat, clock);
    }
  }

  datatype ConfigError = NoStores

  /** A cache without stores is refused; any other starts out as the empty map. */
  method NewCache(tiers: nat, defaultTtl: Option<int>, now: int) returns (r: Result<Cache, ConfigError>)
    ensures r.Err? <==> tiers == 0
    ensures r.Ok? ==>
              && fresh(r.value)
              && r.value.Valid()
              && r.value.flat == map[]
              && |r.value.stores| == tiers
              && r.value.defaultTtl == defaultTtl
  {
    if tiers == 0 {
      return Err(NoStores);
    }
    var cache := new Cache(tiers, defaultTtl, now);
    return Ok(cache);
  }

  /** From the last tier an eviction goes unnoticed exactly when the entry was dead already. */
  lemma LastTierMayDropExactlyWhenDead(tiers: seq<Tier>, flat: Tier, key: string, now: int)
    requires Represents(tiers, flat, now)
    ensures Represents(tiers[|tiers| - 1 := tiers[|tiers| - 1] - {key}], flat, now) <==> Live(flat, key, now).None?
  {
  }
}
