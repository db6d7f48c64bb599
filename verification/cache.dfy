/** The keyed TTL cache of the `useCache` hook (`src/hooks/useCache.ts`) without React:
    the hook's state is a value, each callback is a function from state to state,
    and a fetch is split into an explicit start (`FetchData`) and an explicit
    settlement (`SettleOk` / `SettleErr`) in place of the Promise chain. The clock is
    an explicit `now`. */
module Cache {
  import opened Wrappers

  /** A cached value, when it was stored and when it stops being served. */
  datatype Entry<T> = Entry(data: T, timestamp: int, expiry: int)

  type Table<T> = map<string, Entry<T>>

  /** A fetch that has been started and not yet settled: the key it will write and
      whether it drives the loading flag. */
  datatype Pending = Pending(key: string, foreground: bool)

  /** The hook's state: its options, the entry table, the keys with a fetch in
      flight, and the three pieces of React state it exposes. */
  datatype Hook<T> = Hook(
    ttl: int,
    staleWhileRevalidate: bool,
    cache: Table<T>,
    active: set<string>,
    data: Option<T>,
    isLoading: bool,
    error: Option<string>)

  /** Five minutes, the default time to live. */
  const DefaultTtl: int := 5 * 60 * 1000

  /** A freshly mounted hook; absent options take their defaults. */
  function Mount<T>(ttl: Option<int>, staleWhileRevalidate: Option<bool>): (h: Hook<T>)
    ensures h.ttl == (if ttl.Some? then ttl.value else 300000)
    ensures h.staleWhileRevalidate == (staleWhileRevalidate.None? || staleWhileRevalidate.value)
    ensures h.cache == map[] && h.active == {}
    ensures h.data.None? && !h.isLoading && h.error.None?
  {
    Hook(ttl.GetOr(DefaultTtl), staleWhileRevalidate.GetOr(true), map[], {}, None, false, None)
  }

  // ---------------------------------------------------------------------------
  // Entries
  // ---------------------------------------------------------------------------

  /** `isExpired(entry)`: strictly after the expiry instant. */
  predicate IsExpired<T>(e: Entry<T>, now: int)
  {
    now > e.expiry
  }

  /** `getCachedData(key)`: the value of an unexpired entry; an expired entry is
      deleted on the way. */
  function GetCachedData<T>(c: Table<T>, key: string, now: int): (out: (Table<T>, Option<T>))
    ensures out.1.Some? <==> key in c && !IsExpired(c[key], now)
    ensures out.1.Some? ==> out.1.value == c[key].data && out.0 == c
    ensures out.1.None? ==> out.0 == c - {key}
  {
    if key !in c then (c, None)
    else if IsExpired(c[key], now) then (c - {key}, None)
    else (c, Some(c[key].data))
  }

  /** `setCachedData(key, value)`: stores the value stamped `now`, expiring `ttl` later,
      replacing any earlier entry for the key and touching no other key. */
  function SetCachedData<T>(c: Table<T>, key: string, value: T, now: int, ttl: int): (r: Table<T>)
    ensures r.Keys == c.Keys + {key}
    ensures r[key] == Entry(value, now, now + ttl)
    ensures forall k :: k in c && k != key ==> r[k] == c[k]
  {
    c[key := Entry(value, now, now + ttl)]
  }

  /** A value stored at `t` is served until `t + ttl` inclusive and not after. */
  lemma Freshness<T>(c: Table<T>, key: string, value: T, t: int, ttl: int, later: int)
    ensures GetCachedData(SetCachedData(c, key, value, t, ttl), key, later).1 ==
            if later <= t + ttl then Some(value) else None
  {
  }

  // ---------------------------------------------------------------------------
  // Fetching
  // ---------------------------------------------------------------------------

  /** What `fetchData` did: handed back the request already in flight, or called the
      fetcher and started a new one. */
  datatype FetchStart = Joined | Started(pending: Pending)

  /** `fetchData(key, shouldUpdateLoading)`, up to the point where it awaits the fetcher.
      A key with a request in flight is joined, with no change to any state;
      otherwise the fetcher is called once, the key is registered, the error is
      cleared and, for a foreground fetch, the loading flag is raised. */
  function FetchData<T>(h: Hook<T>, key: string, foreground: bool): (out: (Hook<T>, FetchStart))
    ensures out.1.Joined? <==> key in h.active
    ensures out.1.Joined? ==> out.0 == h
    ensures out.1.Started? ==> && out.1.pending == Pending(key, foreground)
                               && out.0.active == h.active + {key}
                               && out.0.error.None?
                               && out.0.isLoading == (foreground || h.isLoading)
                               && out.0.cache == h.cache && out.0.data == h.data
  {
    if key in h.active then (h, Joined)
    else
      var loading := if foreground then true else h.isLoading;
      (h.(isLoading := loading, error := None, active := h.active + {key}), Started(Pending(key, foreground)))
  }

  /** The `.then` and `.finally` of a fetch that resolved with `value`: the value is
      cached under the fetch's key and exposed as `data`, the key leaves the registry,
      and a foreground fetch lowers the loading flag. */
  function SettleOk<T>(h: Hook<T>, p: Pending, value: T, now: int): (r: Hook<T>)
    ensures r.cache == SetCachedData(h.cache, p.key, value, now, h.ttl)
    ensures r.data == Some(value) && r.error == h.error
    ensures r.active == h.active - {p.key}
    ensures r.isLoading == (!p.foreground && h.isLoading)
  {
    var loading := if p.foreground then false else h.isLoading;
    h.(cache := SetCachedData(h.cache, p.key, value, now, h.ttl), data := Some(value),
       isLoading := loading, active := h.active - {p.key})
  }

  /** The `.catch` and `.finally` of a fetch that rejected: the error is exposed, no
      entry is written (an earlier entry survives), the key leaves the registry. */
  function SettleErr<T>(h: Hook<T>, p: Pending, err: string): (r: Hook<T>)
    ensures r.cache == h.cache && r.data == h.data
    ensures r.error == Some(err)
    ensures r.active == h.active - {p.key}
    ensures r.isLoading == (!p.foreground && h.isLoading)
  {
    var loading := if p.foreground then false else h.isLoading;
    h.(error := Some(err), isLoading := loading, active := h.active - {p.key})
  }

  /** Issues one `fetchData(key, flag)` per flag, with nothing settling in between;
      returns the final state and how many times the fetcher was called. */
  function FetchMany<T>(h: Hook<T>, key: string, flags: seq<bool>): (out: (Hook<T>, nat))
    decreases |flags|
  {
    if |flags| == 0 then (h, 0)
    else
      var first := FetchData(h, key, flags[0]);
      var rest := FetchMany(first.0, key, flags[1..]);
      (rest.0, rest.1 + if first.1.Started? then 1 else 0)
  }

  /** De-duplication: however many fetches of one key are issued while none settles,
      the fetcher runs once if no request was in flight and never if one was. */
  lemma {:induction false} FetchDeduplicates<T>(h: Hook<T>, key: string, flags: seq<bool>)
    requires 1 <= |flags|
    ensures FetchMany(h, key, flags).1 == if key in h.active then 0 else 1
    ensures key in FetchMany(h, key, flags).0.active
  {
    var first := FetchData(h, key, flags[0]);
    JoinedWhileActive(first.0, key, flags[1..]);
  }

  lemma {:induction false} JoinedWhileActive<T>(h: Hook<T>, key: string, flags: seq<bool>)
    requires key in h.active
    ensures FetchMany(h, key, flags) == (h, 0)
    decreases |flags|
  {
    if |flags| > 0 {
      JoinedWhileActive(h, key, flags[1..]);
    }
  }

  /** Once the fetch settles, either way, the next fetch of the key calls the fetcher again. */
  lemma SettledKeyRefetches<T>(h: Hook<T>, p: Pending, value: T, err: string, now: int, foreground: bool)
    ensures FetchData(SettleOk(h, p, value, now), p.key, foreground).1.Started?
    ensures FetchData(SettleErr(h, p, err), p.key, foreground).1.Started?
  {
  }

  // ---------------------------------------------------------------------------
  // mutate, invalidate, refetch, unmount
  // ---------------------------------------------------------------------------

  /** The argument of `mutate`: a value, an updater, or nothing. */
  datatype MutateArg<!T> = Value(value: T) | Updater(update: Option<T> -> T) | NoArg

  /** The value `mutate` stores, for the two argument forms that store one; the
      updater sees what `getCachedData` returns, which may be nothing. */
  function MutatedValue<T>(h: Hook<T>, key: string, arg: MutateArg<T>, now: int): T
    requires !arg.NoArg?
  {
    match arg
    case Value(v) => v
    case Updater(f) => f(GetCachedData(h.cache, key, now).1)
  }

  /** `mutate(arg)` for the hook's current `key`. A value or an updater result is stored
      and exposed without calling the fetcher; no argument is a foreground fetch. */
  function Mutate<T>(h: Hook<T>, key: string, arg: MutateArg<T>, now: int): (out: (Hook<T>, Option<FetchStart>))
    ensures arg.NoArg? ==> out == (FetchData(h, key, true).0, Some(FetchData(h, key, true).1))
    ensures !arg.NoArg? ==> && out.1.None?
                            && out.0.cache == SetCachedData(h.cache, key, MutatedValue(h, key, arg, now), now, h.ttl)
                            && out.0.data == Some(MutatedValue(h, key, arg, now))
                            && out.0.active == h.active && out.0.isLoading == h.isLoading
                            && out.0.error == h.error
  {
    match arg
    case Value(v) =>
      (h.(cache := SetCachedData(h.cache, key, v, now, h.ttl), data := Some(v)), None)
    case Updater(f) =>
      var current := GetCachedData(h.cache, key, now);
      var v := f(current.1);
      (h.(cache := SetCachedData(current.0, key, v, now, h.ttl), data := Some(v)), None)
    case NoArg =>
      var f := FetchData(h, key, true);
      (f.0, Some(f.1))
  }

  /** `invalidate()`: drops the current key's entry and clears `data` and `error`;
      other entries and any fetch in flight are left alone. */
  function Invalidate<T>(h: Hook<T>, key: string): (r: Hook<T>)
    ensures key !in r.cache
    ensures forall k :: k != key ==> (k in r.cache <==> k in h.cache)
    ensures forall k :: k != key && k in h.cache ==> r.cache[k] == h.cache[k]
    ensures r.active == h.active && r.isLoading == h.isLoading
    ensures r.data.None? && r.error.None?
  {
    h.(cache := h.cache - {key}, data := None, error := None)
  }

  /** `refetch()`: a foreground fetch of the current key. */
  function Refetch<T>(h: Hook<T>, key: string): (out: (Hook<T>, FetchStart))
    ensures out.1.Joined? <==> key in h.active
    ensures out.1.Started? ==> out.0.isLoading && out.1.pending.foreground
  {
    FetchData(h, key, true)
  }

  /** The clean-up effect run when the key changes or the component unmounts: the
      key's request is forgotten (the request itself keeps running). */
  function Release<T>(h: Hook<T>, key: string): (r: Hook<T>)
    ensures key !in r.active
    ensures r.active == h.active - {key}
    ensures r.cache == h.cache && r.data == h.data
  {
    h.(active := h.active - {key})
  }

  // ---------------------------------------------------------------------------
  // The load effect
  // ---------------------------------------------------------------------------

  /** What the load effect did for the key. */
  datatype LoadAction =
    | Served                        // a cached value was exposed; nothing fetched
    | Revalidating(start: FetchStart)  // a cached value was exposed and a background fetch issued
    | Fetched(start: FetchStart)       // no usable value: a foreground fetch was issued

  /** The value has passed 80% of its time to live: `now > timestamp + 0.8 * ttl`,
      written over the integers. */
  predicate Stale<T>(e: Entry<T>, ttl: int, now: int)
  {
    5 * (now - e.timestamp) > 4 * ttl
  }

  /** The effect that runs on mount and on every key change. A truthy unexpired value
      is served; with stale-while-revalidate on and the value past 80% of its time to
      live, a background fetch (which leaves the loading flag alone) is issued as well.
      An absent, expired or falsy value leads to a foreground fetch. `truthy` is
      JavaScript's truthiness on the cached type. */
  function Load<T>(h: Hook<T>, key: string, now: int, truthy: T -> bool): (out: (Hook<T>, LoadAction))
  {
    var got := GetCachedData(h.cache, key, now);
    var h1 := h.(cache := got.0);
    if got.1.Some? && truthy(got.1.value) then
      var h2 := h1.(data := got.1);
      if h.staleWhileRevalidate && Stale(h2.cache[key], h.ttl, now) then
        var f := FetchData(h2, key, false);
        (f.0, Revalidating(f.1))
      else
        (h2, Served)
    else
      var f := FetchData(h1, key, true);
      (f.0, Fetched(f.1))
  }

  /** The load decision: which branch is taken, in terms of the entry table alone. */
  lemma LoadDecision<T>(h: Hook<T>, key: string, now: int, truthy: T -> bool)
    ensures var out := Load(h, key, now, truthy);
      var usable := key in h.cache && !IsExpired(h.cache[key], now) && truthy(h.cache[key].data);
      && (out.1.Fetched? <==> !usable)
      && (out.1.Revalidating? <==> usable && h.staleWhileRevalidate && Stale(h.cache[key], h.ttl, now))
      && (usable ==> out.0.data == Some(h.cache[key].data) && out.0.isLoading == h.isLoading)
      && (out.1.Fetched? ==> out.1.start == FetchData(h.(cache := h.cache - {key}), key, true).1)
      && (out.1.Revalidating? ==> (out.1.start.Started? <==> key !in h.active))
  {
  }

  /** After `invalidate()` the load effect always takes the foreground path; the
      fetcher is called unless a request for the key is still in flight. */
  lemma InvalidateThenLoadFetches<T>(h: Hook<T>, key: string, now: int, truthy: T -> bool)
    ensures Load(Invalidate(h, key), key, now, truthy).1.Fetched?
    ensures Load(Invalidate(h, key), key, now, truthy).1.start.Started? <==> key !in h.active
    ensures key !in h.active ==> Load(Invalidate(h, key), key, now, truthy).0.isLoading
  {
  }

  /** With a one-second time to live, a value stored at `t` and read at `t + 850`
      (85% of its life) is served and revalidated in the background without the
      loading flag; once that fetch settles the new value is served. */
  lemma StaleWhileRevalidateExample(h: Hook<int>, key: string, t: int, before: int, after: int)
    requires h.ttl == 1000 && h.staleWhileRevalidate && key !in h.active && !h.isLoading
    requires before != 0 && after != 0
    ensures var h0 := h.(cache := SetCachedData(h.cache, key, before, t, 1000));
      var l := Load(h0, key, t + 850, x => x != 0);
      && l.1 == Revalidating(Started(Pending(key, false)))
      && l.0.data == Some(before) && !l.0.isLoading
      && var h1 := SettleOk(l.0, Pending(key, false), after, t + 900);
         Load(h1, key, t + 950, x => x != 0) == (h1, Served) && h1.data == Some(after)
  {
  }
}
