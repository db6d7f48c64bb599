/** The fixed-window rate limiter of `src/utils/rateLimiter.ts`: a table from key to
    `{count, resetTime}`, consulted and updated by `check`, swept by `cleanup`,
    and the named rules that guard authentication and writes.

    The clock is an explicit `now` (milliseconds); the one-minute `setInterval`
    that calls `cleanup` is replaced by calling `Cleanup` explicitly. */
module RateLimiter {
  import opened Wrappers
  import opened Strings

  /** One key's window: requests admitted so far and the instant the window ends. */
  datatype Entry = Entry(count: int, resetTime: int)

  /** The limiter's table, keyed by the string a rule derives from its caller. */
  type Storage = map<string, Entry>

  /** A rule: ceiling, window length and the optional key generator. The generator's
      argument is the call context; the empty string stands for an absent one. */
  datatype Rule = Rule(maxRequests: int, windowMs: int, keyGenerator: Option<string -> string>)

  /** What `check` answers. */
  datatype Verdict = Verdict(allowed: bool, remaining: int, resetTime: int)

  /** The most requests one window of `rule` can ever have admitted: the first request
      of a window is admitted even when `maxRequests` is zero or negative. */
  function Cap(rule: Rule): int
  {
    if rule.maxRequests < 1 then 1 else rule.maxRequests
  }

  /** The stored window for `key` still governs at `now`: expiry is strictly after `resetTime`. */
  predicate Live(s: Storage, key: string, now: int)
  {
    key in s && !(now > s[key].resetTime)
  }

  /** Requests already admitted in the window that governs `key` at `now`. */
  function Used(s: Storage, key: string, now: int): int
  {
    if Live(s, key, now) then s[key].count else 0
  }

  /** The two maps agree on every key but `key`. */
  ghost predicate SameElsewhere(s: Storage, t: Storage, key: string)
  {
    && (forall k :: k != key ==> (k in s <==> k in t))
    && (forall k :: k != key && k in s ==> t[k] == s[k])
  }

  // ---------------------------------------------------------------------------
  // check
  // ---------------------------------------------------------------------------

  /** `RateLimiter.check(key, rule)` at time `now`: the new table and the verdict.
      A request is admitted exactly when no window governs the key or the live
      window has room; an admitted request is counted in the window that governs
      afterwards; the table changes at `key` only. */
  function Check(s: Storage, key: string, rule: Rule, now: int): (out: (Storage, Verdict))
    ensures SameElsewhere(s, out.0, key)
    ensures key in out.0 && Live(out.0, key, now) == (rule.windowMs >= 0 || Live(s, key, now))
    ensures out.1.allowed <==> !Live(s, key, now) || s[key].count < rule.maxRequests
    ensures out.1.allowed ==> out.0[key].count == Used(s, key, now) + 1
    ensures out.1.allowed ==> out.1.remaining == rule.maxRequests - out.0[key].count
    ensures !out.1.allowed ==> out.0 == s && out.1.remaining == 0
    ensures out.1.resetTime == out.0[key].resetTime
    ensures Live(s, key, now) ==> out.1.resetTime == s[key].resetTime
    ensures !Live(s, key, now) ==> out.1.resetTime == now + rule.windowMs
  {
    if key !in s || now > s[key].resetTime then
      var window := Entry(1, now + rule.windowMs);
      (s[key := window], Verdict(true, rule.maxRequests - 1, window.resetTime))
    else if s[key].count >= rule.maxRequests then
      (s, Verdict(false, 0, s[key].resetTime))
    else
      var bumped := Entry(s[key].count + 1, s[key].resetTime);
      (s[key := bumped], Verdict(true, rule.maxRequests - bumped.count, bumped.resetTime))
  }

  /** Every stored window has admitted at least one request and at most what the
      rule allows. */
  predicate WithinCap(s: Storage, key: string, rule: Rule)
  {
    key in s ==> 1 <= s[key].count <= Cap(rule)
  }

  /** A check never pushes a window past the rule's ceiling. */
  lemma CheckKeepsCap(s: Storage, key: string, rule: Rule, now: int)
    requires WithinCap(s, key, rule)
    ensures WithinCap(Check(s, key, rule, now).0, key, rule)
  {
  }

  /** With no window, or once `now` is strictly past `resetTime`, a check opens a new
      window of one request ending at `now + windowMs` and is admitted, whatever the
      ceiling. */
  lemma CheckOpensWindow(s: Storage, key: string, rule: Rule, now: int)
    requires key !in s || now > s[key].resetTime
    ensures Check(s, key, rule, now).0 == s[key := Entry(1, now + rule.windowMs)]
    ensures Check(s, key, rule, now).1 == Verdict(true, rule.maxRequests - 1, now + rule.windowMs)
  {
  }

  /** At `now == resetTime` the old window still governs: a full window still refuses. */
  lemma CheckAtBoundary(s: Storage, key: string, rule: Rule)
    requires key in s && s[key].count >= rule.maxRequests
    ensures Check(s, key, rule, s[key].resetTime) == (s, Verdict(false, 0, s[key].resetTime))
  {
  }

  /** A live window with room counts the request, keeps its end and reports the
      room left. */
  lemma CheckCountsRequest(s: Storage, key: string, rule: Rule, now: int)
    requires Live(s, key, now) && s[key].count < rule.maxRequests
    ensures Check(s, key, rule, now).0 == s[key := Entry(s[key].count + 1, s[key].resetTime)]
    ensures Check(s, key, rule, now).1 == Verdict(true, rule.maxRequests - s[key].count - 1, s[key].resetTime)
  {
  }

  // ---------------------------------------------------------------------------
  // Many checks inside one window
  // ---------------------------------------------------------------------------

  /** Runs one check per instant of `times` on the same key; the final table and the
      number of admitted requests. */
  function RunChecks(s: Storage, key: string, rule: Rule, times: seq<int>): (out: (Storage, nat))
    ensures out.1 <= |times|
    decreases |times|
  {
    if |times| == 0 then (s, 0)
    else
      var first := Check(s, key, rule, times[0]);
      var rest := RunChecks(first.0, key, rule, times[1..]);
      (rest.0, rest.1 + if first.1.allowed then 1 else 0)
  }

  function Min(a: int, b: int): int { if a <= b then a else b }

  /** Checks made while a window `Entry(c, r)` governs admit as many requests as the
      window has room for, and no more. */
  lemma {:induction false} ChecksInLiveWindow(s: Storage, key: string, rule: Rule, times: seq<int>)
    requires key in s && 1 <= s[key].count
    requires forall i :: 0 <= i < |times| ==> times[i] <= s[key].resetTime
    ensures var room := if s[key].count < rule.maxRequests then rule.maxRequests - s[key].count else 0;
            RunChecks(s, key, rule, times).1 == Min(|times|, room)
    ensures key in RunChecks(s, key, rule, times).0
    ensures RunChecks(s, key, rule, times).0[key].resetTime == s[key].resetTime
    ensures RunChecks(s, key, rule, times).0[key].count == s[key].count + RunChecks(s, key, rule, times).1
  {
    if |times| > 0 {
      var first := Check(s, key, rule, times[0]);
      assert Live(s, key, times[0]);
      ChecksInLiveWindow(first.0, key, rule, times[1..]);
    }
  }

  /** n checks that all fall inside the window the first one opens admit exactly
      `min(n, maxRequests)` requests (one at least, for a non-positive ceiling). */
  lemma {:induction false} ChecksInOneWindow(s: Storage, key: string, rule: Rule, times: seq<int>)
    requires 1 <= |times|
    requires key !in s || times[0] > s[key].resetTime
    requires forall i :: 0 <= i < |times| ==> times[i] <= times[0] + rule.windowMs
    ensures RunChecks(s, key, rule, times).1 == Min(|times|, Cap(rule))
  {
    var first := Check(s, key, rule, times[0]);
    assert first.0[key] == Entry(1, times[0] + rule.windowMs);
    forall i | 0 <= i < |times[1..]|
      ensures times[1..][i] <= first.0[key].resetTime
    {
      assert times[1..][i] == times[i + 1];
    }
    ChecksInLiveWindow(first.0, key, rule, times[1..]);
  }

  // ---------------------------------------------------------------------------
  // cleanup, reset, destroy
  // ---------------------------------------------------------------------------

  /** `cleanup()` at `now`: the sweep keeps exactly the windows that still govern. */
  function Cleanup(s: Storage, now: int): (r: Storage)
    ensures forall k :: k in r <==> Live(s, k, now)
    ensures forall k :: k in r ==> k in s && r[k] == s[k]
  {
    map k | k in s && !(now > s[k].resetTime) :: s[k]
  }

  /** The sweep is invisible to callers: any later check answers as it would have
      without it, and leaves the checked key in the same state. */
  lemma CleanupUnobservable(s: Storage, now: int, key: string, rule: Rule, later: int)
    requires now <= later
    ensures Check(Cleanup(s, now), key, rule, later).1 == Check(s, key, rule, later).1
    ensures Check(Cleanup(s, now), key, rule, later).0[key] == Check(s, key, rule, later).0[key]
  {
    var c := Cleanup(s, now);
    assert Live(c, key, later) == Live(s, key, later);
  }

  /** `reset(key)`: forgets one key. */
  function Reset(s: Storage, key: string): (r: Storage)
    ensures key !in r
    ensures SameElsewhere(s, r, key)
  {
    s - {key}
  }

  /** `destroy()`: the table is emptied (the timer it also stops is not modelled). */
  function Destroy(s: Storage): (r: Storage)
    ensures forall k :: k !in r
  {
    map[]
  }

  /** After a reset or a destroy the next check on the key opens a fresh window. */
  lemma ResetReadmits(s: Storage, key: string, rule: Rule, now: int)
    ensures Check(Reset(s, key), key, rule, now).1 == Verdict(true, rule.maxRequests - 1, now + rule.windowMs)
    ensures Check(Destroy(s), key, rule, now).1 == Verdict(true, rule.maxRequests - 1, now + rule.windowMs)
  {
  }

  // ---------------------------------------------------------------------------
  // The named rules
  // ---------------------------------------------------------------------------

  /** The operations `RATE_LIMITS` names. */
  datatype Operation = Auth | TransactionCreate | CategoryCreate | ProfileUpdate | DataFetch

  function Prefix(op: Operation): string
  {
    match op
    case Auth => "auth"
    case TransactionCreate => "transaction_create"
    case CategoryCreate => "category_create"
    case ProfileUpdate => "profile_update"
    case DataFetch => "data_fetch"
  }

  /** `id || 'unknown'`. */
  function OrUnknown(id: string): (r: string)
    ensures r != ""
    ensures id == "" ==> r == "unknown"
    ensures id != "" ==> r == id
  {
    if id == "" then "unknown" else id
  }

  /** The key `<prefix>:<id or 'unknown'>` an operation's generator derives. */
  function OpKey(op: Operation, id: string): string
  {
    Prefix(op) + ":" + OrUnknown(id)
  }

  /** The entry of `RATE_LIMITS` for an operation. */
  function RuleFor(op: Operation): (rule: Rule)
    ensures rule.keyGenerator.Some?
    ensures forall id :: rule.keyGenerator.value(id) == OpKey(op, id)
    ensures rule.maxRequests >= 1 && rule.windowMs >= 60000
  {
    var gen := (id: string) => OpKey(op, id);
    match op
    case Auth => Rule(5, 15 * 60 * 1000, Some(gen))
    case TransactionCreate => Rule(50, 60 * 1000, Some(gen))
    case CategoryCreate => Rule(10, 60 * 1000, Some(gen))
    case ProfileUpdate => Rule(10, 60 * 1000, Some(gen))
    case DataFetch => Rule(100, 60 * 1000, Some(gen))
  }

  /** Keys of different operations never collide, and within an operation two ids
      share a key only when they agree after the `'unknown'` substitution. */
  lemma OpKeyInjective(op1: Operation, id1: string, op2: Operation, id2: string)
    ensures OpKey(op1, id1) == OpKey(op2, id2) <==> op1 == op2 && OrUnknown(id1) == OrUnknown(id2)
  {
    if OpKey(op1, id1) == OpKey(op2, id2) {
      assert OpKey(op1, id1)[0] == Prefix(op1)[0];
      assert OpKey(op2, id2)[0] == Prefix(op2)[0];
      assert op1 == op2;
      var n := |Prefix(op1)| + 1;
      assert OpKey(op1, id1)[n..] == OrUnknown(id1);
      assert OpKey(op2, id2)[n..] == OrUnknown(id2);
    }
  }

  /** One user's keys for different operations are different. */
  lemma OpKeysDistinct(id: string)
    ensures forall op1: Operation, op2: Operation :: op1 != op2 ==> OpKey(op1, id) != OpKey(op2, id)
  {
    forall op1: Operation, op2: Operation | op1 != op2
      ensures OpKey(op1, id) != OpKey(op2, id)
    {
      OpKeyInjective(op1, id, op2, id);
    }
  }

  // ---------------------------------------------------------------------------
  // checkRateLimit and the per-user reset
  // ---------------------------------------------------------------------------

  /** What `checkRateLimit` returns: the verdict plus a message when refused. */
  datatype Decision = Decision(allowed: bool, remaining: int, resetTime: int, error: Option<string>)

  /** `Math.ceil(d / 1000)` for an integer number of milliseconds. */
  function CeilSeconds(d: int): (r: int)
    ensures (r - 1) * 1000 < d <= r * 1000
  {
    -((-d) / 1000)
  }

  function ExceededMessage(seconds: int): (m: string)
    ensures StartsWith(m, "Rate limit exceeded. Try again in ")
  {
    "Rate limit exceeded. Try again in " + IntToString(seconds) + " seconds."
  }

  /** The key `checkRateLimit` uses: the rule's generator applied to the context,
      or `'default'` for a rule without one. */
  function KeyOf(rule: Rule, context: string): string
  {
    match rule.keyGenerator
    case Some(gen) => gen(context)
    case None => "default"
  }

  /** `checkRateLimit(rule, context)` at `now` (the same instant serves the check and
      the message): the verdict of `check` on the derived key, with a message that
      appears exactly when the request is refused and states the whole seconds
      left in the window. */
  function CheckRateLimit(s: Storage, rule: Rule, context: string, now: int): (out: (Storage, Decision))
    ensures var c := Check(s, KeyOf(rule, context), rule, now);
      && out.0 == c.0
      && out.1.allowed == c.1.allowed && out.1.remaining == c.1.remaining
      && out.1.resetTime == c.1.resetTime
    ensures out.1.error.Some? <==> !out.1.allowed
    ensures !out.1.allowed ==> exists secs ::
      && (secs - 1) * 1000 < out.1.resetTime - now <= secs * 1000
      && 0 <= secs
      && out.1.error == Some(ExceededMessage(secs))
  {
    var key := KeyOf(rule, context);
    var c := Check(s, key, rule, now);
    var v := c.1;
    if !v.allowed then
      var secs := CeilSeconds(v.resetTime - now);
      (c.0, Decision(false, v.remaining, v.resetTime, Some(ExceededMessage(secs))))
    else
      (c.0, Decision(true, v.remaining, v.resetTime, None))
  }

  /** `rateLimiters.<op>(id)`. */
  function Limit(s: Storage, op: Operation, id: string, now: int): (out: (Storage, Decision))
    ensures out.1.error.Some? <==> !out.1.allowed
    ensures !out.1.allowed ==> StartsWith(out.1.error.value, "Rate limit exceeded. Try again in ")
  {
    CheckRateLimit(s, RuleFor(op), id, now)
  }

  /** The five keys `resetUserRateLimits(id)` clears. */
  function UserKeys(id: string): (r: set<string>)
    ensures |r| == 5
  {
    OpKeysDistinct(id);
    {OpKey(Auth, id), OpKey(TransactionCreate, id), OpKey(CategoryCreate, id),
     OpKey(ProfileUpdate, id), OpKey(DataFetch, id)}
  }

  /** `resetUserRateLimits(id)`: forgets the user's window under every named rule and
      nothing else. */
  function ResetUser(s: Storage, id: string): (r: Storage)
    ensures forall op :: OpKey(op, id) !in r
    ensures forall k :: k in r <==> k in s && k !in UserKeys(id)
    ensures forall k :: k in r ==> r[k] == s[k]
  {
    s - UserKeys(id)
  }

  /** After `resetUserRateLimits(id)` every named operation for that user is admitted
      again, with the rule's full allowance less one. */
  lemma ResetUserReadmits(s: Storage, id: string, op: Operation, now: int)
    ensures Limit(ResetUser(s, id), op, id, now).1.allowed
    ensures Limit(ResetUser(s, id), op, id, now).1.remaining == RuleFor(op).maxRequests - 1
  {
    var r := ResetUser(s, id);
    assert OpKey(op, id) !in r;
    assert KeyOf(RuleFor(op), id) == OpKey(op, id);
  }

  /** Per-key isolation: a check for one user and operation leaves the window of any
      other user or operation exactly as it was. */
  lemma LimitIsolation(s: Storage, op: Operation, id: string, now: int, op2: Operation, id2: string)
    requires op2 != op || OrUnknown(id2) != OrUnknown(id)
    ensures var t := Limit(s, op, id, now).0;
      && (OpKey(op2, id2) in t <==> OpKey(op2, id2) in s)
      && (OpKey(op2, id2) in s ==> t[OpKey(op2, id2)] == s[OpKey(op2, id2)])
  {
    OpKeyInjective(op, id, op2, id2);
    assert KeyOf(RuleFor(op), id) == OpKey(op, id);
  }
}
