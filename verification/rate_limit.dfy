/** The homepage's fixed-window rate limiter: one in-memory store maps a client identifier to
    the number of requests admitted in its current window and the window's end (milliseconds).
    A request is admitted while the count is below the limit; a full window answers 429 with a
    Retry-After header (section 4 of RFC 6585, section 10.2.3 of RFC 9110). */
module RateLimit {
  import opened Wrappers
  import opened Strings

  /** One client's window. */
  datatype Entry = Entry(count: nat, resetTime: int)

  /** `interval`: window length in milliseconds; `limit`: requests admitted per window. */
  datatype Config = Config(interval: nat, limit: nat)

  const ApiPreset := Config(60 * 1000, 30)
  const AuthPreset := Config(15 * 60 * 1000, 5)
  const ExpensivePreset := Config(60 * 60 * 1000, 10)

  /** Entries whose window ended more than this long ago are swept. */
  const StaleAfter := 60 * 60 * 1000

  // ---------------------------------------------------------------- identifier

  /** The text before the first comma (all of it when there is none). */
  function FirstSegment(s: string): (r: string)
    ensures r <= s && ',' !in r
    ensures |r| < |s| ==> s[|r|] == ','
  {
    var i := IndexOf(s, ',', 0);
    if i == -1 then s else s[..i]
  }

  const Anonymous := "anonymous"

  /** The client identifier: the first `x-forwarded-for` entry when it is non-empty, else a
      non-empty `x-real-ip`, else "anonymous". */
  function GetIdentifier(forwardedFor: Option<string>, realIp: Option<string>): (r: string)
    ensures r != []
    ensures forwardedFor.Some? && FirstSegment(forwardedFor.value) != [] ==>
              r == FirstSegment(forwardedFor.value) && r <= forwardedFor.value && ',' !in r
    ensures ((forwardedFor.None? || FirstSegment(forwardedFor.value) == []) && realIp.Some? && realIp.value != [])
              ==> r == realIp.value
    ensures ((forwardedFor.None? || FirstSegment(forwardedFor.value) == []) && (realIp.None? || realIp.value == []))
              ==> r == Anonymous
  {
    if forwardedFor.Some? && FirstSegment(forwardedFor.value) != [] then FirstSegment(forwardedFor.value)
    else if realIp.Some? && realIp.value != [] then realIp.value
    else Anonymous
  }

  // ---------------------------------------------------------------- cleanup

  /** The store after the sweep at time `now`: exactly the entries whose window ended less than
      an hour before `now` (or has not ended) remain, unchanged. */
  function Retained(store: map<string, Entry>, now: int): (r: map<string, Entry>)
    ensures forall k :: k in r ==> k in store && r[k] == store[k]
    ensures forall k :: k in store ==> (k in r <==> store[k].resetTime >= now - StaleAfter)
  {
    map k | k in store && store[k].resetTime >= now - StaleAfter :: store[k]
  }

  // ---------------------------------------------------------------- one decision

  /** Whole seconds until `ms` milliseconds have passed, rounded up. */
  function CeilSeconds(ms: int): (r: int)
    ensures (r - 1) * 1000 < ms <= r * 1000
    ensures ms >= 0 ==> r >= 0
  {
    -((-ms) / 1000)
  }

  /** What the middleware answers: the handler's response with its rate headers, or a 429. */
  datatype Verdict =
    | Admitted(limit: nat, remaining: nat, reset: int)
    | TooManyRequests(limit: nat, reset: int, retryAfter: nat, message: string)
      /** The handler ran without any entry being counted, and setting the reset header then
          threw a TypeError (the value found has no `resetTime`). */
    | HandledThenThrew(limit: nat)

  /** Whether the handler runs for the request. */
  predicate HandlerRuns(v: Verdict) {
    v.Admitted? || v.HandledThenThrew?
  }

  function RejectionMessage(seconds: nat): string {
    "Rate limit exceeded. Try again in " + NatToString(seconds) + " seconds."
  }

  /** The client's window at `now`: a new one when there is none or the old one has ended
      (strictly before `now`), the existing one otherwise. */
  function Window(config: Config, entry: Option<Entry>, now: int): (w: Entry)
    ensures now <= w.resetTime
    ensures entry.Some? && now <= entry.value.resetTime ==> w == entry.value
    ensures (entry.None? || now > entry.value.resetTime) ==> w == Entry(0, now + config.interval)
  {
    if entry.None? || now > entry.value.resetTime then Entry(0, now + config.interval)
    else entry.value
  }

  /** The middleware's decision for one request and the client's entry afterwards. */
  function Decide(config: Config, entry: Option<Entry>, now: int): (r: (Entry, Verdict))
    ensures var w := Window(config, entry, now);
      && (r.1.Admitted? <==> w.count < config.limit)
      && (r.1.Admitted? ==> r.0 == w.(count := w.count + 1) && r.0.count <= config.limit
                            && r.1 == Admitted(config.limit, config.limit - r.0.count, w.resetTime))
      && (r.1.TooManyRequests? ==> r.0 == w && r.1.retryAfter * 1000 >= w.resetTime - now
                                   && r.1.reset == w.resetTime && r.1.limit == config.limit
                                   && r.1.retryAfter == CeilSeconds(w.resetTime - now)
                                   && r.1.message == RejectionMessage(r.1.retryAfter))
  {
    var w := Window(config, entry, now);
    if w.count >= config.limit then
      var seconds := CeilSeconds(w.resetTime - now);
      (w, TooManyRequests(config.limit, w.resetTime, seconds, RejectionMessage(seconds)))
    else
      var next := w.(count := w.count + 1);
      (next, Admitted(config.limit, config.limit - next.count, next.resetTime))
  }

  /** One request against the whole store: sweep, then decide for the client. The client's
      entry is the decision on its entry if that survived the sweep; every other surviving
      entry is kept as it was and no stale one is. This is the step over a store that has no
      inherited names (see `StepAsWritten`). */
  function Step(config: Config, store: map<string, Entry>, id: string, now: int): (r: (map<string, Entry>, Verdict))
    ensures var live := id in store && store[id].resetTime >= now - StaleAfter;
            var d := Decide(config, if live then Some(store[id]) else None, now);
            id in r.0 && r.0[id] == d.0 && r.1 == d.1
    ensures forall k :: k in r.0 && k != id ==> k in store && store[k].resetTime >= now - StaleAfter && r.0[k] == store[k]
    ensures forall k :: k in store && store[k].resetTime >= now - StaleAfter ==> k in r.0
  {
    var swept := Retained(store, now);
    var d := Decide(config, if id in swept then Some(swept[id]) else None, now);
    (swept[id := d.0], d.1)
  }

  /** A request touches only its own client's entry (apart from the sweep). */
  lemma StepTouchesOnlyItsClient(config: Config, store: map<string, Entry>, id: string, now: int, other: string)
    requires other != id && other in store && store[other].resetTime >= now - StaleAfter
    ensures other in Step(config, store, id, now).0 && Step(config, store, id, now).0[other] == store[other]
  {
  }

  /** Used with one configuration, no entry ever counts more than the limit. */
  lemma StepKeepsCountBound(config: Config, store: map<string, Entry>, id: string, now: int)
    requires forall k :: k in store ==> store[k].count <= config.limit
    ensures var s := Step(config, store, id, now).0; forall k :: k in s ==> s[k].count <= config.limit
  {
    var swept := Retained(store, now);
    var d := Decide(config, if id in swept then Some(swept[id]) else None, now);
    assert d.0.count <= config.limit;
  }

  /** How many of a client's requests at `times` are admitted, starting from `store`. */
  function AdmittedCount(config: Config, store: map<string, Entry>, id: string, times: seq<int>): nat
    decreases |times|
  {
    if times == [] then 0
    else
      var step := Step(config, store, id, times[0]);
      (if step.1.Admitted? then 1 else 0) + AdmittedCount(config, step.0, id, times[1..])
  }

  /** Inside one window at most `limit` requests of a client are admitted: requests that all
      arrive before the window ends add at most `limit - count` admissions. */
  lemma {:induction false} WindowAdmitsAtMostLimit(config: Config, store: map<string, Entry>, id: string, times: seq<int>)
    requires id in store && store[id].count <= config.limit
    requires forall i :: 0 <= i < |times| ==> times[i] <= store[id].resetTime
    ensures AdmittedCount(config, store, id, times) + store[id].count <= config.limit
    decreases |times|
  {
    if times != [] {
      var now := times[0];
      var e := store[id];
      var swept := Retained(store, now);
      assert id in swept && swept[id] == e;
      var step := Step(config, store, id, now);
      assert Window(config, Some(e), now) == e;
      assert id in step.0 && step.0[id].resetTime == e.resetTime;
      assert forall i :: 0 <= i < |times[1..]| ==> times[1..][i] == times[i + 1];
      WindowAdmitsAtMostLimit(config, step.0, id, times[1..]);
    }
  }

  /** A client whose first request finds no current window gets at most `limit` admissions
      for requests up to the end of the window that request opens. */
  lemma FreshWindowAdmitsAtMostLimit(config: Config, store: map<string, Entry>, id: string, times: seq<int>)
    requires times != [] && (id !in store || store[id].resetTime < times[0])
    requires forall i :: 0 <= i < |times| ==> times[0] <= times[i] <= times[0] + config.interval
    ensures AdmittedCount(config, store, id, times) <= config.limit
  {
    var now := times[0];
    var step := Step(config, store, id, now);
    assert Window(config, if id in store && store[id].resetTime >= now - StaleAfter then Some(store[id]) else None, now)
           == Entry(0, now + config.interval);
    assert step.0[id].resetTime == now + config.interval && step.0[id].count <= config.limit;
    assert forall i :: 0 <= i < |times[1..]| ==> times[1..][i] == times[i + 1];
    WindowAdmitsAtMostLimit(config, step.0, id, times[1..]);
  }

  // ---------------------------------------------------------------- the store as a plain object

  /** The property names every plain JavaScript object inherits from `Object.prototype`. Looking
      one of them up in the store finds an inherited function or object, which is truthy but has
      neither `count` nor `resetTime`. */
  const InheritedNames: set<string> := {
    "constructor", "__proto__", "__defineGetter__", "__defineSetter__", "__lookupGetter__",
    "__lookupSetter__", "hasOwnProperty", "isPrototypeOf", "propertyIsEnumerable",
    "toLocaleString", "toString", "valueOf" }

  /** One request as the middleware runs it over the plain-object store. For an inherited name
      without an entry of its own, no entry is created (the lookup is truthy), neither
      comparison with the missing fields holds, and the handler runs; nothing is counted for the
      client and the store is only swept. Every other identifier takes `Step`. */
  function StepAsWritten(config: Config, store: map<string, Entry>, id: string, now: int)
    : (r: (map<string, Entry>, Verdict))
    ensures id in InheritedNames && id !in Retained(store, now) ==>
              r.0 == Retained(store, now) && id !in r.0 && r.1 == HandledThenThrew(config.limit)
    ensures id !in InheritedNames || id in Retained(store, now) ==> r == Step(config, store, id, now)
  {
    var swept := Retained(store, now);
    if id in InheritedNames && id !in swept then (swept, HandledThenThrew(config.limit))
    else Step(config, store, id, now)
  }

  /** How many of a client's requests at `times` reach the handler, as written. */
  function HandlerRunsAsWritten(config: Config, store: map<string, Entry>, id: string, times: seq<int>): nat
    decreases |times|
  {
    if times == [] then 0
    else
      var step := StepAsWritten(config, store, id, times[0]);
      (if HandlerRuns(step.1) then 1 else 0) + HandlerRunsAsWritten(config, step.0, id, times[1..])
  }

  /** A client whose identifier is an inherited name is never limited: every one of its
      requests, however many and however close together, reaches the handler, even with a
      limit of zero. */
  lemma {:induction false} InheritedNameNeverLimited(config: Config, store: map<string, Entry>, id: string, times: seq<int>)
    requires id in InheritedNames && id !in store
    ensures HandlerRunsAsWritten(config, store, id, times) == |times|
    decreases |times|
  {
    if times != [] {
      var step := StepAsWritten(config, store, id, times[0]);
      assert id !in Retained(store, times[0]);
      InheritedNameNeverLimited(config, step.0, id, times[1..]);
    }
  }

  /** With the one store shared by every preset, a client's API traffic uses up its sign-in
      quota: after five API requests within a minute its first sign-in request is refused. */
  lemma SharedStoreCrossesPresets(id: string, t: int)
    ensures var s1 := Step(ApiPreset, map[], id, t).0;
            var s2 := Step(ApiPreset, s1, id, t).0;
            var s3 := Step(ApiPreset, s2, id, t).0;
            var s4 := Step(ApiPreset, s3, id, t).0;
            var s5 := Step(ApiPreset, s4, id, t).0;
            Step(AuthPreset, s5, id, t).1.TooManyRequests?
  {
    var s1 := Step(ApiPreset, map[], id, t).0;
    assert s1[id] == Entry(1, t + 60000);
    var s2 := Step(ApiPreset, s1, id, t).0;
    assert s2[id] == Entry(2, t + 60000);
    var s3 := Step(ApiPreset, s2, id, t).0;
    assert s3[id] == Entry(3, t + 60000);
    var s4 := Step(ApiPreset, s3, id, t).0;
    assert s4[id] == Entry(4, t + 60000);
    var s5 := Step(ApiPreset, s4, id, t).0;
    assert s5[id] == Entry(5, t + 60000);
    assert Retained(s5, t)[id] == Entry(5, t + 60000);
  }

  /** One store per preset: a request looks up and updates only its own preset's store. */
  function PresetStep(config: Config, stores: map<Config, map<string, Entry>>, id: string, now: int)
    : (r: (map<Config, map<string, Entry>>, Verdict))
    ensures r.0.Keys == stores.Keys + {config}
    ensures forall c :: c in stores && c != config ==> r.0[c] == stores[c]
    ensures var own := if config in stores then stores[config] else map[];
            var step := Step(config, own, id, now);
            r.0[config] == step.0 && r.1 == step.1
  {
    var own := if config in stores then stores[config] else map[];
    var step := Step(config, own, id, now);
    (stores[config := step.0], step.1)
  }

  /** With a store per preset, a client's first sign-in request is admitted whatever API
      traffic came before it. */
  lemma SeparateStoresKeepQuota(apiStore: map<string, Entry>, id: string, t: int)
    ensures PresetStep(AuthPreset, map[ApiPreset := apiStore], id, t).1
            == Admitted(5, 4, t + 15 * 60 * 1000)
  {
    assert AuthPreset != ApiPreset;
  }

  // ---------------------------------------------------------------- the middleware

  /** The module-level `store`, shared by every configuration built from `rateLimit`. */
  class RateLimiter {
    var store: map<string, Entry>

    constructor ()
      ensures store == map[]
    {
      store := map[];
    }

    /** `cleanupStore`: deletes, one key at a time, every entry whose window ended more than an
        hour before `now`. */
    method CleanupStore(now: int)
      modifies this
      ensures store == Retained(old(store), now)
    {
      ghost var original := store;
      var pending := store.Keys;
      while pending != {}
        invariant pending <= original.Keys
        invariant forall k :: k in store <==> k in original && (k in pending || original[k].resetTime >= now - StaleAfter)
        invariant forall k :: k in store ==> store[k] == original[k]
        decreases |pending|
      {
        var k :| k in pending;
        if store[k].resetTime < now - StaleAfter {
          store := store - {k};
        }
        pending := pending - {k};
      }
    }

    /** `rateLimitMiddleware` for one request at `now` from the client the headers name; the
        handler runs exactly when the verdict is `Admitted` or `HandledThenThrew`. */
    method Middleware(config: Config, forwardedFor: Option<string>, realIp: Option<string>, now: int)
      returns (verdict: Verdict)
      modifies this
      ensures var step := StepAsWritten(config, old(store), GetIdentifier(forwardedFor, realIp), now);
              store == step.0 && verdict == step.1
    {
      var id := GetIdentifier(forwardedFor, realIp);
      CleanupStore(now);
      if id !in store && id in InheritedNames {
        // the lookup finds the inherited value: nothing is stored, both comparisons are false
        verdict := HandledThenThrew(config.limit);
        return;
      }
      verdict := Count(config, id, now);
    }

    /** The middleware after the sweep, for a client whose lookup finds its own entry or
        nothing: create or renew the window, then refuse or count the request. */
    method Count(config: Config, id: string, now: int) returns (verdict: Verdict)
      modifies this
      ensures var d := Decide(config, if id in old(store) then Some(old(store)[id]) else None, now);
              store == old(store)[id := d.0] && verdict == d.1
    {
      ghost var w := Window(config, if id in store then Some(store[id]) else None, now);
      if id !in store {
        store := store[id := Entry(0, now + config.interval)];
      }
      var data := store[id];
      if now > data.resetTime {
        data := Entry(0, now + config.interval);
        store := store[id := data];
      }
      assert data == w && store == old(store)[id := w];
      if data.count >= config.limit {
        var seconds := CeilSeconds(data.resetTime - now);
        verdict := TooManyRequests(config.limit, data.resetTime, seconds, RejectionMessage(seconds));
        return;
      }
      data := data.(count := data.count + 1);
      store := store[id := data];
      verdict := Admitted(config.limit, config.limit - data.count, data.resetTime);
    }
  }
}
