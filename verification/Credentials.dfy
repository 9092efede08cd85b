/**
 The credential cache of internal/accounts/credentials.go. The lock is held while the
 cache is read and while it is written, not during the fetch, so `Resolve` is three
 steps that interleave with other calls, with `Invalidate` and with the clock.
 */
module Credentials {
  import opened Options

  /** Times and durations are in nanoseconds. */
  const MINUTE: int := 60_000_000_000
  const TTL: int := 5 * MINUTE

  /** `expiry` is None for Go's zero time. */
  datatype Credential = Credential(token: string, email: string, expiry: Option<int>)
  datatype Entry = Entry(credential: Credential, extractedAt: int)
  datatype Source = Agy | OAuth | Manual | Database | Unsupported(name: string)
  datatype Account = Account(email: string, sourceName: string, apiKey: string)
  {
    function source(): Source {
      SourceOf(sourceName)
    }
  }

  /** `account.Source` as the switch reads it. */
  function SourceOf(name: string): Source {
    if name == "agy" then Agy
    else if name == "oauth" then OAuth
    else if name == "manual" then Manual
    else if name == "database" || name == "" then Database
    else Unsupported(name)
  }

  /** The locked check; the clock is read twice. */
  function Hit(cache: map<string, Entry>, email: string, t1: int, t2: int): Option<Credential> {
    if email in cache && t1 - cache[email].extractedAt < TTL
       && (cache[email].credential.expiry.None? || cache[email].credential.expiry.value - t2 > MINUTE)
    then Some(cache[email].credential)
    else None
  }

  /** A fetched credential that names no account is filed under the account's email. */
  function Named(c: Credential, account: Account): Credential {
    if c.email == "" then c.(email := account.email) else c
  }

  /** What a fetch may return when the clock was read at `at`. A database row gives any
      token and email; agy and OAuth credentials come with any expiry. */
  ghost predicate Fetches(account: Account, at: int, c: Option<Credential>) {
    match account.source()
    case Agy => true
    case OAuth => true
    case Manual =>
      c == if account.apiKey == "" then None else Some(Credential(account.apiKey, account.email, Some(at + TTL)))
    case Database => c.Some? ==> c.value.token != "" && c.value.expiry == Some(at + TTL)
    case Unsupported(_) => c.None?
  }

  /** What the places outside answer: the token file, the OAuth refresh, and the database row
      (its key and email), None for any failure. */
  datatype External = External(agy: Option<Credential>, oauth: Option<Credential>, row: Option<(string, string)>)

  /** The switch on the account's source, with the clock read at `at`. */
  function Fetched(account: Account, external: External, at: int): Option<Credential> {
    match account.source()
    case Agy => external.agy
    case OAuth => external.oauth
    case Manual => if account.apiKey == "" then None else Some(Credential(account.apiKey, account.email, Some(at + TTL)))
    case Database =>
      if external.row.None? || external.row.value.0 == "" then None
      else
        var (key, email) := external.row.value;
        Some(Credential(key, if email == "" then account.email else email, Some(at + TTL)))
    case Unsupported(_) => None
  }

  class CredentialResolver {
    var cache: map<string, Entry>

    constructor ()
      ensures cache == map[]
    {
      cache := map[];
    }

    /** The first locked section. */
    method Check(email: string, t1: int, t2: int) returns (hit: Option<Credential>)
      ensures hit.Some? <==>
        && email in cache
        && t1 - cache[email].extractedAt < TTL
        && (cache[email].credential.expiry.Some? ==> cache[email].credential.expiry.value - t2 > MINUTE)
      ensures hit.Some? ==> hit.value == cache[email].credential
    {
      hit := None;
      if email in cache {
        var entry := cache[email];
        if t1 - entry.extractedAt < TTL
           && (entry.credential.expiry.None? || entry.credential.expiry.value - t2 > MINUTE) {
          hit := Some(entry.credential);
        }
      }
    }

    /** The second locked section. */
    method Store(email: string, c: Credential, now: int)
      modifies this
      ensures cache == old(cache)[email := Entry(c, now)]
    {
      cache := cache[email := Entry(c, now)];
    }

    method Invalidate(email: string)
      modifies this
      ensures cache == old(cache) - {email}
    {
      cache := cache - {email};
    }

    /** The unlocked fetch. */
    method Fetch(account: Account, external: External, at: int) returns (r: Option<Credential>)
      ensures r == Fetched(account, external, at)
      ensures Fetches(account, at, r)
      ensures account.sourceName == "agy" ==> r == external.agy
      ensures account.sourceName == "oauth" ==> r == external.oauth
      ensures account.sourceName == "manual" ==>
        if account.apiKey == "" then r == None
        else r == Some(Credential(account.apiKey, account.email, Some(at + 300_000_000_000)))
      ensures account.sourceName == "database" || account.sourceName == "" ==>
        if external.row.None? || external.row.value.0 == "" then r == None
        else r.Some? && r.value.token == external.row.value.0 && r.value.expiry == Some(at + 300_000_000_000)
             && r.value.email == if external.row.value.1 == "" then account.email else external.row.value.1
      ensures account.sourceName !in ["agy", "oauth", "manual", "database", ""] ==> r == None
    {
      r := None;
      if account.sourceName == "agy" {
        r := external.agy;
      } else if account.sourceName == "oauth" {
        r := external.oauth;
      } else if account.sourceName == "manual" {
        if account.apiKey != "" {
          r := Some(Credential(account.apiKey, account.email, Some(at + TTL)));
        }
      } else if account.sourceName == "database" || account.sourceName == "" {
        if external.row.Some? && external.row.value.0 != "" {
          var (key, email) := external.row.value;
          if email == "" {
            email := account.email;
          }
          r := Some(Credential(key, email, Some(at + TTL)));
        }
      }
    }

    /** `Resolve` when nothing interleaves: the clock is read at t1 and t2 in the check, at
        `at` in the fetch and at t3 in the store. */
    method Resolve(account: Account, t1: int, t2: int, external: External, at: int, t3: int) returns (r: Option<Credential>)
      modifies this
      ensures Hit(old(cache), account.email, t1, t2).Some? ==>
        r == Hit(old(cache), account.email, t1, t2) && cache == old(cache)
      ensures Hit(old(cache), account.email, t1, t2).None? ==>
        match Fetched(account, external, at)
        case None => r == None && cache == old(cache)
        case Some(c) =>
          && r == Some(Named(c, account))
          && (r.value.email != "" || account.email == "")
          && cache == old(cache)[account.email := Entry(r.value, t3)]
    {
      r := Check(account.email, t1, t2);
      if r.Some? {
        return;
      }
      var fetched := Fetch(account, external, at);
      if fetched.None? {
        return;
      }
      var credentials := fetched.value;
      if credentials.email == "" {
        credentials := credentials.(email := account.email);
      }
      Store(account.email, credentials, t3);
      r := Some(credentials);
    }
  }

  // ------------------------------------------------------------ interleavings

  /** A call that has missed the cache: still fetching, or holding what it fetched. `began`
      is the event at which its check missed. */
  datatype Call = Fetching(account: Account, began: nat, since: int)
                | Holding(account: Account, began: nat, credential: Credential, produced: int)

  /** Where a cache entry came from. */
  datatype Origin = Origin(account: Account, began: nat, produced: int, stored: nat, storedAt: int)

  /** The shared state, the calls in progress by identifier, the number of events so far, and
      what those events were: the origin of each entry and the last invalidation of each email. */
  datatype System = System(cache: map<string, Entry>, now: int, calls: map<nat, Call>, events: nat,
                           origins: map<string, Origin>, invalidated: map<string, nat>)

  ghost predicate Init(s: System) {
    s.cache == map[] && s.calls == map[] && s.origins == map[] && s.invalidated == map[] && s.events == 0
  }

  ghost predicate CheckStep(s: System, s': System, call: nat, account: Account, t1: int, t2: int) {
    && s.now <= t1 <= t2
    && call !in s.calls
    && s' == s.(now := t2, events := s.events + 1,
                calls := if Hit(s.cache, account.email, t1, t2).Some? then s.calls
                         else s.calls[call := Fetching(account, s.events, t2)])
  }

  /** The fetch ends at t, having read the clock at `at`. */
  ghost predicate FetchStep(s: System, s': System, call: nat, result: Option<Credential>, at: int, t: int) {
    && call in s.calls && s.calls[call].Fetching?
    && s.now <= t && s.calls[call].since <= at <= t
    && Fetches(s.calls[call].account, at, result)
    && s' == s.(now := t, events := s.events + 1,
                calls := match result
                         case None => s.calls - {call}
                         case Some(c) =>
                           s.calls[call := Holding(s.calls[call].account, s.calls[call].began,
                                                   Named(c, s.calls[call].account), at)])
  }

  ghost predicate StoreStep(s: System, s': System, call: nat, t: int) {
    && call in s.calls && s.calls[call].Holding?
    && s.now <= t
    && var held := s.calls[call];
       var email := held.account.email;
       s' == s.(now := t, events := s.events + 1,
                cache := s.cache[email := Entry(held.credential, t)],
                origins := s.origins[email := Origin(held.account, held.began, held.produced, s.events, t)],
                calls := s.calls - {call})
  }

  ghost predicate InvalidateStep(s: System, s': System, email: string) {
    s' == s.(events := s.events + 1,
             cache := s.cache - {email},
             origins := s.origins - {email},
             invalidated := s.invalidated[email := s.events])
  }

  ghost predicate TickStep(s: System, s': System, t: int) {
    s.now <= t && s' == s.(now := t)
  }

  ghost predicate Step(s: System, s': System) {
    || (exists call, account, t1, t2 :: CheckStep(s, s', call, account, t1, t2))
    || (exists call, result, at, t :: FetchStep(s, s', call, result, at, t))
    || (exists call, t :: StoreStep(s, s', call, t))
    || (exists email :: InvalidateStep(s, s', email))
    || (exists t :: TickStep(s, s', t))
  }

  /** `Resolve` without interleaving is its three steps one after the other. */
  lemma ResolveIsItsSteps(s: System, call: nat, account: Account, t1: int, t2: int, external: External, at: int, t3: int)
    returns (missed: System, fetched: System, stored: System)
    requires call !in s.calls && s.now <= t1 <= t2 <= at <= t3
    requires Hit(s.cache, account.email, t1, t2).None? && Fetched(account, external, at).Some?
    ensures Step(s, missed) && Step(missed, fetched) && Step(fetched, stored)
    ensures stored.cache == s.cache[account.email := Entry(Named(Fetched(account, external, at).value, account), t3)]
    ensures stored.calls == s.calls
  {
    var c := Fetched(account, external, at);
    missed := s.(now := t2, events := s.events + 1, calls := s.calls[call := Fetching(account, s.events, t2)]);
    fetched := missed.(now := at, events := s.events + 2,
                       calls := missed.calls[call := Holding(account, s.events, Named(c.value, account), at)]);
    stored := fetched.(now := t3, events := s.events + 3,
                       cache := s.cache[account.email := Entry(Named(c.value, account), t3)],
                       origins := s.origins[account.email := Origin(account, s.events, at, s.events + 2, t3)],
                       calls := fetched.calls - {call});
    assert CheckStep(s, missed, call, account, t1, t2);
    assert FetchStep(missed, fetched, call, c, at, at);
    assert StoreStep(fetched, stored, call, t3);
    assert stored.calls == s.calls;
  }

  /** Time may pass by any amount, and any email be invalidated at any moment. */
  lemma TimeAndInvalidationAreFree(s: System, t: int, email: string) returns (dropped: System)
    requires s.now <= t
    ensures Step(s, s.(now := t)) && Step(s, dropped)
    ensures dropped.cache == s.cache - {email} && dropped.calls == s.calls && dropped.now == s.now
    ensures Hit(dropped.cache, email, t, t).None?
  {
    dropped := s.(events := s.events + 1, cache := s.cache - {email}, origins := s.origins - {email},
                  invalidated := s.invalidated[email := s.events]);
    assert TickStep(s, s.(now := t), t);
    assert InvalidateStep(s, dropped, email);
  }

  ghost predicate Run(trace: seq<System>) {
    && |trace| > 0 && Init(trace[0])
    && forall i :: 0 <= i < |trace| - 1 ==> Step(trace[i], trace[i + 1])
  }

  /** Manual and database credentials are given five minutes from the clock reading. */
  ghost predicate SelfDated(account: Account, c: Credential, produced: int) {
    account.source().Manual? || account.source().Database? ==> c.expiry == Some(produced + TTL)
  }

  ghost predicate CallsInv(s: System) {
    forall k :: k in s.calls ==>
      && s.calls[k].began < s.events
      && (forall email :: email in s.invalidated ==> s.invalidated[email] != s.calls[k].began)
      && (s.calls[k].Fetching? ==> s.calls[k].since <= s.now)
      && (s.calls[k].Holding? ==>
            SelfDated(s.calls[k].account, s.calls[k].credential, s.calls[k].produced) && s.calls[k].produced <= s.now)
  }

  ghost predicate EntriesInv(s: System) {
    && s.cache.Keys == s.origins.Keys
    && (forall email :: email in s.cache ==>
          var e, o := s.cache[email], s.origins[email];
          && o.account.email == email
          && e.extractedAt == o.storedAt <= s.now
          && o.began < o.stored < s.events
          && SelfDated(o.account, e.credential, o.produced) && o.produced <= o.storedAt
          && (email in s.invalidated ==> s.invalidated[email] < o.stored && s.invalidated[email] != o.began))
    && (forall email :: email in s.invalidated ==> s.invalidated[email] < s.events)
  }

  lemma CheckKeepsInv(s: System, s': System, call: nat, account: Account, t1: int, t2: int)
    requires CallsInv(s) && EntriesInv(s) && CheckStep(s, s', call, account, t1, t2)
    ensures CallsInv(s') && EntriesInv(s')
  {
    hide Hit, SelfDated;
  }

  lemma FetchKeepsInv(s: System, s': System, call: nat, result: Option<Credential>, at: int, t: int)
    requires CallsInv(s) && EntriesInv(s) && FetchStep(s, s', call, result, at, t)
    ensures CallsInv(s') && EntriesInv(s')
  {
  }

  lemma StoreKeepsInv(s: System, s': System, call: nat, t: int)
    requires CallsInv(s) && EntriesInv(s) && StoreStep(s, s', call, t)
    ensures CallsInv(s') && EntriesInv(s')
  {
    hide SelfDated;
  }

  lemma InvalidateKeepsInv(s: System, s': System, email: string)
    requires CallsInv(s) && EntriesInv(s) && InvalidateStep(s, s', email)
    ensures CallsInv(s') && EntriesInv(s')
  {
    hide SelfDated;
  }

  lemma StepKeepsInv(s: System, s': System)
    requires CallsInv(s) && EntriesInv(s) && Step(s, s')
    ensures CallsInv(s') && EntriesInv(s')
  {
    hide CheckStep, FetchStep, StoreStep, InvalidateStep, SelfDated;
    if call, account, t1, t2 :| CheckStep(s, s', call, account, t1, t2) {
      CheckKeepsInv(s, s', call, account, t1, t2);
    } else if call, result, at, t :| FetchStep(s, s', call, result, at, t) {
      FetchKeepsInv(s, s', call, result, at, t);
    } else if call, t :| StoreStep(s, s', call, t) {
      StoreKeepsInv(s, s', call, t);
    } else if email :| InvalidateStep(s, s', email) {
      InvalidateKeepsInv(s, s', email);
    } else {
      var t :| TickStep(s, s', t);
    }
  }

  lemma {:induction false} EveryRunKeepsInv(trace: seq<System>)
    requires Run(trace)
    ensures CallsInv(trace[|trace| - 1]) && EntriesInv(trace[|trace| - 1])
  {
    hide CallsInv, EntriesInv, Step;
    if |trace| == 1 {
      InitInv(trace[0]);
    } else {
      var front := trace[..|trace| - 1];
      forall i | 0 <= i < |front| - 1
        ensures Step(front[i], front[i + 1])
      {
        assert Step(trace[i], trace[i + 1]);
      }
      EveryRunKeepsInv(front);
      assert Step(trace[|trace| - 2], trace[|trace| - 2 + 1]);
      StepKeepsInv(trace[|trace| - 2], trace[|trace| - 1]);
    }
  }

  lemma InitInv(s: System)
    requires Init(s)
    ensures CallsInv(s) && EntriesInv(s)
  {
  }

  /** A cache hit at the end of any interleaving returns a credential stored under that
      email, less than five minutes after its store, with no expiry or more than a minute
      left; a manual or database credential less than four minutes after its clock reading;
      and nothing fetched before the last invalidation of the email, except by a fetch that
      was in flight at the time. */
  lemma HitIsSafe(trace: seq<System>, email: string, t1: int, t2: int)
    requires Run(trace)
    requires trace[|trace| - 1].now <= t1 <= t2
    requires Hit(trace[|trace| - 1].cache, email, t1, t2).Some?
    ensures
      var s := trace[|trace| - 1];
      var c := Hit(s.cache, email, t1, t2).value;
      && email in s.origins
      && var o := s.origins[email];
         && o.account.email == email
         && t1 - o.storedAt < 300_000_000_000
         && (c.expiry.Some? ==> c.expiry.value - t2 > 60_000_000_000)
         && (o.account.sourceName in ["manual", "database", ""] ==> t2 - o.produced < 240_000_000_000)
         && (email in s.invalidated ==>
               s.invalidated[email] < o.began || o.began < s.invalidated[email] < o.stored)
  {
    EveryRunKeepsInv(trace);
  }

  /** What a call stored is served to the next one, without a fetch, exactly while it is under five
      minutes old and has no expiry or over a minute left. */
  lemma ServedIff(s0: System, s1: System, s2: System, call: nat, next: nat, account: Account, t: int, t1: int, t2: int)
    requires StoreStep(s0, s1, call, t) && CheckStep(s1, s2, next, account, t1, t2)
    requires s0.calls[call].account.email == account.email
    ensures
      var c := s0.calls[call].credential;
      && s2.cache == s1.cache
      && (next !in s2.calls <==>
            t1 - t < 300_000_000_000 && (c.expiry.None? || c.expiry.value - t2 > 60_000_000_000))
      && (next !in s2.calls ==> Hit(s1.cache, account.email, t1, t2) == Some(c))
      && (next in s2.calls ==> s2.calls[next].Fetching? && s2.calls[next].account == account)
  {
  }

  /** The exception is real: an interleaving in which a hit returns, after an invalidation,
      what a fetch begun before it brought back. */
  lemma InFlightFetchSurvivesInvalidation(account: Account, c: Credential) returns (trace: seq<System>)
    requires account.source().OAuth? && c.expiry.None? && c.email != ""
    ensures Run(trace)
    ensures
      var s := trace[|trace| - 1];
      && Hit(s.cache, account.email, s.now, s.now) == Some(c)
      && account.email in s.invalidated && account.email in s.origins
      && s.origins[account.email].began < s.invalidated[account.email]
  {
    var s0 := System(map[], 0, map[], 0, map[], map[]);
    var s1 := s0.(events := 1, calls := map[0 := Fetching(account, 0, 0)]);
    var s2 := s1.(events := 2, invalidated := map[account.email := 1]);
    var s3 := s2.(events := 3, calls := map[0 := Holding(account, 0, c, 0)]);
    var s4 := s3.(events := 4, cache := map[account.email := Entry(c, 0)],
                  origins := map[account.email := Origin(account, 0, 0, 3, 0)], calls := map[]);
    assert CheckStep(s0, s1, 0, account, 0, 0);
    assert InvalidateStep(s1, s2, account.email);
    assert FetchStep(s2, s3, 0, Some(c), 0, 0);
    assert StoreStep(s3, s4, 0, 0);
    trace := [s0, s1, s2, s3, s4];
  }
}
