/** The JWKS cache of `internal/middleware/auth.go`: one entry per tenant with a time to live, read
    and written under a mutex that is not held while the keys are fetched. */
module Jwks {
  import opened Strings

  /** Times are nanoseconds. */
  const JWKS_CACHE_TTL: int := 300_000_000_000
  const JWKS_FETCH_TIMEOUT: int := 5_000_000_000

  datatype RsaKey = RsaKey(n: int, e: int)

  /** One key of a JWKS document; `key` is None when its modulus or exponent is not base64url. */
  datatype Jwk = Jwk(kid: string, kty: string, use: string, key: Option<RsaKey>)

  type Keys = map<string, RsaKey>

  // ---------------------------------------------------------------- which keys are kept

  predicate Usable(k: Jwk) {
    k.kty == "RSA" && k.use == "sig" && k.key.Some?
  }

  /** `doc[i]` has this id and is an RSA key for signatures whose modulus and exponent decode. */
  predicate SigningKey(doc: seq<Jwk>, kid: string, i: int) {
    && 0 <= i < |doc| && doc[i].kid == kid
    && doc[i].kty == "RSA" && doc[i].use == "sig" && doc[i].key.Some?
  }

  /** No signing key with this id comes behind it. */
  predicate LastSigningKey(doc: seq<Jwk>, kid: string, i: int) {
    SigningKey(doc, kid, i) && forall j :: i < j < |doc| ==> !SigningKey(doc, kid, j)
  }

  /** RSA signing keys by key id. */
  function UsableKeys(doc: seq<Jwk>): Keys {
    if doc == [] then map[]
    else
      var n := |doc| - 1;
      var keys := UsableKeys(doc[..n]);
      if Usable(doc[n]) then keys[doc[n].kid := doc[n].key.value] else keys
  }

  lemma {:induction false} LastIsKept(doc: seq<Jwk>, kid: string, i: int)
    requires LastSigningKey(doc, kid, i)
    ensures kid in UsableKeys(doc) && UsableKeys(doc)[kid] == doc[i].key.value
  {
    var n := |doc| - 1;
    if i == n {
    } else {
      assert !SigningKey(doc, kid, n);
      assert LastSigningKey(doc[..n], kid, i) by {
        assert forall j :: SigningKey(doc[..n], kid, j) ==> SigningKey(doc, kid, j);
      }
      LastIsKept(doc[..n], kid, i);
    }
  }

  /** A kept key is the last signing key of the document with its id. */
  lemma {:induction false} KeptKeyIsLast(doc: seq<Jwk>, kid: string) returns (i: nat)
    requires kid in UsableKeys(doc)
    ensures LastSigningKey(doc, kid, i) && UsableKeys(doc)[kid] == doc[i].key.value
  {
    var n := |doc| - 1;
    if Usable(doc[n]) && doc[n].kid == kid {
      i := n;
    } else {
      i := KeptKeyIsLast(doc[..n], kid);
      assert !SigningKey(doc, kid, n);
      assert forall j :: j != n && SigningKey(doc, kid, j) ==> SigningKey(doc[..n], kid, j);
    }
  }

  lemma {:induction false} SomeIsLast(doc: seq<Jwk>, kid: string, i: int) returns (last: int)
    requires SigningKey(doc, kid, i)
    ensures LastSigningKey(doc, kid, last)
    decreases |doc| - i
  {
    hide SigningKey;
    if j :| i < j < |doc| && SigningKey(doc, kid, j) {
      last := SomeIsLast(doc, kid, j);
    } else {
      last := i;
    }
  }

  /** The ids that are kept are those of the signing keys, whatever else the document holds under them, and
      of several keys with one id the last counts. */
  lemma KeptExactly(doc: seq<Jwk>)
    ensures forall kid :: kid in UsableKeys(doc) <==> exists i :: SigningKey(doc, kid, i)
    ensures forall kid, i :: LastSigningKey(doc, kid, i) ==>
                               kid in UsableKeys(doc) && UsableKeys(doc)[kid] == doc[i].key.value
  {
    hide UsableKeys;
    forall kid ensures kid in UsableKeys(doc) <==> exists i :: SigningKey(doc, kid, i) {
      if kid in UsableKeys(doc) { var last := KeptKeyIsLast(doc, kid); }
      if i :| SigningKey(doc, kid, i) {
        var last := SomeIsLast(doc, kid, i);
        LastIsKept(doc, kid, last);
      }
    }
    forall kid, i | LastSigningKey(doc, kid, i)
      ensures kid in UsableKeys(doc) && UsableKeys(doc)[kid] == doc[i].key.value
    {
      LastIsKept(doc, kid, i);
    }
  }

  /** The loop of `fetchJWKS` over the keys of the document. */
  method CollectKeys(doc: seq<Jwk>) returns (keys: Keys)
    ensures keys == UsableKeys(doc)
    ensures forall kid :: kid in keys <==> exists i :: SigningKey(doc, kid, i)
    ensures forall kid, i :: LastSigningKey(doc, kid, i) ==> kid in keys && keys[kid] == doc[i].key.value
  {
    keys := map[];
    for i := 0 to |doc|
      invariant keys == UsableKeys(doc[..i])
    {
      hide Usable;
      var k := doc[i];
      assert doc[..i + 1][..i] == doc[..i];
      if !Usable(k) { continue; }
      assert k.key.Some? by { KeyPresent(k); }
      keys := keys[k.kid := k.key.value];
    }
    assert doc[..|doc|] == doc;
    hide UsableKeys, SigningKey;
    KeptExactly(doc);
  }

  lemma KeyPresent(k: Jwk)
    requires Usable(k)
    ensures k.key.Some?
  {
  }

  /** An encryption key beside a signing key is not kept. */
  lemma EncryptionKeyIsNotKept(signing: RsaKey, encryption: RsaKey)
    ensures var doc := [Jwk("s1", "RSA", "sig", Some(signing)), Jwk("e1", "RSA", "enc", Some(encryption))];
            UsableKeys(doc) == map["s1" := signing]
  {
    var s, e := Jwk("s1", "RSA", "sig", Some(signing)), Jwk("e1", "RSA", "enc", Some(encryption));
    assert [s, e][..1] == [s] && [s][..0] == [];
    assert UsableKeys([s]) == map["s1" := signing];
  }

  // ---------------------------------------------------------------- the interleaved cache

  /** What the cache holds for a tenant. The last four fields record where the keys came from: when
      the fetch began and its deadline was set, when the issuer produced its answer, when the body was read and when the
      entry was stored. The program keeps only the first two. */
  datatype Entry = Entry(keys: Keys, expiresAt: int, startedAt: int, servedAt: int, readAt: int, storedAt: int)

  datatype Phase =
    | Idle
    | Looked(tenant: string, found: Option<Entry>)
    | Missed(tenant: string)
    | Fetching(tenant: string, startedAt: int)
    | Answered(tenant: string, startedAt: int, servedAt: int)
    | Read(tenant: string, keys: Keys, startedAt: int, servedAt: int, readAt: int)
    | Hit(tenant: string, entry: Entry, checkedAt: int)
    | Fetched(tenant: string, entry: Entry)
    | Failed(tenant: string)

  datatype State = State(now: int, cache: map<string, Entry>, phases: seq<Phase>)

  datatype Step =
    | Tick(dt: nat)
    | Lookup(p: nat, tenant: string)
    | Check(p: nat)
    | Begin(p: nat)
    | Answer(p: nat)
    | ReadBody(p: nat)
    | Fail(p: nat)
    | Store(p: nat)
    | Return(p: nat)

  /** The document the issuer serves for a tenant at a time. */
  type Issuer = (string, int) -> seq<Jwk>

  predicate Enabled(s: State, step: Step) {
    step.Tick? || (
      step.p < |s.phases| &&
      var ph := s.phases[step.p];
      match step
      case Lookup(_, _) => ph.Idle?
      case Check(_) => ph.Looked?
      case Begin(_) => ph.Missed?
      case Answer(_) => ph.Fetching?
      case ReadBody(_) => ph.Answered? && s.now <= ph.startedAt + JWKS_FETCH_TIMEOUT
      case Fail(_) => ph.Missed? || ph.Fetching? || ph.Answered?
      case Store(_) => ph.Read?
      case Return(_) => ph.Hit? || ph.Fetched? || ph.Failed?)
  }

  function NewEntry(ph: Phase, now: int): Entry
    requires ph.Read?
  {
    Entry(ph.keys, now + JWKS_CACHE_TTL, ph.startedAt, ph.servedAt, ph.readAt, now)
  }

  function NextPhase(issuer: Issuer, s: State, step: Step): Phase
    requires Enabled(s, step) && !step.Tick?
  {
    var ph := s.phases[step.p];
    match step
    case Lookup(_, t) => Looked(t, if t in s.cache then Some(s.cache[t]) else None)
    case Check(_) =>
      if ph.found.Some? && s.now < ph.found.value.expiresAt then Hit(ph.tenant, ph.found.value, s.now)
      else Missed(ph.tenant)
    case Begin(_) => Fetching(ph.tenant, s.now)
    case Answer(_) => Answered(ph.tenant, ph.startedAt, s.now)
    case ReadBody(_) => Read(ph.tenant, UsableKeys(issuer(ph.tenant, ph.servedAt)), ph.startedAt, ph.servedAt, s.now)
    case Fail(_) => Failed(ph.tenant)
    case Store(_) => Fetched(ph.tenant, NewEntry(ph, s.now))
    case Return(_) => Idle
  }

  function Apply(issuer: Issuer, s: State, step: Step): State
    requires Enabled(s, step)
  {
    if step.Tick? then s.(now := s.now + step.dt)
    else
      State(
        s.now,
        if step.Store? then s.cache[s.phases[step.p].tenant := NewEntry(s.phases[step.p], s.now)] else s.cache,
        s.phases[step.p := NextPhase(issuer, s, step)])
  }

  ghost predicate Run(issuer: Issuer, s: State, steps: seq<Step>, t: State)
    decreases |steps|
  {
    if steps == [] then s == t
    else Enabled(s, steps[0]) && Run(issuer, Apply(issuer, s, steps[0]), steps[1..], t)
  }

  function Start(now: int, n: nat): State {
    State(now, map[], seq(n, _ => Idle))
  }

  // ---------------------------------------------------------------- where keys come from

  /** The keys are those the issuer served for this tenant, within the fetch window before the store. */
  ghost predicate Genuine(issuer: Issuer, tenant: string, e: Entry, now: int) {
    && e.keys == UsableKeys(issuer(tenant, e.servedAt))
    && e.startedAt <= e.servedAt <= e.readAt <= e.startedAt + JWKS_FETCH_TIMEOUT
    && e.readAt <= e.storedAt <= now
    && e.expiresAt == e.storedAt + JWKS_CACHE_TTL
  }

  ghost predicate PhaseOk(issuer: Issuer, ph: Phase, now: int) {
    match ph
    case Looked(t, Some(e)) => Genuine(issuer, t, e, now)
    case Fetching(_, started) => started <= now
    case Answered(_, started, served) => started <= served <= now
    case Read(t, keys, started, served, read) =>
      keys == UsableKeys(issuer(t, served)) && started <= served <= read <= started + JWKS_FETCH_TIMEOUT && read <= now
    case Hit(t, e, checked) => Genuine(issuer, t, e, now) && checked < e.expiresAt && e.storedAt <= checked <= now
    case Fetched(t, e) => Genuine(issuer, t, e, now)
    case _ => true
  }

  ghost predicate Consistent(issuer: Issuer, s: State) {
    && (forall t :: t in s.cache ==> Genuine(issuer, t, s.cache[t], s.now))
    && (forall p :: 0 <= p < |s.phases| ==> PhaseOk(issuer, s.phases[p], s.now))
  }

  lemma PhaseAges(issuer: Issuer, ph: Phase, now: int, later: int)
    requires PhaseOk(issuer, ph, now) && now <= later
    ensures PhaseOk(issuer, ph, later)
  {
  }

  lemma PhaseStep(issuer: Issuer, s: State, step: Step)
    requires Consistent(issuer, s) && Enabled(s, step) && !step.Tick?
    ensures PhaseOk(issuer, NextPhase(issuer, s, step), s.now)
  {
    assert PhaseOk(issuer, s.phases[step.p], s.now);
  }

  lemma StoredIsGenuine(issuer: Issuer, s: State, p: nat)
    requires Consistent(issuer, s) && Enabled(s, Store(p))
    ensures Genuine(issuer, s.phases[p].tenant, NewEntry(s.phases[p], s.now), s.now)
  {
    assert PhaseOk(issuer, s.phases[p], s.now);
  }

  lemma CacheStep(issuer: Issuer, s: State, step: Step)
    requires Consistent(issuer, s) && Enabled(s, step) && !step.Tick?
    ensures var t := Apply(issuer, s, step); forall x :: x in t.cache ==> Genuine(issuer, x, t.cache[x], t.now)
  {
    if step.Store? { StoredIsGenuine(issuer, s, step.p); }
    hide PhaseOk, NextPhase, Genuine;
  }

  lemma ConsistentStep(issuer: Issuer, s: State, step: Step)
    requires Consistent(issuer, s) && Enabled(s, step)
    ensures Consistent(issuer, Apply(issuer, s, step))
  {
    assert step.Tick? || step.p < |s.phases|;
    hide PhaseOk, NextPhase, Enabled, NewEntry;
    var t := Apply(issuer, s, step);
    if step.Tick? {
      forall p | 0 <= p < |t.phases| ensures PhaseOk(issuer, t.phases[p], t.now) {
        PhaseAges(issuer, s.phases[p], s.now, t.now);
      }
    } else {
      PhaseStep(issuer, s, step);
      CacheStep(issuer, s, step);
    }
  }

  lemma {:induction false} ConsistentRun(issuer: Issuer, s: State, steps: seq<Step>, t: State)
    requires Consistent(issuer, s) && Run(issuer, s, steps, t)
    ensures Consistent(issuer, t)
    decreases |steps|
  {
    hide Consistent, Apply, Enabled;
    if steps == [] {
    } else {
      ConsistentStep(issuer, s, steps[0]);
      ConsistentRun(issuer, Apply(issuer, s, steps[0]), steps[1..], t);
    }
  }

  /** In every interleaving of concurrent fetches, including an older fetch overwriting a newer one:
      a cache hit for a tenant returns keys the issuer served for that tenant, less than the time to
      live of five minutes plus the fetch timeout of five seconds plus the local time between reading and
      storing ago. */
  lemma HitIsFreshEnough(issuer: Issuer, now: int, n: nat, steps: seq<Step>, s: State, p: nat)
    requires Run(issuer, Start(now, n), steps, s) && p < |s.phases| && s.phases[p].Hit?
    ensures var Hit(tenant, e, checkedAt) := s.phases[p];
            && e.keys == UsableKeys(issuer(tenant, e.servedAt))
            && 0 <= checkedAt - e.servedAt < 305_000_000_000 + (e.storedAt - e.readAt)
            && checkedAt - e.storedAt < 300_000_000_000 && e.readAt - e.startedAt <= 5_000_000_000
  {
    ConsistentRun(issuer, Start(now, n), steps, s);
    assert PhaseOk(issuer, s.phases[p], s.now);
  }

  /** Keys that were just fetched were served for the tenant after the request was sent. */
  lemma FetchedIsGenuine(issuer: Issuer, now: int, n: nat, steps: seq<Step>, s: State, p: nat)
    requires Run(issuer, Start(now, n), steps, s) && p < |s.phases| && s.phases[p].Fetched?
    ensures var Fetched(tenant, e) := s.phases[p];
            && e.keys == UsableKeys(issuer(tenant, e.servedAt))
            && e.startedAt <= e.servedAt && e.storedAt - e.servedAt <= JWKS_FETCH_TIMEOUT + (e.storedAt - e.readAt)
  {
    ConsistentRun(issuer, Start(now, n), steps, s);
    assert PhaseOk(issuer, s.phases[p], s.now);
  }

  /** The expiry of a tenant's entry never moves back, whoever stores it. */
  lemma {:induction false} ExpiryNeverMovesBack(issuer: Issuer, s: State, steps: seq<Step>, t: State, tenant: string)
    requires Consistent(issuer, s) && Run(issuer, s, steps, t) && tenant in s.cache
    ensures tenant in t.cache && s.cache[tenant].expiresAt <= t.cache[tenant].expiresAt
    decreases |steps|
  {
    if steps == [] {
    } else {
      var u := Apply(issuer, s, steps[0]);
      ConsistentStep(issuer, s, steps[0]);
      ExpiryStep(issuer, s, steps[0], tenant);
      hide Consistent, Apply, Enabled;
      ExpiryNeverMovesBack(issuer, u, steps[1..], t, tenant);
    }
  }

  lemma ExpiryStep(issuer: Issuer, s: State, step: Step, tenant: string)
    requires Consistent(issuer, s) && Enabled(s, step) && tenant in s.cache
    ensures var u := Apply(issuer, s, step);
            tenant in u.cache && s.cache[tenant].expiresAt <= u.cache[tenant].expiresAt
  {
    assert Genuine(issuer, tenant, s.cache[tenant], s.now);
  }

  // ---------------------------------------------------------------- when the cache never goes back

  /** The process has begun to fetch for the tenant and has not stored yet. */
  predicate InFetch(ph: Phase, tenant: string) {
    (ph.Fetching? || ph.Answered? || ph.Read?) && ph.tenant == tenant
  }

  /** No two processes fetch for the tenant at the same time. */
  ghost predicate Solo(s: State, tenant: string) {
    forall p, q ::
      0 <= p < |s.phases| && 0 <= q < |s.phases| && InFetch(s.phases[p], tenant) && InFetch(s.phases[q], tenant) ==>
        p == q
  }

  /** That holds before every step of a run and at its end. */
  ghost predicate SoloRun(issuer: Issuer, s: State, steps: seq<Step>, tenant: string)
    decreases |steps|
  {
    Solo(s, tenant) &&
    (steps == [] || (Enabled(s, steps[0]) && SoloRun(issuer, Apply(issuer, s, steps[0]), steps[1..], tenant)))
  }

  /** A fetch that is under way began no earlier than the cached keys were served. */
  ghost predicate Ahead(s: State, tenant: string) {
    tenant in s.cache ==>
      forall p :: 0 <= p < |s.phases| && InFetch(s.phases[p], tenant) ==>
                    s.cache[tenant].servedAt <= s.phases[p].startedAt
  }

  /** The tenant's keys in `t` were served no earlier than those in `s`. */
  ghost predicate NotOlder(s: State, t: State, tenant: string) {
    tenant in s.cache ==> tenant in t.cache && s.cache[tenant].servedAt <= t.cache[tenant].servedAt
  }

  lemma AheadStep(issuer: Issuer, s: State, step: Step, tenant: string)
    requires Consistent(issuer, s) && Enabled(s, step) && Solo(s, tenant) && Ahead(s, tenant)
    ensures Ahead(Apply(issuer, s, step), tenant) && NotOlder(s, Apply(issuer, s, step), tenant)
  {
    if !step.Tick? {
      assert PhaseOk(issuer, s.phases[step.p], s.now);
      if tenant in s.cache { assert Genuine(issuer, tenant, s.cache[tenant], s.now); }
      hide Consistent, Genuine, PhaseOk, UsableKeys;
      if step.Store? && s.phases[step.p].tenant == tenant { OthersIdle(s, step.p, tenant); }
    }
  }

  lemma OthersIdle(s: State, p: nat, tenant: string)
    requires p < |s.phases| && InFetch(s.phases[p], tenant) && Solo(s, tenant)
    ensures forall q :: 0 <= q < |s.phases| && q != p ==> !InFetch(s.phases[q], tenant)
  {
  }

  /** While no two processes fetch for a tenant at the same time, its cached keys never become older. */
  lemma {:induction false} SoloNeverOlder(issuer: Issuer, s: State, steps: seq<Step>, t: State, tenant: string)
    requires Consistent(issuer, s) && Ahead(s, tenant) && Run(issuer, s, steps, t) && SoloRun(issuer, s, steps, tenant)
    ensures Ahead(t, tenant) && NotOlder(s, t, tenant)
    decreases |steps|
  {
    if steps == [] {
    } else {
      AheadStep(issuer, s, steps[0], tenant);
      ConsistentStep(issuer, s, steps[0]);
      hide Consistent, Apply, Enabled, Ahead, Solo;
      SoloNeverOlder(issuer, Apply(issuer, s, steps[0]), steps[1..], t, tenant);
    }
  }

  /** The same between any two states of a program in which that is kept from its start. */
  lemma SoloProgramNeverOlder(issuer: Issuer, now: int, n: nat, a: seq<Step>, s: State, b: seq<Step>, t: State,
      tenant: string)
    requires Run(issuer, Start(now, n), a, s) && SoloRun(issuer, Start(now, n), a, tenant)
    requires Run(issuer, s, b, t) && SoloRun(issuer, s, b, tenant)
    ensures NotOlder(s, t, tenant)
  {
    hide Run, SoloRun, Apply, Enabled;
    SoloNeverOlder(issuer, Start(now, n), a, s, tenant);
    ConsistentRun(issuer, Start(now, n), a, s);
    SoloNeverOlder(issuer, s, b, t, tenant);
  }

  lemma {:induction false} AloneIsSolo(issuer: Issuer, s: State, steps: seq<Step>, t: State, tenant: string)
    requires |s.phases| <= 1 && Run(issuer, s, steps, t)
    ensures SoloRun(issuer, s, steps, tenant) && |t.phases| <= 1
    decreases |steps|
  {
    if steps == [] {
    } else {
      AloneIsSolo(issuer, Apply(issuer, s, steps[0]), steps[1..], t, tenant);
    }
  }

  // ---------------------------------------------------------------- one request at a time

  /** What the fetch of a request did: it failed, or it began at `startedAt`, the issuer answered at
      `servedAt` and the body was read at `readAt`, in time. */
  datatype Fetch = NoAnswer | Answer200(doc: seq<Jwk>, startedAt: int, servedAt: int, readAt: int)

  /** What one call returns and makes of the cache; `checkAt` and `storeAt` are its two clock readings. */
  ghost predicate Fetches(before: map<string, Entry>, tenant: string, checkAt: int, fetch: Fetch, storeAt: int,
                          keys: Option<Keys>, after: map<string, Entry>)
  {
    if tenant in before && checkAt < before[tenant].expiresAt then
      keys == Some(before[tenant].keys) && after == before
    else
      match fetch
      case NoAnswer => keys == None && after == before
      case Answer200(doc, started, served, read) =>
        && keys == Some(UsableKeys(doc))
        && after == before[tenant := Entry(UsableKeys(doc), storeAt + JWKS_CACHE_TTL, started, served, read, storeAt)]
  }

  class JwksCache {
    var cache: map<string, Entry>

    constructor ()
      ensures cache == map[]
    {
      cache := map[];
    }

    /** `fetchJWKS`. */
    method FetchJWKS(tenant: string, checkAt: int, fetch: Fetch, storeAt: int) returns (keys: Option<Keys>)
      modifies this
      ensures Fetches(old(cache), tenant, checkAt, fetch, storeAt, keys, cache)
      ensures fetch.Answer200? && !(tenant in old(cache) && checkAt < old(cache)[tenant].expiresAt) ==>
                && keys.Some? && tenant in cache && keys.value == cache[tenant].keys
                && forall kid :: kid in keys.value <==> exists i :: SigningKey(fetch.doc, kid, i)
    {
      if tenant in cache && checkAt < cache[tenant].expiresAt {
        return Some(cache[tenant].keys);
      }
      match fetch {
        case NoAnswer => keys := None;
        case Answer200(doc, started, served, read) =>
          var found := CollectKeys(doc);
          cache := cache[tenant := Entry(found, storeAt + JWKS_CACHE_TTL, started, served, read, storeAt)];
          keys := Some(found);
      }
    }
  }

  // ---------------------------------------------------------------- runs that reach the limits

  lemma {:induction false} RunConcat(issuer: Issuer, s: State, a: seq<Step>, t: State, b: seq<Step>, u: State)
    requires Run(issuer, s, a, t) && Run(issuer, t, b, u)
    ensures Run(issuer, s, a + b, u)
    decreases |a|
  {
    hide Apply, Enabled;
    if a == [] {
      assert a + b == b;
    } else {
      assert (a + b)[0] == a[0] && (a + b)[1..] == a[1..] + b;
      RunConcat(issuer, Apply(issuer, s, a[0]), a[1..], t, b, u);
    }
  }

  /** A run that goes on with one more step, into the state `t`. */
  lemma Then(issuer: Issuer, start: State, steps: seq<Step>, s: State, step: Step, t: State) returns (longer: seq<Step>)
    requires Run(issuer, start, steps, s) && Enabled(s, step) && Apply(issuer, s, step) == t
    ensures longer == steps + [step] && Run(issuer, start, longer, t)
  {
    assert [step][1..] == [];
    assert Run(issuer, s, [step], t);
    hide Apply, Enabled, Run;
    RunConcat(issuer, start, steps, s, [step], t);
    longer := steps + [step];
  }

  lemma NoSteps(issuer: Issuer, s: State)
    ensures Run(issuer, s, [], s)
  {
  }

  /** The issuer answered with the document it served then, and the clock readings are in order. */
  ghost predicate Timely(issuer: Issuer, tenant: string, checkAt: int, fetch: Fetch, storeAt: int) {
    fetch.Answer200? ==>
      && fetch.doc == issuer(tenant, fetch.servedAt)
      && checkAt <= fetch.startedAt <= fetch.servedAt <= fetch.readAt <= storeAt
      && fetch.readAt <= fetch.startedAt + JWKS_FETCH_TIMEOUT
  }

  /** The keys a process is about to return. */
  function KeysOf(ph: Phase): Option<Keys> {
    match ph
    case Hit(_, e, _) => Some(e.keys)
    case Fetched(_, e) => Some(e.keys)
    case _ => None
  }

  predicate Finished(ph: Phase) { ph.Hit? || ph.Fetched? || ph.Failed? }

  /** A call of the class is a run of one process of the interleaved cache, with the same keys and the
      same cache at its end. */
  lemma OneFetchIsARun(issuer: Issuer, before: map<string, Entry>, tenant: string, checkAt: int, fetch: Fetch,
      storeAt: int,
                       keys: Option<Keys>, after: map<string, Entry>)
    returns (steps: seq<Step>, now: int, ph: Phase)
    requires Fetches(before, tenant, checkAt, fetch, storeAt, keys, after)
        && Timely(issuer, tenant, checkAt, fetch, storeAt)
    ensures Run(issuer, State(checkAt, before, [Idle]), steps, State(now, after, [ph])) && Finished(ph)
        && KeysOf(ph) == keys
  {
    hide UsableKeys, Run;
    var start := State(checkAt, before, [Idle]);
    var found := if tenant in before then Some(before[tenant]) else None;
    var s1 := State(checkAt, before, [Looked(tenant, found)]);
    NoSteps(issuer, start);
    steps := Then(issuer, start, [], start, Lookup(0, tenant), s1);
    now := checkAt;
    if found.Some? && checkAt < found.value.expiresAt {
      ph := Hit(tenant, found.value, checkAt);
      steps := Then(issuer, start, steps, s1, Check(0), State(checkAt, before, [ph]));
    } else {
      var s2 := State(checkAt, before, [Missed(tenant)]);
      steps := Then(issuer, start, steps, s1, Check(0), s2);
      if fetch.NoAnswer? {
        ph := Failed(tenant);
        steps := Then(issuer, start, steps, s2, Fail(0), State(checkAt, before, [ph]));
      } else {
        now := storeAt;
        steps, ph := StoreIsARun(issuer, start, steps, s2, tenant, fetch, storeAt);
      }
    }
  }

  lemma StoreIsARun(issuer: Issuer, start: State, steps: seq<Step>, s: State, tenant: string, fetch: Fetch,
      storeAt: int)
    returns (longer: seq<Step>, ph: Phase)
    requires s.phases == [Missed(tenant)] && fetch.Answer200? && Timely(issuer, tenant, s.now, fetch, storeAt)
    requires Run(issuer, start, steps, s)
    ensures ph.Fetched?
    ensures ph.entry == Entry(UsableKeys(fetch.doc), storeAt + JWKS_CACHE_TTL,
                              fetch.startedAt, fetch.servedAt, fetch.readAt, storeAt)
    ensures Run(issuer, start, longer, State(storeAt, s.cache[tenant := ph.entry], [ph]))
  {
    hide UsableKeys, Run;
    var at, served, read, keys, c := fetch.startedAt, fetch.servedAt, fetch.readAt, UsableKeys(fetch.doc), s.cache;
    var s0, s1 := State(at, c, [Missed(tenant)]), State(at, c, [Fetching(tenant, at)]);
    var s2, s3 := State(served, c, [Fetching(tenant, at)]), State(served, c, [Answered(tenant, at, served)]);
    var s4 := State(read, c, [Answered(tenant, at, served)]);
    var s5 := State(read, c, [Read(tenant, keys, at, served, read)]);
    var s6 := State(storeAt, c, [Read(tenant, keys, at, served, read)]);
    longer := Then(issuer, start, steps, s, Tick(at - s.now), s0);
    longer := Then(issuer, start, longer, s0, Begin(0), s1);
    longer := Then(issuer, start, longer, s1, Tick(served - at), s2);
    longer := Then(issuer, start, longer, s2, Answer(0), s3);
    longer := Then(issuer, start, longer, s3, Tick(read - served), s4);
    longer := Then(issuer, start, longer, s4, ReadBody(0), s5);
    longer := Then(issuer, start, longer, s5, Tick(storeAt - read), s6);
    ph := Fetched(tenant, Entry(keys, storeAt + JWKS_CACHE_TTL, at, served, read, storeAt));
    longer := Then(issuer, start, longer, s6, Store(0), State(storeAt, c[tenant := ph.entry], [ph]));
  }

  /** The staleness bound cannot be lowered: whatever the local delay between reading and storing, some
      run ends in a hit that is one nanosecond short of it. */
  lemma StalenessBoundIsReached(issuer: Issuer, delay: nat) returns (steps: seq<Step>, s: State)
    ensures Run(issuer, Start(0, 1), steps, s) && |s.phases| == 1 && s.phases[0].Hit?
    ensures var Hit(_, e, checkedAt) := s.phases[0];
            && e.storedAt - e.readAt == delay
            && checkedAt - e.servedAt == 305_000_000_000 + (e.storedAt - e.readAt) - 1
  {
    var start := Start(0, 1);
    assert start == State(0, map[], [Idle]);
    hide UsableKeys, Run, Start;
    var stored := JWKS_FETCH_TIMEOUT + delay;
    var fetch := Answer200(issuer("t", 0), 0, 0, JWKS_FETCH_TIMEOUT);
    var s0, s1 := State(0, map[], [Looked("t", None)]), State(0, map[], [Missed("t")]);
    var ph;
    NoSteps(issuer, start);
    steps := Then(issuer, start, [], start, Lookup(0, "t"), s0);
    steps := Then(issuer, start, steps, s0, Check(0), s1);
    steps, ph := StoreIsARun(issuer, start, steps, s1, "t", fetch, stored);
    var e, late := ph.entry, stored + JWKS_CACHE_TTL - 1;
    var cache := map["t" := e];
    assert s1.cache["t" := e] == cache;
    var s2, s3, s4 := State(stored, cache, [ph]), State(stored, cache, [Idle]), State(late, cache, [Idle]);
    var s5 := State(late, cache, [Looked("t", Some(e))]);
    steps := Then(issuer, start, steps, s2, Return(0), s3);
    steps := Then(issuer, start, steps, s3, Tick(JWKS_CACHE_TTL - 1), s4);
    steps := Then(issuer, start, steps, s4, Lookup(0, "t"), s5);
    s := State(late, cache, [Hit("t", e, late)]);
    steps := Then(issuer, start, steps, s5, Check(0), s);
  }

  // ---------------------------------------------------------------- how the cache goes back

  /** Two processes at `a` and `b`, and `m` idle ones. */
  function Two(now: int, cache: map<string, Entry>, a: Phase, b: Phase, m: nat): State {
    State(now, cache, Row(a, b, m))
  }

  function Row(a: Phase, b: Phase, m: nat): seq<Phase> {
    [a, b] + seq(m, _ => Idle)
  }

  /** The same, told from process `i` of the two. */
  function PairRow(i: nat, mine: Phase, other: Phase, m: nat): seq<Phase> {
    if i == 0 then Row(mine, other, m) else Row(other, mine, m)
  }

  function Pair(now: int, cache: map<string, Entry>, i: nat, mine: Phase, other: Phase, m: nat): State {
    State(now, cache, PairRow(i, mine, other, m))
  }

  lemma PairUpdate(i: nat, mine: Phase, other: Phase, m: nat, next: Phase)
    requires i < 2
    ensures var row := PairRow(i, mine, other, m);
            i < |row| && row[i] == mine && row[i := next] == PairRow(i, next, other, m)
  {
    var rest := seq(m, _ => Idle);
    assert ([mine, other] + rest)[0 := next] == [next, other] + rest;
    assert ([other, mine] + rest)[1 := next] == [other, next] + rest;
  }

  /** One step of process `i`. */
  lemma PairThen(issuer: Issuer, start: State, steps: seq<Step>, now: int, cache: map<string, Entry>, i: nat,
                 mine: Phase, other: Phase, m: nat, step: Step, after: map<string, Entry>, next: Phase)
    returns (longer: seq<Step>)
    requires i < 2 && !step.Tick? && step.p == i && Run(issuer, start, steps, Pair(now, cache, i, mine, other, m))
    requires var alone := State(now, cache, if i == 0 then [mine] else [other, mine]);
             && Enabled(alone, step) && next == NextPhase(issuer, alone, step)
             && after == if step.Store? then cache[mine.tenant := NewEntry(mine, now)] else cache
    ensures Run(issuer, start, longer, Pair(now, after, i, next, other, m))
  {
    hide Run, PairRow, UsableKeys, NewEntry;
    var s := Pair(now, cache, i, mine, other, m);
    PairUpdate(i, mine, other, m, next);
    assert Enabled(s, step) && NextPhase(issuer, s, step) == next;
    longer := Then(issuer, start, steps, s, step, Pair(now, after, i, next, other, m));
  }

  /** Process `i` of the two misses and begins to fetch; `other` is the other one. */
  lemma BeginsToFetch(issuer: Issuer, start: State, before: seq<Step>, now: int, i: nat, other: Phase, m: nat)
    returns (steps: seq<Step>)
    requires i < 2 && Run(issuer, start, before, Pair(now, map[], i, Idle, other, m))
    ensures Run(issuer, start, steps, Pair(now, map[], i, Fetching("t", now), other, m))
  {
    hide UsableKeys, Run;
    var looked, missed := Looked("t", None), Missed("t");
    steps := PairThen(issuer, start, before, now, map[], i, Idle, other, m, Lookup(i, "t"), map[], looked);
    steps := PairThen(issuer, start, steps, now, map[], i, looked, other, m, Check(i), map[], missed);
    steps := PairThen(issuer, start, steps, now, map[], i, missed, other, m, Begin(i), map[], Fetching("t", now));
  }

  /** Its answer is served and read at once. */
  lemma Reads(issuer: Issuer, start: State, before: seq<Step>, now: int, i: nat, began: int, other: Phase, m: nat,
      read: Phase)
    returns (steps: seq<Step>)
    requires i < 2 && now <= began + JWKS_FETCH_TIMEOUT
    requires Run(issuer, start, before, Pair(now, map[], i, Fetching("t", began), other, m))
    requires read == Read("t", UsableKeys(issuer("t", now)), began, now, now)
    ensures Run(issuer, start, steps, Pair(now, map[], i, read, other, m))
  {
    hide UsableKeys, Run;
    var answered := Answered("t", began, now);
    steps := PairThen(issuer, start, before, now, map[], i, Fetching("t", began), other, m, Answer(i), map[], answered);
    steps := PairThen(issuer, start, steps, now, map[], i, answered, other, m, ReadBody(i), map[], read);
  }

  /** Two requests miss together; the earlier answer is read and not stored yet, the later one is stored. */
  lemma NewerStores(issuer: Issuer, now: int, m: nat, read0: Phase, e: Entry) returns (steps: seq<Step>)
    requires read0 == Read("t", UsableKeys(issuer("t", now)), now, now, now)
    requires e == Entry(UsableKeys(issuer("t", now + 1)), now + 1 + JWKS_CACHE_TTL, now, now + 1, now + 1, now + 1)
    ensures Run(issuer, Start(now, m + 2), steps, Two(now + 1, map["t" := e], read0, Fetched("t", e), m))
  {
    var start, late, f := Start(now, m + 2), now + 1, Fetching("t", now);
    assert start == Two(now, map[], Idle, Idle, m);
    hide UsableKeys, Run, Start, Apply, Row;
    var read1 := Read("t", UsableKeys(issuer("t", late)), now, late, late);
    NoSteps(issuer, start);
    steps := BeginsToFetch(issuer, start, [], now, 0, Idle, m);
    steps := Reads(issuer, start, steps, now, 0, now, Idle, m, read0);
    steps := BeginsToFetch(issuer, start, steps, now, 1, read0, m);
    TwoTick(issuer, now, map[], read0, f, m);
    steps := Then(issuer, start, steps, Two(now, map[], read0, f, m), Tick(1), Two(late, map[], read0, f, m));
    steps := Reads(issuer, start, steps, late, 1, now, read0, m, read1);
    steps := PairThen(issuer, start, steps, late, map[], 1, read1, read0, m, Store(1), map["t" := e], Fetched("t", e));
  }

  lemma TwoTick(issuer: Issuer, now: int, cache: map<string, Entry>, a: Phase, b: Phase, m: nat)
    ensures Apply(issuer, Two(now, cache, a, b, m), Tick(1)) == Two(now + 1, cache, a, b, m)
  {
    hide Row;
  }

  /** With two processes or more the cache can go back in time, whatever the issuer serves: the later
      answer is stored first and the earlier one overwrites it. */
  lemma OlderFetchMayOverwriteNewer(issuer: Issuer, now: int, n: nat)
    returns (a: seq<Step>, s: State, b: seq<Step>, t: State)
    requires n > 1
    ensures Run(issuer, Start(now, n), a, s) && Run(issuer, s, b, t)
    ensures "t" in s.cache && "t" in t.cache && t.cache["t"].servedAt < s.cache["t"].servedAt
  {
    hide UsableKeys, Run, Apply;
    var m, late := n - 2, now + 1;
    var read0 := Read("t", UsableKeys(issuer("t", now)), now, now, now);
    var e := Entry(UsableKeys(issuer("t", late)), late + JWKS_CACHE_TTL, now, late, late, late);
    var e0 := NewEntry(read0, late);
    var cache := map["t" := e];
    a := NewerStores(issuer, now, m, read0, e);
    var stored, overwritten := Fetched("t", e), cache["t" := e0];
    s := Two(late, cache, read0, stored, m);
    t := Two(late, overwritten, Fetched("t", e0), stored, m);
    NoSteps(issuer, s);
    b := PairThen(issuer, s, [], late, cache, 0, read0, stored, m, Store(0), overwritten, Fetched("t", e0));
  }

  /** The keys of no tenant ever become older in a program of `n` processes. */
  ghost predicate NeverOlder(issuer: Issuer, now: int, n: nat) {
    forall a, s, b, t, tenant :: Run(issuer, Start(now, n), a, s) && Run(issuer, s, b, t) ==> NotOlder(s, t, tenant)
  }

  /** Cached keys never become older exactly when there is no second process to fetch them. */
  lemma NeverOlderIff(issuer: Issuer, now: int, n: nat)
    ensures NeverOlder(issuer, now, n) <==> n <= 1
  {
    hide Run, SoloRun;
    if n <= 1 {
      forall a, s, b, t, tenant | Run(issuer, Start(now, n), a, s) && Run(issuer, s, b, t)
        ensures NotOlder(s, t, tenant)
      {
        AloneIsSolo(issuer, Start(now, n), a, s, tenant);
        AloneIsSolo(issuer, s, b, t, tenant);
        SoloProgramNeverOlder(issuer, now, n, a, s, b, t, tenant);
      }
    } else {
      var a, s, b, t := OlderFetchMayOverwriteNewer(issuer, now, n);
      assert !NotOlder(s, t, "t");
    }
  }
}
