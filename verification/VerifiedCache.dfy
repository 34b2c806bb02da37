/** The verified-identity cache and its invalidation tokens (`cache.go`).

    Times are natural numbers with 0 for the zero time. A token stands for one shared invalidation flag: a
    copy of an entry holds the entry's token, and the set of invalidated tokens holds the flags that are set. */
module VerifiedCache {
  import opened Wrappers

  const CAPACITY: nat := 1024

  /** Every manager has a private namespace; direct calls use the standalone one. */
  datatype Namespace = Standalone | Private(manager: nat)

  datatype Key = Key(domain: string, namespace: Namespace)

  datatype CachedState = Fresh | Cached | Refreshed

  datatype VerifiedDomain = VerifiedDomain(
    domain: string,
    acquiredAt: nat,
    expiry: nat,
    dnsTTL: int,
    status: nat,
    cachedState: CachedState,
    token: Option<nat>)

  datatype Cache = Cache(entries: map<Key, VerifiedDomain>, invalidated: set<nat>, issued: nat)

  const EMPTY := Cache(map[], {}, 0)

  predicate Expired(vd: VerifiedDomain, now: nat) {
    vd.expiry != 0 && now >= vd.expiry
  }

  function Mark(c: Cache, token: Option<nat>): Cache {
    if token.Some? then c.(invalidated := c.invalidated + {token.value}) else c
  }

  /** Removes an entry and sets its flag. */
  function Drop(c: Cache, key: Key): Cache {
    if key in c.entries then Mark(c, c.entries[key].token).(entries := c.entries - {key}) else c
  }

  /** Evidence that cannot be stored: unbounded, expired or with a zero TTL. */
  predicate Unstorable(vd: VerifiedDomain, now: nat) {
    vd.expiry == 0 || now >= vd.expiry || vd.dnsTTL <= 0
  }

  predicate Stale(c: Cache, vd: VerifiedDomain) {
    vd.token.Some? && vd.token.value in c.invalidated
  }

  predicate OlderThanCurrent(c: Cache, key: Key, vd: VerifiedDomain) {
    key in c.entries && vd.acquiredAt != 0 && vd.acquiredAt < c.entries[key].acquiredAt
  }

  predicate NeedsRoom(c: Cache, key: Key) {
    key !in c.entries && |c.entries| >= CAPACITY
  }

  function Tokened(c: Cache, vd: VerifiedDomain): VerifiedDomain {
    if vd.token.None? then vd.(token := Some(c.issued)) else vd
  }

  /** Stores evidence, replacing the current entry or displacing a victim if the cache is full. */
  function Store(c: Cache, key: Key, vd: VerifiedDomain, victim: Key): Cache {
    var stored := Tokened(c, vd);
    var issued := if vd.token.None? then c.issued + 1 else c.issued;
    var marked := if key in c.entries && c.entries[key].token != stored.token then Mark(c, c.entries[key].token) else c;
    var room := if NeedsRoom(c, key) then Drop(marked, victim) else marked;
    Cache(room.entries[key := stored], room.invalidated, issued)
  }

  function AfterPut(c: Cache, vd: VerifiedDomain, namespace: Namespace, now: nat, victim: Key): Cache {
    var key := Key(vd.domain, namespace);
    if vd.domain == "" || Stale(c, vd) || OlderThanCurrent(c, key, vd) then c
    else if Unstorable(vd, now) then
      if namespace.Private? && vd.acquiredAt != 0 then Drop(c, key) else c
    else Store(c, key, vd, victim)
  }

  /** The write-locked part of a lookup that found an expired entry. */
  function AfterReap(c: Cache, key: Key, now: nat): Cache {
    if key in c.entries && !Expired(c.entries[key], now) then c else Drop(c, key)
  }

  datatype CacheStep =
    | Put(vd: VerifiedDomain, namespace: Namespace, now: nat, victim: Key)
    | Evict(key: Key)
    | Reap(key: Key, reapedAt: nat)

  /** Tokens come from the cache, and a victim is some entry of a full cache. */
  predicate Enabled(c: Cache, step: CacheStep) {
    step.Put? ==>
      && (step.vd.token.Some? ==> step.vd.token.value < c.issued)
      && (NeedsRoom(c, Key(step.vd.domain, step.namespace)) ==> step.victim in c.entries)
  }

  function Apply(c: Cache, step: CacheStep): Cache {
    match step
    case Put(vd, namespace, now, victim) => AfterPut(c, vd, namespace, now, victim)
    case Evict(key) => Drop(c, key)
    case Reap(key, now) => AfterReap(c, key, now)
  }

  // ---------------------------------------------------------------------------------------------
  // The token fence

  /** The entry at `key` holds `token`. */
  predicate Attached(c: Cache, key: Key, token: nat) {
    key in c.entries && c.entries[key].token == Some(token)
  }

  ghost predicate EntriesAreTokened(c: Cache) {
    forall key | key in c.entries ::
      && c.entries[key].token.Some? && c.entries[key].token.value < c.issued
      && c.entries[key].domain == key.domain && key.domain != ""
      && c.entries[key].expiry != 0 && c.entries[key].dnsTTL > 0
  }

  /** Every token ever issued is attached to a live entry or set. */
  ghost predicate TokensAreAccountedFor(c: Cache) {
    forall t: nat | t < c.issued :: t in c.invalidated || exists key :: Attached(c, key, t)
  }

  ghost predicate CacheInv(c: Cache) {
    && |c.entries| <= CAPACITY
    && EntriesAreTokened(c)
    && TokensAreAccountedFor(c)
    && forall t | t in c.invalidated :: t < c.issued
  }

  /** Set flags stay set, and an entry keeps its token or has it set. */
  ghost predicate KeepsFlags(c: Cache, d: Cache) {
    && c.invalidated <= d.invalidated
    && c.issued <= d.issued
    && forall key, t | Attached(c, key, t) :: Attached(d, key, t) || t in d.invalidated
  }

  /** What one step keeps; moreover a set token is attached nowhere new. */
  ghost predicate Fenced(c: Cache, d: Cache) {
    && KeepsFlags(c, d)
    && forall key, t | Attached(d, key, t) && t in c.invalidated :: Attached(c, key, t)
  }

  lemma DropKeepsOthers(c: Cache, key: Key)
    ensures var d := Drop(c, key);
            && key !in d.entries
            && (forall k | k != key :: k in c.entries <==> k in d.entries)
            && (forall k | k != key && k in c.entries :: d.entries[k] == c.entries[k])
            && |d.entries| == if key in c.entries then |c.entries| - 1 else |c.entries|
  {
    var d := Drop(c, key);
    if key in c.entries {
      assert c.entries.Keys == d.entries.Keys + {key};
      assert |c.entries.Keys| == |d.entries.Keys| + 1;
    }
  }

  lemma DropAccountsForTokens(c: Cache, key: Key)
    requires TokensAreAccountedFor(c)
    ensures TokensAreAccountedFor(Drop(c, key))
  {
    var d := Drop(c, key);
    forall t: nat | t < d.issued && t !in d.invalidated ensures exists k :: Attached(d, k, t) {
      var k :| Attached(c, k, t);
      assert Attached(d, k, t);
    }
  }

  lemma DropIsFenced(c: Cache, key: Key)
    requires CacheInv(c)
    ensures CacheInv(Drop(c, key)) && Fenced(c, Drop(c, key))
  {
    hide TokensAreAccountedFor;
    DropKeepsOthers(c, key);
    DropAccountsForTokens(c, key);
  }

  lemma SizeAfterUpdate(entries: map<Key, VerifiedDomain>, key: Key, vd: VerifiedDomain)
    ensures |entries[key := vd]| == if key in entries then |entries| else |entries| + 1
  {
    var updated := entries[key := vd];
    assert updated.Keys == entries.Keys + {key};
  }

  /** Room is made by the victim only. */
  function Room(c: Cache, key: Key, victim: Key): Cache {
    if NeedsRoom(c, key) then Drop(c, victim) else c
  }

  lemma RoomIsMade(c: Cache, key: Key, victim: Key)
    requires CacheInv(c) && (NeedsRoom(c, key) ==> victim in c.entries)
    ensures var r := Room(c, key, victim);
            && CacheInv(r) && Fenced(c, r) && r.issued == c.issued
            && (key in r.entries <==> key in c.entries) && (key in c.entries ==> r.entries[key] == c.entries[key])
            && (key !in c.entries ==> |r.entries| < CAPACITY)
  {
    hide CacheInv, Fenced;
    assert |c.entries| <= CAPACITY by { CapacityHolds(c); }
    FencedByNothing(c);
    if NeedsRoom(c, key) {
      DropIsFenced(c, victim);
      DropKeepsOthers(c, victim);
    }
  }

  lemma CapacityHolds(c: Cache)
    requires CacheInv(c)
    ensures |c.entries| <= CAPACITY
  {
  }

  lemma FencedByNothing(c: Cache)
    ensures Fenced(c, c)
  {
  }

  lemma FlagsAreKeptOn(c: Cache, d: Cache, e: Cache)
    requires KeepsFlags(c, d) && KeepsFlags(d, e)
    ensures KeepsFlags(c, e)
  {
  }

  /** The token that a replacement sets. */
  function Replaced(c: Cache, key: Key, stored: VerifiedDomain): set<nat> {
    if key in c.entries && c.entries[key].token.Some? && c.entries[key].token != stored.token
        then {c.entries[key].token.value} else {}
  }

  /** Replaces or adds one entry where there is room. */
  lemma PlaceKeepsFlags(c: Cache, key: Key, stored: VerifiedDomain, d: Cache)
    requires CacheInv(c) && (key !in c.entries ==> |c.entries| < CAPACITY)
    requires stored.token.Some? && stored.domain == key.domain != "" && stored.expiry != 0 && stored.dnsTTL > 0
    requires d.issued == c.issued || (d.issued == c.issued + 1 && stored.token.value == c.issued)
    requires stored.token.value < d.issued
    requires d.entries == c.entries[key := stored]
    requires d.invalidated == c.invalidated + Replaced(c, key, stored)
    ensures CacheInv(d) && KeepsFlags(c, d)
  {
    SizeAfterUpdate(c.entries, key, stored);
    PlaceAccountsForTokens(c, key, stored, d);
    hide TokensAreAccountedFor;
  }

  lemma PlaceAccountsForTokens(c: Cache, key: Key, stored: VerifiedDomain, d: Cache)
    requires TokensAreAccountedFor(c) && stored.token.Some?
    requires d.issued == c.issued || (d.issued == c.issued + 1 && stored.token.value == c.issued)
    requires d.entries == c.entries[key := stored]
    requires c.invalidated <= d.invalidated
    requires key in c.entries && c.entries[key].token.Some? && c.entries[key].token != stored.token
        ==> c.entries[key].token.value in d.invalidated
    ensures TokensAreAccountedFor(d)
  {
    forall t: nat | t < d.issued && t !in d.invalidated ensures exists k :: Attached(d, k, t) {
      if t == stored.token.value {
        assert Attached(d, key, t);
      } else {
        var k :| Attached(c, k, t);
        assert Attached(d, k, t);
      }
    }
  }

  lemma NextTokenIsUnset(c: Cache)
    requires CacheInv(c)
    ensures c.issued !in c.invalidated
  {
  }

  lemma StoreIsPlacement(c: Cache, key: Key, vd: VerifiedDomain, victim: Key)
    requires EntriesAreTokened(c)
    ensures var r, d, stored := Room(c, key, victim), Store(c, key, vd, victim), Tokened(c, vd);
            && d.entries == r.entries[key := stored]
            && d.issued == (if vd.token.None? then r.issued + 1 else r.issued)
            && d.invalidated == r.invalidated + Replaced(r, key, stored)
            && forall k | k in r.entries :: k in c.entries && r.entries[k] == c.entries[k]
  {
  }

  lemma StoreIsFenced(c: Cache, key: Key, vd: VerifiedDomain, victim: Key)
    requires CacheInv(c) && (NeedsRoom(c, key) ==> victim in c.entries)
    requires vd.domain == key.domain != "" && vd.expiry != 0 && vd.dnsTTL > 0
    requires vd.token.Some? ==> vd.token.value < c.issued && vd.token.value !in c.invalidated
    ensures CacheInv(Store(c, key, vd, victim)) && Fenced(c, Store(c, key, vd, victim))
  {
    assert EntriesAreTokened(c);
    hide CacheInv, KeepsFlags, Store, EntriesAreTokened;
    var r, d := Room(c, key, victim), Store(c, key, vd, victim);
    RoomIsMade(c, key, victim);
    StoreIsPlacement(c, key, vd, victim);
    PlaceKeepsFlags(r, key, Tokened(c, vd), d);
    FlagsAreKeptOn(c, r, d);
    NextTokenIsUnset(c);
    assert Tokened(c, vd).token.value !in c.invalidated;
  }

  /** Every step keeps the invariant and the fence. */
  lemma StepIsFenced(c: Cache, step: CacheStep)
    requires CacheInv(c) && Enabled(c, step)
    ensures CacheInv(Apply(c, step)) && Fenced(c, Apply(c, step))
  {
    hide CacheInv, Fenced, Drop, Store;
    FencedByNothing(c);
    match step
    case Put(vd, namespace, now, victim) =>
      DropIsFenced(c, Key(vd.domain, namespace));
      if vd.domain != "" && !Stale(c, vd) && !Unstorable(vd, now) {
        StoreIsFenced(c, Key(vd.domain, namespace), vd, victim);
      }
    case Evict(key) => DropIsFenced(c, key);
    case Reap(key, _) => DropIsFenced(c, key);
  }

  /** A put removes an entry only to make room in a full cache, or where a manager published evidence of its
      own domain that may not be stored; and it never puts older evidence in the place of newer. */
  lemma PutRemovesOnly(c: Cache, vd: VerifiedDomain, namespace: Namespace, now: nat, victim: Key, key: Key)
    requires key in c.entries
    ensures var d := AfterPut(c, vd, namespace, now, victim);
            && (key !in d.entries ==>
                  || (key == victim && NeedsRoom(c, Key(vd.domain, namespace)))
                  || (key == Key(vd.domain, namespace) && namespace.Private? && vd.acquiredAt != 0
                      && Unstorable(vd, now)))
            && (key in d.entries && d.entries[key] != c.entries[key] ==>
                  key == Key(vd.domain, namespace)
                      && (vd.acquiredAt == 0 || vd.acquiredAt >= c.entries[key].acquiredAt))
  {
  }

  // ---------------------------------------------------------------------------------------------
  // Whole runs

  /** The cache after some steps, each enabled when it is taken. */
  ghost predicate Run(c: Cache, steps: seq<CacheStep>, d: Cache)
    decreases |steps|
  {
    if steps == [] then c == d
    else Enabled(c, steps[0]) && Run(Apply(c, steps[0]), steps[1..], d)
  }

  lemma {:induction false} RunIsFenced(c: Cache, steps: seq<CacheStep>, d: Cache)
    requires CacheInv(c) && Run(c, steps, d)
    ensures CacheInv(d) && KeepsFlags(c, d)
    ensures forall key, t | Attached(d, key, t) && t in c.invalidated :: Attached(c, key, t)
    decreases |steps|
  {
    hide CacheInv, Apply, Enabled;
    if steps != [] {
      var next := Apply(c, steps[0]);
      StepIsFenced(c, steps[0]);
      RunIsFenced(next, steps[1..], d);
      FlagsAreKeptOn(c, next, d);
    }
  }

  lemma EmptyCacheIsValid()
    ensures CacheInv(EMPTY)
  {
  }

  /** In every reachable cache the size is bounded and every token issued is attached or set. */
  lemma ReachableCaches(steps: seq<CacheStep>, c: Cache)
    requires Run(EMPTY, steps, c)
    ensures |c.entries| <= 1024 && EntriesAreTokened(c) && TokensAreAccountedFor(c)
  {
    EmptyCacheIsValid();
    RunIsFenced(EMPTY, steps, c);
  }

  /** The fence: a snapshot taken of an entry that has since expired, been replaced, evicted or displaced is
      refused by every later put, whatever its contents have become and wherever it is put. */
  lemma StaleSnapshotsAreRefused(c: Cache, key: Key, token: nat, first: seq<CacheStep>, d: Cache,
                                 later: seq<CacheStep>, e: Cache,
                                 vd: VerifiedDomain, namespace: Namespace, now: nat, victim: Key)
    requires CacheInv(c) && Attached(c, key, token)
    requires Run(c, first, d) && !Attached(d, key, token)
    requires Run(d, later, e)
    requires vd.token == Some(token)
    ensures AfterPut(e, vd, namespace, now, victim) == e
    ensures !Attached(e, key, token)
  {
    hide CacheInv, Run;
    RunIsFenced(c, first, d);
    RunIsFenced(d, later, e);
  }

  /** A put of a snapshot whose flag is not set finds the entry it was taken from still in place. */
  lemma LiveSnapshotsHaveTheirEntry(c: Cache, key: Key, token: nat, steps: seq<CacheStep>, d: Cache)
    requires CacheInv(c) && Attached(c, key, token) && Run(c, steps, d) && token !in d.invalidated
    ensures Attached(d, key, token)
  {
    RunIsFenced(c, steps, d);
  }

  // ---------------------------------------------------------------------------------------------
  // What a put does

  /** Evidence is stored as it is if it is storable, not stale and not older than the current entry. A copy keeps
      its flag and new evidence gets an unset one; the only flags set are those of another flag's entry that it
      replaces, and of the entry displaced from a full cache. */
  lemma PutStores(c: Cache, vd: VerifiedDomain, namespace: Namespace, now: nat, victim: Key)
    requires CacheInv(c) && vd.domain != ""
    requires vd.expiry != 0 && now < vd.expiry && vd.dnsTTL > 0
    requires vd.token.Some? ==> vd.token.value < c.issued && vd.token.value !in c.invalidated
    requires var key := Key(vd.domain, namespace);
             key in c.entries ==> vd.acquiredAt == 0 || c.entries[key].acquiredAt <= vd.acquiredAt
    requires Key(vd.domain, namespace) !in c.entries && |c.entries| >= 1024 ==> victim in c.entries
    ensures var d, key := AfterPut(c, vd, namespace, now, victim), Key(vd.domain, namespace);
            var displaced := key !in c.entries && |c.entries| >= 1024;
            && key in d.entries && d.entries[key].token.Some?
            && d.entries[key] == vd.(token := d.entries[key].token)
            && (if vd.token.Some? then d.entries[key].token == vd.token
                else d.entries[key].token.value !in d.invalidated && d.entries[key].token.value >= c.issued)
            && (forall k | k != key :: k in d.entries <==> k in c.entries && !(displaced && k == victim))
            && (forall k | k != key && k in d.entries :: d.entries[k] == c.entries[k])
            && (forall t :: t in d.invalidated <==>
                  || t in c.invalidated
                  || (Attached(c, key, t) && vd.token != Some(t))
                  || (displaced && Attached(c, victim, t)))
  {
    NextTokenIsUnset(c);
  }

  /** Evidence that may not be stored never is; a manager's own removes its entry and sets that flag alone. */
  lemma PutOfUnstorable(c: Cache, vd: VerifiedDomain, namespace: Namespace, now: nat, victim: Key)
    requires CacheInv(c) && vd.domain != ""
    requires vd.expiry == 0 || now >= vd.expiry || vd.dnsTTL <= 0
    requires vd.token.Some? ==> vd.token.value !in c.invalidated
    requires var key := Key(vd.domain, namespace);
             key in c.entries ==> vd.acquiredAt == 0 || c.entries[key].acquiredAt <= vd.acquiredAt
    ensures var d, key := AfterPut(c, vd, namespace, now, victim), Key(vd.domain, namespace);
            if namespace != Standalone && vd.acquiredAt != 0
            then
              && d.entries == c.entries - {key}
              && forall t :: t in d.invalidated <==> t in c.invalidated || Attached(c, key, t)
            else d == c
  {
    hide Store, CacheInv, Drop;
    DropSetsOneFlag(c, Key(vd.domain, namespace));
  }

  lemma DropSetsOneFlag(c: Cache, key: Key)
    requires CacheInv(c)
    ensures Drop(c, key).entries == c.entries - {key} && Drop(c, key).issued == c.issued
    ensures forall t :: t in Drop(c, key).invalidated <==> t in c.invalidated || Attached(c, key, t)
  {
    hide TokensAreAccountedFor;
    if key !in c.entries {
      assert c.entries - {key} == c.entries;
    }
  }

  /** Stale evidence, evidence without a domain and evidence older than the entry change nothing. */
  lemma PutIsRefused(c: Cache, vd: VerifiedDomain, namespace: Namespace, now: nat, victim: Key)
    requires var key := Key(vd.domain, namespace);
             || vd.domain == "" || (vd.token.Some? && vd.token.value in c.invalidated)
             || (key in c.entries && 0 < vd.acquiredAt < c.entries[key].acquiredAt)
    ensures AfterPut(c, vd, namespace, now, victim) == c
  {
  }

  /** Successive status refreshes of one entry, each a copy of it that may still be stored. */
  ghost predicate Refreshes(entry: VerifiedDomain, namespace: Namespace, steps: seq<CacheStep>) {
    forall i | 0 <= i < |steps| ::
      && steps[i].Put? && steps[i].namespace == namespace
      && steps[i].vd.domain == entry.domain && steps[i].vd.token == entry.token
      && steps[i].vd.acquiredAt == entry.acquiredAt
      && steps[i].now < steps[i].vd.expiry && steps[i].vd.dnsTTL > 0
  }

  lemma OneRefresh(c: Cache, key: Key, step: CacheStep)
    requires CacheInv(c) && key in c.entries && c.entries[key].token.Some?
    requires c.entries[key].token.value !in c.invalidated
    requires step.Put? && c.entries[key].domain == key.domain != ""
    requires Refreshes(c.entries[key], key.namespace, [step])
    ensures Apply(c, step) == c.(entries := c.entries[key := step.vd])
  {
    assert [step][0] == step;
  }

  lemma EntryHasToken(c: Cache, key: Key)
    requires CacheInv(c) && key in c.entries
    ensures c.entries[key].token.Some? && c.entries[key].domain == key.domain != ""
  {
  }

  /** Any number of them take effect: the entry is the last copy, and nothing else changes. */
  lemma {:induction false} RefreshesTakeEffect(c: Cache, key: Key, steps: seq<CacheStep>, d: Cache)
    requires CacheInv(c) && key in c.entries && c.entries[key].token.value !in c.invalidated
    requires Refreshes(c.entries[key], key.namespace, steps) && Run(c, steps, d)
    ensures d.entries == if steps == [] then c.entries else c.entries[key := steps[|steps| - 1].vd]
    ensures d.invalidated == c.invalidated && d.issued == c.issued
    decreases |steps|
  {
    hide CacheInv, Apply, Enabled;
    if steps != [] {
      var next := Apply(c, steps[0]);
      EntryHasToken(c, key);
      StepIsFenced(c, steps[0]);
      OneRefresh(c, key, steps[0]);
      RefreshesTakeEffect(next, key, steps[1..], d);
    }
  }

  // ---------------------------------------------------------------------------------------------
  // When the flag of a live entry is unset

  /** The flag of a live entry is unset, and no two entries share one. */
  ghost predicate LiveFlagsAreUnset(c: Cache) {
    && (forall key, t | Attached(c, key, t) :: t !in c.invalidated)
    && forall k, l, t | Attached(c, k, t) && Attached(c, l, t) :: k == l
  }

  /** No copy of an entry is put under another key while the entry is live. */
  ghost predicate PutAtHome(c: Cache, step: CacheStep) {
    step.Put? && step.vd.token.Some? ==>
      forall key | Attached(c, key, step.vd.token.value) :: key == Key(step.vd.domain, step.namespace)
  }

  lemma LiveFlagsAfterDrop(c: Cache, key: Key)
    requires CacheInv(c) && LiveFlagsAreUnset(c)
    ensures LiveFlagsAreUnset(Drop(c, key))
  {
    hide CacheInv, Drop;
    DropSetsOneFlag(c, key);
    assert forall k, t | Attached(Drop(c, key), k, t) :: Attached(c, k, t);
  }

  /** An unset flag of a copy that is put at home is the flag of the entry there. */
  lemma HomeHoldsTheFlag(c: Cache, step: CacheStep)
    requires TokensAreAccountedFor(c) && PutAtHome(c, step) && Enabled(c, step)
    requires step.Put? && step.vd.token.Some? && step.vd.token.value !in c.invalidated
    ensures Attached(c, Key(step.vd.domain, step.namespace), step.vd.token.value)
  {
    var t := step.vd.token.value;
    var key :| Attached(c, key, t);
  }

  lemma AttachedWasIssued(c: Cache, key: Key, t: nat)
    requires CacheInv(c) && Attached(c, key, t)
    ensures t < c.issued
  {
  }

  lemma LiveFlagsAfterStore(c: Cache, vd: VerifiedDomain, namespace: Namespace, now: nat, victim: Key)
    requires CacheInv(c) && LiveFlagsAreUnset(c) && vd.domain != ""
    requires vd.expiry != 0 && now < vd.expiry && vd.dnsTTL > 0
    requires vd.token.Some? ==>
               vd.token.value !in c.invalidated && Attached(c, Key(vd.domain, namespace), vd.token.value)
    requires var key := Key(vd.domain, namespace);
             key in c.entries ==> vd.acquiredAt == 0 || c.entries[key].acquiredAt <= vd.acquiredAt
    requires Key(vd.domain, namespace) !in c.entries && |c.entries| >= 1024 ==> victim in c.entries
    ensures LiveFlagsAreUnset(AfterPut(c, vd, namespace, now, victim))
  {
    hide CacheInv, AfterPut;
    var d, key := AfterPut(c, vd, namespace, now, victim), Key(vd.domain, namespace);
    if vd.token.Some? {
      AttachedWasIssued(c, key, vd.token.value);
    }
    PutStores(c, vd, namespace, now, victim);
    forall k, t: nat | Attached(d, k, t) ensures k != key ==> Attached(c, k, t) && t < c.issued {
      if k != key {
        AttachedWasIssued(c, k, t);
      }
    }
  }

  /** Copies of managers' entries go back to their own namespace, and as long as they do, only lost entries have
      their flags set. */
  lemma HomePutsKeepLiveFlags(c: Cache, step: CacheStep)
    requires CacheInv(c) && LiveFlagsAreUnset(c) && Enabled(c, step) && PutAtHome(c, step)
    ensures LiveFlagsAreUnset(Apply(c, step))
  {
    assert TokensAreAccountedFor(c);
    hide CacheInv, LiveFlagsAreUnset, Drop, Store, TokensAreAccountedFor, PutAtHome, Enabled;
    match step
    case Put(vd, namespace, now, victim) =>
      var key := Key(vd.domain, namespace);
      LiveFlagsAfterDrop(c, key);
      if vd.domain != "" && !Stale(c, vd) && !OlderThanCurrent(c, key, vd) && !Unstorable(vd, now) {
        if vd.token.Some? {
          HomeHoldsTheFlag(c, step);
        }
        VictimIsThere(c, step);
        LiveFlagsAfterStore(c, vd, namespace, now, victim);
      }
    case Evict(key) => LiveFlagsAfterDrop(c, key);
    case Reap(key, _) => LiveFlagsAfterDrop(c, key);
  }

  lemma VictimIsThere(c: Cache, step: CacheStep)
    requires Enabled(c, step) && step.Put?
    ensures Key(step.vd.domain, step.namespace) !in c.entries && |c.entries| >= 1024 ==> step.victim in c.entries
  {
  }

  lemma {:induction false} LiveFlagsOverRuns(c: Cache, steps: seq<CacheStep>, d: Cache)
    requires CacheInv(c) && LiveFlagsAreUnset(c) && Run(c, steps, d) && AllAtHome(c, steps)
    ensures LiveFlagsAreUnset(d)
    decreases |steps|
  {
    hide CacheInv, LiveFlagsAreUnset, Apply, Enabled, PutAtHome;
    if steps != [] {
      StepIsFenced(c, steps[0]);
      HomePutsKeepLiveFlags(c, steps[0]);
      LiveFlagsOverRuns(Apply(c, steps[0]), steps[1..], d);
    }
  }

  ghost predicate AllAtHome(c: Cache, steps: seq<CacheStep>)
    decreases |steps|
  {
    steps == [] || (PutAtHome(c, steps[0]) && AllAtHome(Apply(c, steps[0]), steps[1..]))
  }

  // ---------------------------------------------------------------------------------------------
  // The cache object

  ghost function AnyVictim(c: Cache, key: Key): (victim: Key)
    ensures NeedsRoom(c, key) ==> victim in c.entries
  {
    if c.entries == map[] then key else var k :| k in c.entries; k
  }

  datatype Lookup = Absent | Hit(vd: VerifiedDomain) | Lapsed

  class IdentityCache {
    var entries: map<Key, VerifiedDomain>
    var invalidated: set<nat>
    var issued: nat

    ghost function State(): Cache
      reads this
    {
      Cache(entries, invalidated, issued)
    }

    constructor ()
      ensures State() == EMPTY
    {
      entries, invalidated, issued := map[], {}, 0;
    }

    method SetFlag(token: Option<nat>)
      modifies this`invalidated
      ensures State() == Mark(old(State()), token)
    {
      if token.Some? {
        invalidated := invalidated + {token.value};
      }
    }

    /** The read-locked part of a lookup. */
    method Find(key: Key, now: nat) returns (r: Lookup)
      ensures r.Absent? <==> key !in entries
      ensures r.Lapsed? <==> key in entries && entries[key].expiry != 0 && now >= entries[key].expiry
      ensures r.Hit? ==> r.vd == entries[key].(cachedState := Cached)
    {
      if key !in entries {
        return Absent;
      }
      var vd := entries[key];
      if vd.expiry != 0 && now >= vd.expiry {
        return Lapsed;
      }
      r := Hit(vd.(cachedState := Cached));
    }

    /** The write-locked part, which looks again because the entry may have been refreshed in between. */
    method FindOrReap(key: Key, now: nat) returns (r: Option<VerifiedDomain>)
      modifies this
      ensures State() == AfterReap(old(State()), key, now)
      ensures r.Some? <==> key in old(entries) && (old(entries)[key].expiry == 0 || now < old(entries)[key].expiry)
      ensures r.Some? ==> entries == old(entries) && r.value == entries[key].(cachedState := Cached)
      ensures r.None? ==> entries == old(entries) - {key}
    {
      if key in entries && (entries[key].expiry == 0 || now < entries[key].expiry) {
        return Some(entries[key].(cachedState := Cached));
      }
      if key in entries {
        SetFlag(entries[key].token);
      }
      entries := entries - {key};
      r := None;
    }

    /** Places evidence, replacing the current entry or displacing an arbitrary one from a full cache. */
    method Insert(key: Key, vd: VerifiedDomain) returns (ghost victim: Key)
      modifies this
      ensures NeedsRoom(old(State()), key) ==> victim in old(entries)
      ensures State() == Store(old(State()), key, vd, victim)
    {
      victim := key;
      var stored := vd;
      if stored.token.None? {
        stored := stored.(token := Some(issued));
        issued := issued + 1;
      }
      if key in entries && entries[key].token != stored.token {
        SetFlag(entries[key].token);
      }
      if key !in entries && |entries| >= CAPACITY {
        assert entries.Keys != {};
        var displaced :| displaced in entries;
        SetFlag(entries[displaced].token);
        entries := entries - {displaced};
        victim := displaced;
      }
      entries := entries[key := stored];
    }

    method Put(vd: VerifiedDomain, namespace: Namespace, now: nat) returns (ghost victim: Key)
      modifies this
      ensures State() == AfterPut(old(State()), vd, namespace, now, victim)
      ensures NeedsRoom(old(State()), Key(vd.domain, namespace)) ==> victim in old(entries)
    {
      hide Store, NeedsRoom;
      var key := Key(vd.domain, namespace);
      victim := AnyVictim(State(), key);
      if vd.domain == "" {
        return;
      }
      if vd.token.Some? && vd.token.value in invalidated {
        return;
      }
      if key in entries && vd.acquiredAt != 0 && vd.acquiredAt < entries[key].acquiredAt {
        return;
      }
      if vd.expiry == 0 || now >= vd.expiry || vd.dnsTTL <= 0 {
        if namespace.Private? && vd.acquiredAt != 0 {
          if key in entries {
            SetFlag(entries[key].token);
          }
          entries := entries - {key};
        }
        return;
      }
      victim := Insert(key, vd);
    }

    method Evict(key: Key)
      modifies this
      ensures State() == Drop(old(State()), key)
    {
      if key in entries {
        SetFlag(entries[key].token);
      }
      entries := entries - {key};
    }
  }
}
