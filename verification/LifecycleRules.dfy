/** The rules of a domain's lifecycle, stated event by event (`log/log.go`, `SnapshotAt`). */
module LifecycleRules {
  import opened Wrappers
  import opened LogEvents
  import opened Snapshot

  predicate BindsKey(e: LogEvent) {
    e.kind == Issuance || e.kind == KeyRotation
  }

  function BoundKey(e: LogEvent): Option<PublicKey> {
    if e.kind == Issuance then e.initialOperationalKey else e.newOperationalKey
  }

  function BoundName(e: LogEvent): string {
    if e.kind == Issuance then e.initialOperationalThumbprint else e.newOperationalThumbprint
  }

  /** A key is present and has the thumbprint that an event gives for it. */
  predicate Names(name: string, key: Option<PublicKey>) {
    key.Some? && name != "" && key.value.thumbprint == Some(name)
  }

  /** The last event before position `n` that binds a key. */
  function LastBinding(events: seq<LogEvent>, n: nat): (i: nat)
    requires 0 < n <= |events|
    ensures i < n
    ensures forall j | i < j < n :: !BindsKey(events[j])
    ensures i == 0 || BindsKey(events[i])
  {
    if n == 1 || BindsKey(events[n - 1]) then n - 1 else LastBinding(events, n - 1)
  }

  /** What the rules ask of the event at a position, given the events before it. */
  predicate Permitted(events: seq<LogEvent>, i: nat)
    requires i < |events|
  {
    var e := events[i];
    if i == 0 then
      && e.kind == Issuance
      && Names(e.initialOperationalThumbprint, e.initialOperationalKey)
      && Names(e.initialEntityThumbprint, e.initialEntityKey)
      && e.initialEntityThumbprint != e.initialOperationalThumbprint
    else
      var bound := BoundName(events[LastBinding(events, i)]);
      && events[i - 1].kind != Revocation && events[i - 1].kind != Retirement
      && match e.kind
         case Issuance => false
         case KeyRotation =>
           && e.previousOperationalThumbprint == bound
           && Names(e.newOperationalThumbprint, e.newOperationalKey) && e.newOperationalThumbprint != bound
         case Revocation =>
           e.reason in {"keyCompromise", "policyViolation", "superseded", "cessationOfOperation"}
         case Retirement => true
         case Migration => e.previousLog != "" && e.newLog != "" && e.finalEntryRef != "" && e.previousLog != e.newLog
         case Delegation => true
         case Unsupported(_) => false
  }

  ghost predicate AllPermitted(events: seq<LogEvent>) {
    forall i | 0 <= i < |events| :: Permitted(events, i)
  }

  /** The snapshot that a permitted history has. */
  ghost predicate Describes(s: DomainSnapshot, events: seq<LogEvent>)
    requires events != []
  {
    var last, binding := events[|events| - 1], events[LastBinding(events, |events|)];
    && s.state == (if last.kind == Revocation then Revoked else if last.kind == Retirement then Retired else Active)
    && s.activeKey == BoundKey(binding) && s.activeThumbprint == BoundName(binding)
    && s.keyBoundAt == binding.timestamp
    && s.governanceId == events[0].governanceId
    && s.events == events
  }

  lemma {:induction false} LastBindingOfPrefix(events: seq<LogEvent>, more: seq<LogEvent>, n: nat)
    requires 0 < n <= |events| && events <= more
    ensures LastBinding(more, n) == LastBinding(events, n)
  {
    if n > 1 && !BindsKey(events[n - 1]) {
      LastBindingOfPrefix(events, more, n - 1);
    }
  }

  lemma PermittedInPrefix(events: seq<LogEvent>, more: seq<LogEvent>, i: nat)
    requires i < |events| && events <= more
    ensures Permitted(more, i) <==> Permitted(events, i)
  {
    if i > 0 {
      LastBindingOfPrefix(events, more, i);
    }
  }

  /** One more event after a described history. */
  lemma NextIsPermitted(s: DomainSnapshot, init: seq<LogEvent>, events: seq<LogEvent>)
    requires init != [] && Describes(s, init) && |events| == |init| + 1 && events == init + [events[|init|]]
    ensures Advance(s, events[|init|]).Ok? <==> Permitted(events, |init|)
    ensures Advance(s, events[|init|]).Ok? ==> Describes(Advance(s, events[|init|]).value, events)
  {
    LastBindingOfPrefix(init, events, |init|);
    BindingHasName(s, init);
  }

  lemma BindingHasName(s: DomainSnapshot, events: seq<LogEvent>)
    requires events != [] && Describes(s, events)
    ensures s.activeThumbprint == BoundName(events[LastBinding(events, |events|)])
  {
  }

  lemma FirstIsPermitted(e: LogEvent)
    ensures Advance(NEW_SNAPSHOT, e).Ok? <==> Permitted([e], 0)
    ensures Advance(NEW_SNAPSHOT, e).Ok? ==> Describes(Advance(NEW_SNAPSHOT, e).value, [e])
  {
  }

  /** A history has a lifecycle exactly if each of its events is permitted, and its snapshot is then given by its
      first event, its last one, and the last one that binds a key. */
  lemma {:induction false} LifecycleIsByTheRules(events: seq<LogEvent>)
    requires events != []
    ensures Lifecycle(events).Ok? <==> AllPermitted(events)
    ensures Lifecycle(events).Ok? ==> Describes(Lifecycle(events).value, events)
    decreases |events|
  {
    hide Permitted, Describes, Advance;
    var init, n := events[..|events| - 1], |events| - 1;
    if init == [] {
      assert events == [events[0]];
      FirstIsPermitted(events[0]);
    } else {
      LifecycleIsByTheRules(init);
      assert events == init + [events[n]];
      forall i | 0 <= i < n ensures Permitted(events, i) <==> Permitted(init, i) {
        PermittedInPrefix(init, events, i);
      }
      if Lifecycle(init).Ok? {
        NextIsPermitted(Lifecycle(init).value, init, events);
      }
    }
  }

  /** The snapshot of a domain at a time, by the rules. */
  lemma SnapshotIsByTheRules(domain: string, events: seq<LogEvent>, at: int, k: nat)
    requires 0 < k && CutsAt(events, at, k) && SameDomain(domain, events) && AllPermitted(events[..k])
    ensures SnapshotSpec(domain, events, at).Ok? && Describes(SnapshotSpec(domain, events, at).value, events[..k])
  {
    hide SnapshotSpec, Lifecycle, Describes, AllPermitted;
    LifecycleIsByTheRules(events[..k]);
    SnapshotCharacterized(domain, events, at, k);
  }

  /** Conversely a snapshot is taken of nothing else. */
  lemma SnapshotObeysTheRules(domain: string, events: seq<LogEvent>, at: int)
    requires SnapshotSpec(domain, events, at).Ok?
    ensures var s := SnapshotSpec(domain, events, at).value;
            var k := |s.events|;
            && 0 < k && CutsAt(events, at, k) && SameDomain(domain, events)
            && AllPermitted(events[..k]) && Describes(s, events[..k])
  {
    hide SnapshotSpec, Lifecycle, Describes, AllPermitted;
    var k := |SnapshotSpec(domain, events, at).value.events|;
    SnapshotCharacterized(domain, events, at, k);
    LifecycleIsByTheRules(events[..k]);
  }

  /** Names of domains are compared letter by letter, up to case. */
  lemma CaseIsIgnored(c: char, d: char)
    ensures EqualFold([c], [d]) <==>
              c == d || ('A' <= c <= 'Z' && d as int == c as int + 32) || ('A' <= d <= 'Z' && c as int == d as int + 32)
  {
    assert [c][0] == c && [d][0] == d;
  }

  lemma CaseIsIgnoredInEveryPlace(a: string, b: string)
    ensures EqualFold(a, b) <==> |a| == |b| && forall i | 0 <= i < |a| :: EqualFold([a[i]], [b[i]])
  {
    if |a| == |b| && forall i | 0 <= i < |a| :: EqualFold([a[i]], [b[i]]) {
      forall i | 0 <= i < |a| ensures Lower(a[i]) == Lower(b[i]) {
        assert [a[i]][0] == a[i] && [b[i]][0] == b[i] && EqualFold([a[i]], [b[i]]);
      }
    }
  }
}
