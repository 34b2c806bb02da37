/** Replay of a lifecycle history up to a point in time (`log/log.go`, `SnapshotAt`). */
module Snapshot {
  import opened Wrappers
  import opened LogEvents

  datatype LifecycleState = Unborn | Active | Revoked | Retired

  datatype ErrorCode =
    | SnapshotEmpty | DomainMismatch | SnapshotNonPrefix | GenesisRequired | TerminalState | DuplicateIssuance
    | InvalidIssuance | KeyContinuity | InvalidRevocationReason | InvalidMigration | UnsupportedEvent

  datatype DomainSnapshot = DomainSnapshot(
    state: LifecycleState,
    activeKey: Option<PublicKey>,
    activeThumbprint: string,
    keyBoundAt: int,
    governanceId: string,
    events: seq<LogEvent>)

  datatype Result<+T> = Ok(value: T) | Err(code: ErrorCode)

  const NEW_SNAPSHOT := DomainSnapshot(Unborn, None, "", 0, "", [])

  predicate Terminal(state: LifecycleState) {
    state == Revoked || state == Retired
  }

  // ---------------------------------------------------------------------------------------------
  // The state machine over events, without time

  function Issue(s: DomainSnapshot, e: LogEvent): Result<DomainSnapshot> {
    var operational := KeyThumbprint(e.initialOperationalKey);
    var entity := KeyThumbprint(e.initialEntityKey);
    if s.state != Unborn then Err(DuplicateIssuance)
    else if operational.None? || e.initialEntityKey.None? || e.initialOperationalThumbprint == "" ||
            operational.value != e.initialOperationalThumbprint then Err(InvalidIssuance)
    else if entity.None? || e.initialEntityThumbprint == "" || entity.value != e.initialEntityThumbprint ||
            entity.value == operational.value then Err(InvalidIssuance)
    else Ok(s.(state := Active, activeKey := e.initialOperationalKey,
               activeThumbprint := e.initialOperationalThumbprint,
               keyBoundAt := e.timestamp, governanceId := e.governanceId, events := s.events + [e]))
  }

  function Rotate(s: DomainSnapshot, e: LogEvent): Result<DomainSnapshot> {
    var thumbprint := KeyThumbprint(e.newOperationalKey);
    if s.state != Active || e.previousOperationalThumbprint != s.activeThumbprint then Err(KeyContinuity)
    else if thumbprint.None? || e.newOperationalThumbprint == "" || thumbprint.value != e.newOperationalThumbprint ||
            thumbprint.value == s.activeThumbprint then Err(KeyContinuity)
    else Ok(s.(activeKey := e.newOperationalKey, activeThumbprint := e.newOperationalThumbprint,
               keyBoundAt := e.timestamp, events := s.events + [e]))
  }

  /** One event of the lifecycle. */
  function Advance(s: DomainSnapshot, e: LogEvent): Result<DomainSnapshot> {
    if s.state == Unborn && e.kind != Issuance then Err(GenesisRequired)
    else if Terminal(s.state) then Err(TerminalState)
    else
      var s' := s.(events := s.events + [e]);
      match e.kind
      case Issuance => Issue(s, e)
      case KeyRotation => Rotate(s, e)
      case Revocation =>
        if ValidRevocationReason(e.reason) then Ok(s'.(state := Revoked)) else Err(InvalidRevocationReason)
      case Retirement => Ok(s'.(state := Retired))
      case Migration =>
        if e.previousLog == "" || e.newLog == "" || e.finalEntryRef == "" || e.previousLog == e.newLog
        then Err(InvalidMigration) else Ok(s')
      case Delegation => Ok(s')
      case Unsupported(_) => Err(UnsupportedEvent)
  }

  /** The lifecycle of a whole history. */
  function Lifecycle(events: seq<LogEvent>): Result<DomainSnapshot>
    decreases |events|
  {
    if events == [] then Ok(NEW_SNAPSHOT)
    else
      match Lifecycle(events[..|events| - 1])
      case Err(code) => Err(code)
      case Ok(s) => Advance(s, events[|events| - 1])
  }

  lemma AdvanceAppends(s: DomainSnapshot, e: LogEvent)
    requires Advance(s, e).Ok?
    ensures Advance(s, e).value.events == s.events + [e]
    ensures !Terminal(s.state)
  {
  }

  lemma {:induction false} LifecycleOfPrefix(events: seq<LogEvent>, n: nat)
    requires n <= |events| && Lifecycle(events).Ok?
    ensures Lifecycle(events[..n]).Ok?
    decreases |events|
  {
    hide Advance;
    if n == |events| {
      assert events[..n] == events;
    } else {
      var init := events[..|events| - 1];
      LifecycleOfPrefix(init, n);
      assert init[..n] == events[..n];
    }
  }

  lemma {:induction false} LifecycleRecordsEvents(events: seq<LogEvent>)
    requires Lifecycle(events).Ok?
    ensures Lifecycle(events).value.events == events
    decreases |events|
  {
    hide Advance;
    if events != [] {
      var init, last := events[..|events| - 1], events[|events| - 1];
      LifecycleRecordsEvents(init);
      AdvanceAppends(Lifecycle(init).value, last);
      assert init + [last] == events;
    }
  }

  /** A living identity has the key that its thumbprint names. */
  lemma {:induction false} LivingIdentityHasKey(events: seq<LogEvent>)
    requires Lifecycle(events).Ok?
    ensures var s := Lifecycle(events).value;
            (s.state == Unborn <==> events == []) &&
            (s.state != Unborn ==> s.activeKey.Some? && KeyThumbprint(s.activeKey) == Some(s.activeThumbprint))
    decreases |events|
  {
    if events != [] {
      LivingIdentityHasKey(events[..|events| - 1]);
    }
  }

  // ---------------------------------------------------------------------------------------------
  // Replay up to a time

  /** The replay loop after the first `n` events: the snapshot so far, and whether an event later than `at`
      has been passed. */
  function Replay(domain: string, events: seq<LogEvent>, at: int, n: nat): Result<(DomainSnapshot, bool)>
    requires n <= |events|
  {
    if n == 0 then Ok((NEW_SNAPSHOT, false))
    else
      match Replay(domain, events, at, n - 1)
      case Err(code) => Err(code)
      case Ok((s, past)) =>
        var e := events[n - 1];
        if !EqualFold(e.domain, domain) then Err(DomainMismatch)
        else if e.timestamp > at then Ok((s, true))
        else if past then Err(SnapshotNonPrefix)
        else
          match Advance(s, e)
          case Err(code) => Err(code)
          case Ok(s') => Ok((s', false))
  }

  function SnapshotSpec(domain: string, events: seq<LogEvent>, at: int): Result<DomainSnapshot> {
    if events == [] then Err(SnapshotEmpty)
    else
      match Replay(domain, events, at, |events|)
      case Err(code) => Err(code)
      case Ok((s, _)) => if s.state == Unborn || s.activeKey.None? then Err(SnapshotEmpty) else Ok(s)
  }

  /** `events` has its first `k` entries at or before `at` and the others after it. */
  ghost predicate CutsAt(events: seq<LogEvent>, at: int, k: nat) {
    && k <= |events|
    && (forall i | 0 <= i < k :: events[i].timestamp <= at)
    && (forall i | k <= i < |events| :: events[i].timestamp > at)
  }

  ghost predicate SameDomain(domain: string, events: seq<LogEvent>) {
    forall i | 0 <= i < |events| :: EqualFold(events[i].domain, domain)
  }

  lemma CutsAreOrdered(events: seq<LogEvent>, t1: int, k1: nat, t2: int, k2: nat)
    requires t1 <= t2 && CutsAt(events, t1, k1) && CutsAt(events, t2, k2)
    ensures k1 <= k2
  {
    if k1 > 0 {
      assert events[k1 - 1].timestamp <= t1;
    }
  }

  ghost predicate ReplayShape(domain: string, events: seq<LogEvent>, at: int, s: DomainSnapshot, past: bool) {
    var k := |s.events|;
    && SameDomain(domain, events) && CutsAt(events, at, k)
    && Lifecycle(events[..k]) == Ok(s) && (past <==> k < |events|)
  }

  lemma ShapeAfterLater(domain: string, events: seq<LogEvent>, at: int, s: DomainSnapshot, past: bool, e: LogEvent)
    requires ReplayShape(domain, events, at, s, past) && EqualFold(e.domain, domain) && e.timestamp > at
    ensures ReplayShape(domain, events + [e], at, s, true)
  {
    hide Lifecycle, EqualFold;
    var k := |s.events|;
    assert (events + [e])[..k] == events[..k];
  }

  lemma ShapeAfterTaken(domain: string, events: seq<LogEvent>, at: int, s: DomainSnapshot, e: LogEvent)
    requires ReplayShape(domain, events, at, s, false) && EqualFold(e.domain, domain) && e.timestamp <= at
    requires Advance(s, e).Ok?
    ensures ReplayShape(domain, events + [e], at, Advance(s, e).value, false)
  {
    hide Advance, EqualFold;
    AdvanceAppends(s, e);
    var longer := events + [e];
    assert longer[..|events|] == events == events[..|events|];
    assert longer[..|longer|] == longer;
  }

  /** Replay with a time bound is the timeless lifecycle of the prefix that the bound selects. */
  lemma {:induction false} ReplayIsLifecycleOfPrefix(domain: string, events: seq<LogEvent>, at: int, n: nat)
    requires n <= |events| && Replay(domain, events, at, n).Ok?
    ensures ReplayShape(domain, events[..n], at, Replay(domain, events, at, n).value.0,
                        Replay(domain, events, at, n).value.1)
    decreases n
  {
    if n == 0 {
      assert events[..0] == [];
    } else {
      hide Advance, EqualFold, ReplayShape;
      ReplayIsLifecycleOfPrefix(domain, events, at, n - 1);
      var (s, past) := Replay(domain, events, at, n - 1).value;
      var shorter, e := events[..n - 1], events[n - 1];
      assert events[..n] == shorter + [e];
      if e.timestamp > at {
        ShapeAfterLater(domain, shorter, at, s, past, e);
      } else {
        ShapeAfterTaken(domain, shorter, at, s, e);
      }
    }
  }

  lemma {:induction false} ReplaySucceeds(domain: string, events: seq<LogEvent>, at: int, n: nat, k: nat)
    requires n <= |events| && SameDomain(domain, events[..n]) && CutsAt(events[..n], at, k)
    requires Lifecycle(events[..k]).Ok?
    ensures Replay(domain, events, at, n) == Ok((Lifecycle(events[..k]).value, k < n))
    decreases n
  {
    if n == 0 {
      assert events[..k] == [];
    } else {
      hide Advance, EqualFold;
      var longer, shorter := events[..n], events[..n - 1];
      assert longer == shorter + [events[n - 1]];
      assert events[n - 1] == longer[n - 1];
      if k < n {
        assert CutsAt(shorter, at, k);
        ReplaySucceeds(domain, events, at, n - 1, k);
      } else {
        assert longer[..n - 1] == shorter;
        ReplaySucceeds(domain, events, at, n - 1, n - 1);
      }
    }
  }

  /** A snapshot exists exactly when every event is the domain's, the events up to the time are a nonempty
      prefix of the log, and that prefix is a valid lifecycle; it is then that lifecycle. */
  lemma SnapshotCharacterized(domain: string, events: seq<LogEvent>, at: int, k: nat)
    ensures SnapshotSpec(domain, events, at).Ok? && k == |SnapshotSpec(domain, events, at).value.events| ==>
              && 0 < k && CutsAt(events, at, k) && SameDomain(domain, events)
              && Lifecycle(events[..k]) == SnapshotSpec(domain, events, at)
    ensures 0 < k && CutsAt(events, at, k) && SameDomain(domain, events) && Lifecycle(events[..k]).Ok? ==>
              SnapshotSpec(domain, events, at) == Lifecycle(events[..k])
  {
    hide Lifecycle, Replay;
    assert events[..|events|] == events;
    if Replay(domain, events, at, |events|).Ok? {
      ReplayIsLifecycleOfPrefix(domain, events, at, |events|);
      LivingIdentityHasKey(events[..|Replay(domain, events, at, |events|).value.0.events|]);
    }
    if 0 < k && CutsAt(events, at, k) && SameDomain(domain, events) && Lifecycle(events[..k]).Ok? {
      ReplaySucceeds(domain, events, at, |events|, k);
      LivingIdentityHasKey(events[..k]);
    }
  }

  // ---------------------------------------------------------------------------------------------
  // Snapshots at two times

  /** `to` is reached from `from` by the rotations among `events`, each naming the key it replaces. */
  ghost predicate RotationChain(from: string, events: seq<LogEvent>, to: string)
    decreases |events|
  {
    if events == [] then from == to
    else if events[0].kind == KeyRotation then
      events[0].previousOperationalThumbprint == from
          && RotationChain(events[0].newOperationalThumbprint, events[1..], to)
    else RotationChain(from, events[1..], to)
  }

  lemma {:induction false} RotationChainExtends(from: string, events: seq<LogEvent>, mid: string, e: LogEvent,
                                                to: string)
    requires RotationChain(from, events, mid)
    requires if e.kind == KeyRotation then e.previousOperationalThumbprint == mid && e.newOperationalThumbprint == to
        else mid == to
    ensures RotationChain(from, events + [e], to)
    decreases |events|
  {
    if events == [] {
      assert events + [e] == [e] && [e][1..] == [];
    } else {
      assert (events + [e])[1..] == events[1..] + [e];
      RotationChainExtends(if events[0].kind == KeyRotation then events[0].newOperationalThumbprint else from,
                           events[1..], mid, e, to);
    }
  }

  /** Once issued, the active key only moves along rotations. */
  lemma {:induction false} KeyFollowsRotations(events: seq<LogEvent>, j: nat)
    requires 0 < j <= |events| && Lifecycle(events).Ok? && Lifecycle(events[..j]).Ok?
    ensures RotationChain(Lifecycle(events[..j]).value.activeThumbprint, events[j..],
                          Lifecycle(events).value.activeThumbprint)
    decreases |events|
  {
    if j == |events| {
      assert events[..j] == events && events[j..] == [];
    } else {
      var init, last := events[..|events| - 1], events[|events| - 1];
      assert init[..j] == events[..j] && init[j..] + [last] == events[j..];
      KeyFollowsRotations(init, j);
      LivingIdentityHasKey(init);
      assert Advance(Lifecycle(init).value, last).Ok?;
      RotationChainExtends(Lifecycle(init[..j]).value.activeThumbprint, init[j..],
                           Lifecycle(init).value.activeThumbprint,
                           last, Lifecycle(events).value.activeThumbprint);
    }
  }

  /** Before the last event the state is not terminal. */
  lemma {:induction false} NothingFollowsTerminal(events: seq<LogEvent>, j: nat)
    requires j < |events| && Lifecycle(events).Ok?
    ensures Lifecycle(events[..j]).Ok? && !Terminal(Lifecycle(events[..j]).value.state)
    decreases |events|
  {
    hide Advance;
    var init := events[..|events| - 1];
    if j == |init| {
      AdvanceAppends(Lifecycle(init).value, events[j]);
    } else {
      NothingFollowsTerminal(init, j);
      assert init[..j] == events[..j];
    }
  }

  /** Snapshots are monotone in time: the later history extends the earlier one, a terminal state is final,
      and the later key descends from the earlier key by rotations. */
  lemma SnapshotsAreMonotone(domain: string, events: seq<LogEvent>, t1: int, t2: int)
    requires t1 <= t2
    requires SnapshotSpec(domain, events, t1).Ok? && SnapshotSpec(domain, events, t2).Ok?
    ensures var s1, s2 := SnapshotSpec(domain, events, t1).value, SnapshotSpec(domain, events, t2).value;
            && s1.events <= s2.events <= events
            && (Terminal(s1.state) ==> s1 == s2)
            && RotationChain(s1.activeThumbprint, s2.events[|s1.events|..], s2.activeThumbprint)
  {
    hide SnapshotSpec, Lifecycle;
    var s1, s2 := SnapshotSpec(domain, events, t1).value, SnapshotSpec(domain, events, t2).value;
    var k1, k2 := |s1.events|, |s2.events|;
    SnapshotCharacterized(domain, events, t1, k1);
    SnapshotCharacterized(domain, events, t2, k2);
    CutsAreOrdered(events, t1, k1, t2, k2);
    var prefix := events[..k2];
    assert prefix[..k1] == events[..k1];
    LifecycleOfPrefix(prefix, k1);
    LifecycleRecordsEvents(prefix[..k1]);
    LifecycleRecordsEvents(prefix);
    KeyFollowsRotations(prefix, k1);
    if k1 < k2 {
      NothingFollowsTerminal(prefix, k1);
    }
  }

  lemma {:induction false} ReplayFailure(domain: string, events: seq<LogEvent>, at: int, n: nat, m: nat)
    requires n <= |events| && m <= |events| && SameDomain(domain, events)
    requires Lifecycle(events[..m]).Ok?
    requires forall i | m <= i < |events| :: events[i].timestamp > at
    ensures Replay(domain, events, at, n).Err? ==> Replay(domain, events, at, n).code == SnapshotNonPrefix
    decreases n
  {
    hide Advance, EqualFold;
    if n > 0 {
      ReplayFailure(domain, events, at, n - 1, m);
      var before := Replay(domain, events, at, n - 1);
      if before.Ok? && events[n - 1].timestamp <= at && !before.value.1 {
        ReplayIsLifecycleOfPrefix(domain, events, at, n - 1);
        assert |before.value.0.events| == n - 1;
        assert events[..n - 1][..n - 1] == events[..n - 1] == events[..n][..n - 1];
        LifecycleOfPrefix(events[..m], n);
        assert events[..m][..n] == events[..n];
      }
    }
  }

  /** If a snapshot succeeds at one time, then at any earlier time it can fail only because nothing had been
      issued yet or because that time does not cut the log at a prefix. */
  lemma EarlierFailures(domain: string, events: seq<LogEvent>, t1: int, t2: int)
    requires t1 <= t2 && SnapshotSpec(domain, events, t2).Ok?
    ensures SnapshotSpec(domain, events, t1).Ok? ||
            SnapshotSpec(domain, events, t1).code == SnapshotEmpty
                || SnapshotSpec(domain, events, t1).code == SnapshotNonPrefix
    ensures SnapshotSpec(domain, events, t1).Ok? <==> exists k :: 0 < k && CutsAt(events, t1, k)
  {
    hide Lifecycle, Replay;
    var k2 := |SnapshotSpec(domain, events, t2).value.events|;
    SnapshotCharacterized(domain, events, t2, k2);
    ReplayFailure(domain, events, t1, |events|, k2);
    if SnapshotSpec(domain, events, t1).Ok? {
      SnapshotCharacterized(domain, events, t1, |SnapshotSpec(domain, events, t1).value.events|);
    }
    forall k | 0 < k && CutsAt(events, t1, k) ensures SnapshotSpec(domain, events, t1).Ok? {
      CutsAreOrdered(events, t1, k, t2, k2);
      LifecycleOfPrefix(events[..k2], k);
      assert events[..k2][..k] == events[..k];
      SnapshotCharacterized(domain, events, t1, k);
    }
  }

  // ---------------------------------------------------------------------------------------------
  // The loop

  /** Replays the events in order, tracking the snapshot and whether the time bound has been passed. */
  method SnapshotAt(domain: string, events: seq<LogEvent>, at: int) returns (r: Result<DomainSnapshot>)
    ensures r == SnapshotSpec(domain, events, at)
  {
    if |events| == 0 {
      return Err(SnapshotEmpty);
    }
    var s, past := NEW_SNAPSHOT, false;
    var index := 0;
    while index < |events|
      invariant 0 <= index <= |events|
      invariant Replay(domain, events, at, index) == Ok((s, past))
    {
      var e := events[index];
      var failure := None;
      if !EqualFold(e.domain, domain) {
        failure := Some(DomainMismatch);
      } else if e.timestamp > at {
        past := true;
      } else if past {
        failure := Some(SnapshotNonPrefix);
      } else {
        var next := Advance(s, e);
        if next.Err? {
          failure := Some(next.code);
        } else {
          s := next.value;
        }
      }
      if failure.Some? {
        ReplayErrorIsFinal(domain, events, at, index + 1, |events|);
        return Err(failure.value);
      }
      index := index + 1;
    }
    if s.state == Unborn || s.activeKey.None? {
      return Err(SnapshotEmpty);
    }
    r := Ok(s);
  }

  lemma {:induction false} ReplayErrorIsFinal(domain: string, events: seq<LogEvent>, at: int, n: nat, m: nat)
    requires n <= m <= |events| && Replay(domain, events, at, n).Err?
    ensures Replay(domain, events, at, m) == Replay(domain, events, at, n)
    decreases m
  {
    if n < m {
      ReplayErrorIsFinal(domain, events, at, n, m - 1);
    }
  }
}
