/** Bounds on chains of log migrations (`log/c2sptlog/client.go`): the check of an imported history and the
    context that nested verifications carry. */
module MigrationPath {
  import opened Wrappers
  import opened LogEvents
  import Snapshot

  /** Bounds on one stitched history; clients reject negative values and replace zero by a default. */
  datatype Limits = Limits(maxDepth: nat, maxHistoryEvents: nat, maxResponseBytes: nat) {
    function WithDefaults(): Limits {
      Limits(if maxDepth == 0 then 8 else maxDepth,
             if maxHistoryEvents == 0 then 10_000 else maxHistoryEvents,
             if maxResponseBytes == 0 then 8 * 1024 * 1024 else maxResponseBytes)
    }
  }

  /** Zero stands for a depth of 8, 10000 events and 8 MiB. */
  lemma DefaultLimits(limits: Limits)
    ensures Limits(0, 0, 0).WithDefaults() == Limits(8, 10_000, 8_388_608)
    ensures limits.maxDepth > 0 ==> limits.WithDefaults().maxDepth == limits.maxDepth
    ensures limits.maxHistoryEvents > 0 ==> limits.WithDefaults().maxHistoryEvents == limits.maxHistoryEvents
    ensures limits.maxResponseBytes > 0 ==> limits.WithDefaults().maxResponseBytes == limits.maxResponseBytes
  {
  }

  /** A move from one log to another. */
  datatype Move = Move(source: string, target: string)

  function MoveOf(e: LogEvent): Move {
    Move(e.previousLog, e.newLog)
  }

  /** The moves of the migration events, in order. */
  function Moves(history: seq<LogEvent>): seq<Move>
    decreases |history|
  {
    if history == [] then []
    else
      var init, last := Moves(history[..|history| - 1]), history[|history| - 1];
      if last.kind == Migration then init + [MoveOf(last)] else init
  }

  // ---------------------------------------------------------------------------------------------
  // What a path should be

  predicate Linked(moves: seq<Move>, i: nat)
    requires 0 < i < |moves|
  {
    moves[i - 1].target == moves[i].source
  }

  /** Each move starts where the previous one ended. */
  ghost predicate Contiguous(moves: seq<Move>) {
    forall i | 0 < i < |moves| :: Linked(moves, i)
  }

  /** The logs a path of moves visits. */
  function Visited(moves: seq<Move>): (logs: seq<string>)
    ensures |logs| == if moves == [] then 0 else |moves| + 1
    decreases |moves|
  {
    if moves == [] then []
    else if |moves| == 1 then [moves[0].source, moves[0].target]
    else Visited(moves[..|moves| - 1]) + [moves[|moves| - 1].target]
  }

  ghost predicate Distinct(logs: seq<string>) {
    forall i, j | 0 <= i < j < |logs| :: logs[i] != logs[j]
  }

  ghost predicate SimplePath(moves: seq<Move>) {
    Contiguous(moves) && Distinct(Visited(moves))
  }

  // ---------------------------------------------------------------------------------------------
  // What the check computes

  /** The `lastLog` variable after `n` moves; empty also stands for "no migration yet". */
  function Last(moves: seq<Move>, n: nat): string
    requires n <= |moves|
  {
    if n == 0 then "" else moves[n - 1].target
  }

  /** The `seen` map after `n` moves, plus the source of move `n` when the check adds it. */
  function SeenBefore(moves: seq<Move>, n: nat): set<string>
    requires n < |moves|
    decreases n, 1
  {
    Seen(moves, n) + if Last(moves, n) == "" then {moves[n].source} else {}
  }

  function Seen(moves: seq<Move>, n: nat): set<string>
    requires n <= |moves|
    decreases n, 0
  {
    if n == 0 then {} else SeenBefore(moves, n - 1) + {moves[n - 1].target}
  }

  predicate MovePasses(moves: seq<Move>, n: nat)
    requires n < |moves|
  {
    (Last(moves, n) == "" || moves[n].source == Last(moves, n)) && moves[n].target !in SeenBefore(moves, n)
  }

  ghost predicate AllPass(moves: seq<Move>, n: nat)
    requires n <= |moves|
  {
    forall i | 0 <= i < n :: MovePasses(moves, i)
  }

  /** The imported history followed by the migration that imports it. */
  function FullPath(history: seq<LogEvent>, event: LogEvent): seq<Move> {
    Moves(history) + [MoveOf(event)]
  }

  ghost predicate ResourcesAccepted(event: LogEvent, history: seq<LogEvent>, encodedBytes: nat, limits: Limits) {
    var l, path := limits.WithDefaults(), FullPath(history, event);
    && |history| <= l.maxHistoryEvents
    && |path| <= l.maxDepth
    && AllPass(path, |path|)
    && encodedBytes <= l.maxResponseBytes
  }

  predicate Resumes(moves: seq<Move>, i: nat)
    requires 0 < i < |moves|
  {
    moves[i - 1].target == "" && moves[i].source != ""
  }

  /** No move resumes elsewhere after one whose target log is empty. */
  ghost predicate NoRestart(moves: seq<Move>) {
    forall i | 0 < i < |moves| :: !Resumes(moves, i)
  }

  // ---------------------------------------------------------------------------------------------
  // When the check means a simple path

  lemma VisitedByPrefix(moves: seq<Move>, n: nat)
    requires 0 < n < |moves|
    ensures Visited(moves[..n + 1]) == Visited(moves[..n]) + [moves[n].target]
  {
    assert moves[..n + 1][..n] == moves[..n];
  }

  /** Once a move has been made, contiguity keeps the check from adding sources. */
  lemma NoSourceAdded(moves: seq<Move>, n: nat)
    requires 0 < n < |moves| && Contiguous(moves)
    ensures SeenBefore(moves, n) == Seen(moves, n)
    ensures MovePasses(moves, n) <==> moves[n].target !in Seen(moves, n)
  {
    assert Linked(moves, n);
  }

  lemma FirstMove(moves: seq<Move>)
    requires moves != []
    ensures Visited(moves[..1]) == [moves[0].source, moves[0].target]
    ensures Seen(moves, 1) == {moves[0].source, moves[0].target}
    ensures AllPass(moves, 1) <==> moves[0].source != moves[0].target
  {
    assert moves[..1] == [moves[0]];
    assert SeenBefore(moves, 0) == {moves[0].source};
    assert AllPass(moves, 1) <==> MovePasses(moves, 0);
  }

  /** On contiguous moves the check's `seen` map is the set of visited logs. */
  lemma {:induction false} SeenIsVisited(moves: seq<Move>, n: nat)
    requires 0 < n <= |moves| && Contiguous(moves)
    ensures forall log :: log in Seen(moves, n) <==> log in Visited(moves[..n])
    decreases n
  {
    if n == 1 {
      FirstMove(moves);
    } else {
      hide Visited;
      SeenIsVisited(moves, n - 1);
      VisitedByPrefix(moves, n - 1);
      NoSourceAdded(moves, n - 1);
    }
  }

  lemma DistinctAppend(logs: seq<string>, log: string)
    ensures Distinct(logs + [log]) <==> Distinct(logs) && log !in logs
  {
    var longer := logs + [log];
    if Distinct(longer) {
      forall i | 0 <= i < |logs| ensures logs[i] != log {
        assert longer[i] != longer[|logs|];
      }
      forall i, j | 0 <= i < j < |logs| ensures logs[i] != logs[j] {
        assert longer[i] != longer[j];
      }
    }
  }

  lemma DistinctPair(a: string, b: string)
    ensures Distinct([a, b]) <==> a != b
  {
    DistinctAppend([a], b);
    assert [a] + [b] == [a, b];
  }

  /** On contiguous moves, the check passes exactly while no log is visited twice. */
  lemma {:induction false} PassMeansDistinct(moves: seq<Move>, n: nat)
    requires 0 < n <= |moves| && Contiguous(moves)
    ensures AllPass(moves, n) <==> Distinct(Visited(moves[..n]))
    decreases n
  {
    hide Visited, Seen, Distinct, Contiguous, MovePasses;
    if n == 1 {
      FirstMove(moves);
      DistinctPair(moves[0].source, moves[0].target);
    } else {
      PassMeansDistinct(moves, n - 1);
      SeenIsVisited(moves, n - 1);
      VisitedByPrefix(moves, n - 1);
      NoSourceAdded(moves, n - 1);
      DistinctAppend(Visited(moves[..n - 1]), moves[n - 1].target);
      assert AllPass(moves, n) <==> AllPass(moves, n - 1) && MovePasses(moves, n - 1);
    }
  }

  lemma PassingMovesAreContiguous(moves: seq<Move>)
    requires AllPass(moves, |moves|)
    ensures Contiguous(moves) <==> NoRestart(moves)
  {
    if NoRestart(moves) {
      forall i | 0 < i < |moves| ensures Linked(moves, i) {
        assert MovePasses(moves, i) && !Resumes(moves, i);
      }
    }
    if Contiguous(moves) {
      forall i | 0 < i < |moves| ensures !Resumes(moves, i) {
        assert Linked(moves, i);
      }
    }
  }

  /** The property the check is for: an accepted history and the migration that imports it form a
      contiguous path of distinct logs within the depth limit. It holds of an accepted history exactly when
      no move resumes elsewhere after an empty target log, which the check takes for "no migration yet". */
  lemma AcceptedPathIsSimple(event: LogEvent, history: seq<LogEvent>, encodedBytes: nat, limits: Limits)
    requires ResourcesAccepted(event, history, encodedBytes, limits)
    ensures SimplePath(FullPath(history, event)) <==> NoRestart(FullPath(history, event))
    ensures |FullPath(history, event)| <= limits.WithDefaults().maxDepth
  {
    var path := FullPath(history, event);
    PassingMovesAreContiguous(path);
    if Contiguous(path) {
      PassMeansDistinct(path, |path|);
      assert path[..|path|] == path;
    }
  }

  /** Conversely every simple path within the limits is accepted. */
  lemma SimplePathIsAccepted(event: LogEvent, history: seq<LogEvent>, encodedBytes: nat, limits: Limits)
    requires SimplePath(FullPath(history, event))
    ensures ResourcesAccepted(event, history, encodedBytes, limits) <==>
              && |history| <= limits.WithDefaults().maxHistoryEvents
              && |FullPath(history, event)| <= limits.WithDefaults().maxDepth
              && encodedBytes <= limits.WithDefaults().maxResponseBytes
  {
    var path := FullPath(history, event);
    PassMeansDistinct(path, |path|);
    assert path[..|path|] == path;
  }

  function MigrationEvent(source: string, target: string): LogEvent {
    LogEvent(Migration, "", 0, None, "", None, "", "", None, "", "", "", source, target, "")
  }

  /** A broken path that the check accepts: from log a to the empty name, then from log x to log b. */
  lemma EmptyTargetHidesAGap()
    ensures var history := [MigrationEvent("a", ""), MigrationEvent("x", "b")];
            var event := MigrationEvent("b", "c");
            ResourcesAccepted(event, history, 0, Limits(0, 0, 0)) && !Contiguous(FullPath(history, event))
  {
    var first, second, event := MigrationEvent("a", ""), MigrationEvent("x", "b"), MigrationEvent("b", "c");
    var history := [first, second];
    var path := [Move("a", ""), Move("x", "b"), Move("b", "c")];
    assert FullPath(history, event) == path by {
      assert history[..1] == [first] && [first][..0] == [];
      assert Moves([first]) == [Move("a", "")];
    }
    assert SeenBefore(path, 0) == {"a"};
    assert Seen(path, 1) == {"a", ""};
    assert SeenBefore(path, 1) == {"a", "", "x"};
    assert SeenBefore(path, 2) == {"a", "", "x", "b"};
    assert MovePasses(path, 0) && MovePasses(path, 1) && MovePasses(path, 2);
    assert !Linked(path, 1);
  }

  // ---------------------------------------------------------------------------------------------
  // With the replay of the same history

  lemma {:induction false} LifecycleNamesTargets(history: seq<LogEvent>)
    requires Snapshot.Lifecycle(history).Ok?
    ensures forall i | 0 <= i < |Moves(history)| :: Moves(history)[i].target != ""
    decreases |history|
  {
    if history != [] {
      LifecycleNamesTargets(history[..|history| - 1]);
    }
  }

  /** The gap is closed by the replay that follows the check: whoever accepts the history also takes its snapshot
      at its latest time, which refuses a migration to the empty log. So every history that passes both is a
      contiguous path of distinct logs within the depth limit. */
  lemma ReplayedPathIsSimple(event: LogEvent, history: seq<LogEvent>, encodedBytes: nat, limits: Limits, latest: int)
    requires ResourcesAccepted(event, history, encodedBytes, limits)
    requires forall i | 0 <= i < |history| :: history[i].timestamp <= latest
    requires Snapshot.SnapshotSpec(event.domain, history, latest).Ok?
    ensures SimplePath(FullPath(history, event))
    ensures |FullPath(history, event)| <= limits.WithDefaults().maxDepth
  {
    hide SimplePath, ResourcesAccepted, Moves, Snapshot.SnapshotSpec, Snapshot.Lifecycle;
    var k := |Snapshot.SnapshotSpec(event.domain, history, latest).value.events|;
    Snapshot.SnapshotCharacterized(event.domain, history, latest, k);
    Snapshot.CutsAreOrdered(history, latest, |history|, latest, k);
    assert history[..k] == history;
    LifecycleNamesTargets(history);
    AcceptedPathIsSimple(event, history, encodedBytes, limits);
  }

  /** Walks the imported history with a `seen` map, the last log reached and a count of migrations. */
  method ValidateMigrationResources(event: LogEvent, history: seq<LogEvent>, encodedBytes: nat, limits: Limits)
      returns (ok: bool)
    ensures ok <==> ResourcesAccepted(event, history, encodedBytes, limits)
  {
    var l := limits.WithDefaults();
    if |history| > l.maxHistoryEvents {
      return false;
    }
    ghost var path := FullPath(history, event);
    var migrations, seen, lastLog := 1, {}, "";
    var i := 0;
    ghost var n := 0;
    while i < |history|
      invariant 0 <= i <= |history|
      invariant n == |Moves(history[..i])| && n < |path|
      invariant migrations == n + 1 && seen == Seen(path, n) && lastLog == Last(path, n)
      invariant AllPass(path, n)
    {
      var prior := history[i];
      PathAt(history, event, i);
      if prior.kind == Migration {
        migrations := migrations + 1;
        if lastLog == "" {
          seen := seen + {prior.previousLog};
        } else if prior.previousLog != lastLog {
          assert !MovePasses(path, n);
          return false;
        }
        assert seen == SeenBefore(path, n);
        if prior.newLog in seen {
          assert !MovePasses(path, n);
          return false;
        }
        assert MovePasses(path, n);
        seen := seen + {prior.newLog};
        lastLog := prior.newLog;
        n := n + 1;
        assert seen == Seen(path, n) && lastLog == Last(path, n);
      }
      i := i + 1;
    }
    assert history[..i] == history;
    assert path[n] == MoveOf(event) && |path| == n + 1;
    if migrations > l.maxDepth {
      return false;
    }
    if lastLog != "" && lastLog != event.previousLog {
      assert !MovePasses(path, n);
      return false;
    }
    if lastLog == "" {
      seen := seen + {event.previousLog};
    }
    if event.newLog in seen {
      assert !MovePasses(path, n);
      return false;
    }
    assert MovePasses(path, n);
    ok := encodedBytes <= l.maxResponseBytes;
  }

  lemma {:induction false} MovesArePrefix(history: seq<LogEvent>, i: nat)
    requires i <= |history|
    ensures Moves(history[..i]) <= Moves(history)
    decreases |history|
  {
    if i == |history| {
      assert history[..i] == history;
    } else {
      var init := history[..|history| - 1];
      MovesArePrefix(init, i);
      assert init[..i] == history[..i];
    }
  }

  /** The next migration of the history is the next move of the path. */
  lemma PathAt(history: seq<LogEvent>, event: LogEvent, i: nat)
    requires i < |history|
    ensures var n := |Moves(history[..i])|;
            if history[i].kind == Migration
            then |Moves(history[..i + 1])| == n + 1 < |FullPath(history, event)|
                && FullPath(history, event)[n] == MoveOf(history[i])
            else Moves(history[..i + 1]) == Moves(history[..i])
  {
    assert history[..i + 1][..i] == history[..i];
    MovesArePrefix(history, i + 1);
  }

  // ---------------------------------------------------------------------------------------------
  // Nested verification contexts

  /** What the context of a nested verification records. */
  datatype PathContext = PathContext(nextLog: string, depth: nat, seen: set<string>, limits: Limits)

  /** Entering the verification of a migration that left `previousLog` for `currentLog`. */
  function EnterMigration(context: Option<PathContext>, previousLog: string, currentLog: string,
                          local: Limits): Option<PathContext> {
    var limits := if context.Some? then context.value.limits else local.WithDefaults();
    if context.Some? && context.value.nextLog != currentLog then None
    else if context.Some? && context.value.depth >= limits.maxDepth then None
    else
      var seen := if context.Some? then context.value.seen else {currentLog};
      var depth := if context.Some? then context.value.depth else 0;
      if previousLog in seen then None
      else Some(PathContext(previousLog, depth + 1, seen + {previousLog}, limits))
  }

  /** One nested call: the log whose verifier runs, the log it migrated from, and that client's own limits. */
  datatype Entry = Entry(currentLog: string, previousLog: string, local: Limits)

  /** The context after a nest of entries, or `None` if one of them is refused. */
  function EnterAll(entries: seq<Entry>): Option<PathContext>
    requires entries != []
    decreases |entries|
  {
    var last := entries[|entries| - 1];
    if |entries| == 1 then EnterMigration(None, last.previousLog, last.currentLog, last.local)
    else
      match EnterAll(entries[..|entries| - 1])
      case None => None
      case Some(context) => EnterMigration(Some(context), last.previousLog, last.currentLog, last.local)
  }

  function EntryMoves(entries: seq<Entry>): (moves: seq<Move>)
    ensures |moves| == |entries|
  {
    seq(|entries|, i requires 0 <= i < |entries| => Move(entries[i].currentLog, entries[i].previousLog))
  }

  /** A nest of verifications is entered exactly when it walks back along a simple path no longer than the
      outermost client's depth limit; what nested clients configure has no influence. */
  lemma {:induction false} NestIsSimplePath(entries: seq<Entry>)
    requires entries != []
    ensures var limits := entries[0].local.WithDefaults();
            EnterAll(entries).Some? <==> SimplePath(EntryMoves(entries)) && |entries| <= limits.maxDepth
    ensures EnterAll(entries).Some? ==>
              var context := EnterAll(entries).value;
              && context.limits == entries[0].local.WithDefaults() && context.depth == |entries|
              && context.nextLog == entries[|entries| - 1].previousLog
              && context.seen == set log | log in Visited(EntryMoves(entries))
    decreases |entries|
  {
    hide Visited, Distinct, Contiguous;
    var moves := EntryMoves(entries);
    if |entries| == 1 {
      assert moves == [Move(entries[0].currentLog, entries[0].previousLog)] == moves[..1];
      FirstMove(moves);
      DistinctPair(entries[0].currentLog, entries[0].previousLog);
      SingleMoveIsContiguous(moves);
    } else {
      var init, last := entries[..|entries| - 1], entries[|entries| - 1];
      NestIsSimplePath(init);
      NestExtends(EntryMoves(init), Move(last.currentLog, last.previousLog));
      assert moves == EntryMoves(init) + [Move(last.currentLog, last.previousLog)];
    }
  }

  lemma SingleMoveIsContiguous(moves: seq<Move>)
    requires |moves| == 1
    ensures Contiguous(moves)
  {
  }

  lemma VisitedAppend(init: seq<Move>, last: Move)
    requires init != []
    ensures Visited(init + [last]) == Visited(init) + [last.target]
  {
    assert (init + [last])[..|init|] == init;
  }

  lemma NestExtends(init: seq<Move>, last: Move)
    requires init != []
    ensures Visited(init + [last]) == Visited(init) + [last.target]
    ensures SimplePath(init + [last]) <==>
              SimplePath(init) && init[|init| - 1].target == last.source && last.target !in Visited(init)
  {
    hide Visited, Distinct, Contiguous;
    VisitedAppend(init, last);
    DistinctAppend(Visited(init), last.target);
    ContiguousAppend(init, last);
  }

  lemma ContiguousAppend(init: seq<Move>, last: Move)
    requires init != []
    ensures Contiguous(init + [last]) <==> Contiguous(init) && init[|init| - 1].target == last.source
  {
    var moves := init + [last];
    forall i | 0 < i < |init| ensures Linked(moves, i) <==> Linked(init, i) {
      assert moves[i - 1] == init[i - 1] && moves[i] == init[i];
    }
    assert moves[|init| - 1] == init[|init| - 1];
    assert Linked(moves, |init|) <==> init[|init| - 1].target == last.source;
    if Contiguous(init) && init[|init| - 1].target == last.source {
      forall i | 0 < i < |moves| ensures Linked(moves, i) {
        if i < |init| {
          assert Linked(init, i);
        }
      }
    }
  }
}
