/** Proof boundaries of an imported history (`log/c2sptlog/client.go`, `validatedPriorEvidence` and the
    boundaries that `VerifyNonRevocation` reports). */
module PriorEvidence {
  import opened Wrappers
  import opened LogEvents
  import opened Numerals

  datatype LoggedStateEvidence = LoggedStateEvidence(
    log: string,
    active: bool,
    historyStart: string,
    historyEnd: string,
    completeThrough: string,
    completenessMode: string,
    checkpoint: seq<int>,
    freshnessTime: int,
    prior: seq<LoggedStateEvidence>)

  /** The verified history imported by a migration. */
  datatype MigrationResult = MigrationResult(
    history: seq<LogEvent>,
    references: seq<string>,
    evidence: Option<LoggedStateEvidence>)

  function FinalEventRef(log: string, index: nat): string {
    log + "@" + Decimal(index)
  }

  /** A reference is the log, an at-sign and the index in decimal. */
  lemma FinalEventRefReads(log: string, index: nat)
    ensures var s := FinalEventRef(log, index);
            && |s| > |log| + 1 && s[..|log|] == log && s[|log|] == '@'
            && (forall i | |log| < i < |s| :: IsDigit(s[i])) && (s[|log| + 1] == '0' ==> index == 0)
            && Value(s[|log| + 1..]) == index
  {
    hide Value;
    var s := FinalEventRef(log, index);
    assert s[|log| + 1..] == Decimal(index) && s[..|log|] == log;
    ValueOfDecimal(index);
    NoLeadingZero(index);
    forall i | |log| < i < |s| ensures IsDigit(s[i]) {
      assert s[i] == Decimal(index)[i - |log| - 1];
    }
  }

  lemma FinalEventRefIsInjective(log: string, i: nat, j: nat)
    requires FinalEventRef(log, i) == FinalEventRef(log, j)
    ensures i == j
  {
    assert Decimal(i) == FinalEventRef(log, i)[|log| + 1..] == FinalEventRef(log, j)[|log| + 1..] == Decimal(j);
    DecimalIsInjective(i, j);
  }

  /** Where the history changes logs: the positions of its migration events. */
  function Cuts(history: seq<LogEvent>): (cuts: seq<nat>)
    ensures forall j | 0 <= j < |cuts| :: cuts[j] < |history|
    decreases |history|
  {
    if history == [] then []
    else
      var init := history[..|history| - 1];
      Cuts(init) + if IsMigration(history[|init|]) then [|init|] else []
  }

  /** Evidence items of the imported logs, oldest first. */
  function AllItems(result: MigrationResult): (all: seq<LoggedStateEvidence>)
    requires result.evidence.Some?
    ensures |all| > 0
  {
    result.evidence.value.prior + [result.evidence.value]
  }

  predicate Complete(item: LoggedStateEvidence) {
    && item.log != "" && item.historyStart != "" && item.historyEnd != "" && item.completeThrough != ""
    && item.completenessMode != "" && item.checkpoint != [] && item.freshnessTime != 0 && item.active
  }

  ghost predicate DistinctLogs(all: seq<LoggedStateEvidence>) {
    forall i, j | 0 <= i < j < |all| :: all[i].log != all[j].log
  }

  /** The checks made at the migration event in position `i`, which is the `j`-th. */
  predicate BoundaryMatches(all: seq<LoggedStateEvidence>, history: seq<LogEvent>, refs: seq<string>, i: nat, j: nat)
    requires i < |history| == |refs| && j + 1 < |all|
  {
    && i != 0
    && all[j].log == history[i].previousLog
    && all[j].historyEnd == refs[i - 1] == history[i].finalEntryRef
    && all[j + 1].log == history[i].newLog
    && all[j + 1].historyStart == refs[i]
  }

  /** What `validatedPriorEvidence` accepts for the migration `event`. */
  ghost predicate EvidenceAccepted(event: LogEvent, result: MigrationResult) {
    var history, refs := result.history, result.references;
    && result.evidence.Some?
    && |refs| == |history| > 0 && refs[|refs| - 1] == event.finalEntryRef
    && result.evidence.value.log == event.previousLog && result.evidence.value.historyEnd == event.finalEntryRef
    && var all, cuts := AllItems(result), Cuts(history);
       && all[0].historyStart == refs[0]
       && |all| == |cuts| + 1
       && (forall i | 0 <= i < |refs| :: refs[i] != "")
       && (forall j | 0 <= j < |cuts| :: BoundaryMatches(all, history, refs, cuts[j], j))
       && (forall k | 0 <= k < |all| :: Complete(all[k]))
       && DistinctLogs(all)
  }

  // ---------------------------------------------------------------------------------------------
  // Accepted evidence partitions the history

  /** One item covers positions `lo` to `hi - 1`: it starts and ends at their references, and only its first
      event can be a migration, which then hands over from the previous item's log. */
  ghost predicate Covers(all: seq<LoggedStateEvidence>, history: seq<LogEvent>, refs: seq<string>, k: nat, lo: nat,
                         hi: nat)
    requires k < |all| && |history| == |refs|
  {
    && lo < hi <= |history|
    && all[k].historyStart == refs[lo] && all[k].historyEnd == refs[hi - 1]
    && (forall i | lo < i < hi :: !IsMigration(history[i]))
    && (k == 0 ==> !IsMigration(history[lo]))
    && (k > 0 ==>
          && lo > 0 && IsMigration(history[lo])
          && history[lo].previousLog == all[k - 1].log && history[lo].newLog == all[k].log
          && history[lo].finalEntryRef == refs[lo - 1])
  }

  /** `bounds` cuts the history into consecutive nonempty segments, one for each item. */
  ghost predicate Partitions(all: seq<LoggedStateEvidence>, history: seq<LogEvent>, refs: seq<string>,
                             bounds: seq<nat>) {
    && |history| == |refs| && |bounds| == |all| + 1 && |all| > 0
    && bounds[0] == 0 && bounds[|all|] == |history|
    && forall k | 0 <= k < |all| :: Covers(all, history, refs, k, bounds[k], bounds[k + 1])
  }

  function Bounds(history: seq<LogEvent>): seq<nat> {
    [0] + Cuts(history) + [|history|]
  }

  lemma {:induction false} CutsAreTheMigrations(history: seq<LogEvent>)
    ensures var cuts := Cuts(history);
            && (forall j | 0 <= j < |cuts| :: IsMigration(history[cuts[j]]))
            && (forall i, j | 0 <= i < j < |cuts| :: cuts[i] < cuts[j])
            && (forall i | 0 <= i < |history| && IsMigration(history[i]) :: i in cuts)
    decreases |history|
  {
    if history != [] {
      var init := history[..|history| - 1];
      CutsAreTheMigrations(init);
      forall i | 0 <= i < |history| && IsMigration(history[i]) ensures i in Cuts(history) {
        assert i < |init| ==> init[i] == history[i];
      }
    }
  }

  /** Between consecutive bounds only the first event can be a migration. */
  lemma SegmentsHoldNoCut(history: seq<LogEvent>, k: nat, i: nat)
    requires k + 1 < |Bounds(history)| && Bounds(history)[k] < i < Bounds(history)[k + 1] && i < |history|
    ensures !IsMigration(history[i])
  {
    var cuts, bounds := Cuts(history), Bounds(history);
    CutsAreTheMigrations(history);
    forall j | 0 <= j < |cuts| ensures cuts[j] != i {
      if j < k {
        assert bounds[k] == cuts[k - 1];
      } else {
        assert bounds[k + 1] == cuts[k];
      }
    }
    assert i !in cuts;
  }

  lemma BoundsIncrease(history: seq<LogEvent>, k: nat)
    requires history != [] && !IsMigration(history[0]) && k <= |Cuts(history)|
    ensures Bounds(history)[k] < Bounds(history)[k + 1] <= |history|
  {
    hide Cuts;
    var cuts, bounds := Cuts(history), Bounds(history);
    CutsAreTheMigrations(history);
    assert k > 0 ==> bounds[k] == cuts[k - 1];
    assert k < |cuts| ==> bounds[k + 1] == cuts[k];
    if k == 0 && k < |cuts| {
      assert IsMigration(history[cuts[0]]);
    }
  }

  lemma AcceptedHistoryStartsWithoutMigration(event: LogEvent, result: MigrationResult)
    requires EvidenceAccepted(event, result)
    ensures !IsMigration(result.history[0])
  {
    hide Complete, DistinctLogs, Cuts;
    var cuts := Cuts(result.history);
    CutsAreTheMigrations(result.history);
    forall j | 0 <= j < |cuts| ensures cuts[j] != 0 {
      assert BoundaryMatches(AllItems(result), result.history, result.references, cuts[j], j);
    }
    assert 0 !in cuts;
  }

  lemma SegmentIsCovered(event: LogEvent, result: MigrationResult, k: nat)
    requires EvidenceAccepted(event, result) && k < |AllItems(result)|
    ensures Covers(AllItems(result), result.history, result.references, k, Bounds(result.history)[k],
                   Bounds(result.history)[k + 1])
  {
    hide Complete, DistinctLogs, Cuts;
    var history, refs, all := result.history, result.references, AllItems(result);
    var cuts, bounds := Cuts(history), Bounds(history);
    var lo, hi := bounds[k], bounds[k + 1];
    CutsAreTheMigrations(history);
    AcceptedHistoryStartsWithoutMigration(event, result);
    BoundsIncrease(history, k);
    if k > 0 {
      assert lo == cuts[k - 1];
      assert BoundaryMatches(all, history, refs, cuts[k - 1], k - 1);
      assert IsMigration(history[cuts[k - 1]]);
    }
    if k < |cuts| {
      assert hi == cuts[k];
      assert BoundaryMatches(all, history, refs, cuts[k], k);
    } else {
      assert hi == |history| && all[k] == result.evidence.value;
    }
    forall i | lo < i < hi ensures !IsMigration(history[i]) {
      SegmentsHoldNoCut(history, k, i);
    }
  }

  /** Accepted evidence cuts the imported history into consecutive nonempty segments, one for each distinct
      log, whose bounds are the references of the segment's first and last events. */
  lemma AcceptedEvidencePartitions(event: LogEvent, result: MigrationResult)
    requires EvidenceAccepted(event, result)
    ensures Partitions(AllItems(result), result.history, result.references, Bounds(result.history))
    ensures DistinctLogs(AllItems(result))
    ensures forall k | 0 <= k < |AllItems(result)| ::
              var item := AllItems(result)[k];
              && item.log != "" && item.historyStart != "" && item.historyEnd != ""
              && item.completeThrough != "" && item.completenessMode != ""
              && item.checkpoint != [] && item.freshnessTime != 0 && item.active
  {
    forall k | 0 <= k < |AllItems(result)|
      ensures Covers(AllItems(result), result.history, result.references, k, Bounds(result.history)[k],
                     Bounds(result.history)[k + 1])
    {
      SegmentIsCovered(event, result, k);
    }
  }

  lemma CutsOfPrefix(history: seq<LogEvent>, n: nat)
    requires n < |history|
    ensures Cuts(history[..n + 1]) == Cuts(history[..n]) + if IsMigration(history[n]) then [n] else []
  {
    assert history[..n + 1][..n] == history[..n];
  }

  /** A partition has its inner bounds at the migrations, so there is only one. */
  lemma {:induction false} PartitionOfPrefix(all: seq<LoggedStateEvidence>, history: seq<LogEvent>, refs: seq<string>,
                                             bounds: seq<nat>, n: nat, k: nat)
    requires Partitions(all, history, refs, bounds)
    requires k < |all| && bounds[k] <= n < bounds[k + 1] && n < |history|
    ensures Cuts(history[..n + 1]) == bounds[1..k + 1]
    decreases n
  {
    hide Cuts;
    CutsOfPrefix(history, n);
    assert Covers(all, history, refs, k, bounds[k], bounds[k + 1]);
    if n > bounds[k] {
      PartitionOfPrefix(all, history, refs, bounds, n - 1, k);
    } else if k > 0 {
      assert Covers(all, history, refs, k - 1, bounds[k - 1], bounds[k]);
      PartitionOfPrefix(all, history, refs, bounds, n - 1, k - 1);
      assert bounds[1..k + 1] == bounds[1..k] + [bounds[k]];
    } else {
      CutsOfNothing(history);
    }
  }

  lemma CutsOfNothing(history: seq<LogEvent>)
    ensures Cuts(history[..0]) == []
  {
  }

  lemma PartitionIsUnique(all: seq<LoggedStateEvidence>, history: seq<LogEvent>, refs: seq<string>, bounds: seq<nat>)
    requires Partitions(all, history, refs, bounds)
    ensures bounds == Bounds(history)
  {
    var k := |all| - 1;
    assert Covers(all, history, refs, k, bounds[k], bounds[k + 1]);
    PartitionOfPrefix(all, history, refs, bounds, |history| - 1, k);
    assert history[..|history|] == history;
  }

  /** Conversely, complete evidence of distinct logs that partitions a history ending at the signed cutoff of
      the previous log is accepted. Acceptance therefore means exactly this. */
  lemma PartitionIsAccepted(event: LogEvent, result: MigrationResult, bounds: seq<nat>)
    requires result.evidence.Some?
    requires Partitions(AllItems(result), result.history, result.references, bounds) && DistinctLogs(AllItems(result))
    requires forall i | 0 <= i < |result.references| :: result.references[i] != ""
    requires forall k | 0 <= k < |AllItems(result)| ::
               var item := AllItems(result)[k];
               && item.log != "" && item.historyStart != "" && item.historyEnd != ""
               && item.completeThrough != "" && item.completenessMode != ""
               && item.checkpoint != [] && item.freshnessTime != 0 && item.active
    requires result.evidence.value.log == event.previousLog && result.evidence.value.historyEnd == event.finalEntryRef
    ensures EvidenceAccepted(event, result)
  {
    var history, refs, all := result.history, result.references, AllItems(result);
    PartitionIsUnique(all, history, refs, bounds);
    var cuts := Cuts(history);
    assert Covers(all, history, refs, 0, bounds[0], bounds[1]);
    assert Covers(all, history, refs, |all| - 1, bounds[|all| - 1], bounds[|all|]);
    forall j | 0 <= j < |cuts| ensures BoundaryMatches(all, history, refs, cuts[j], j) {
      assert Covers(all, history, refs, j, bounds[j], bounds[j + 1]);
      assert Covers(all, history, refs, j + 1, bounds[j + 1], bounds[j + 2]);
      assert cuts[j] == bounds[j + 1];
    }
  }

  // ---------------------------------------------------------------------------------------------
  // The validation

  /** The returned items carry no nested evidence. */
  function Flatten(all: seq<LoggedStateEvidence>): (flat: seq<LoggedStateEvidence>)
    ensures |flat| == |all|
  {
    seq(|all|, i requires 0 <= i < |all| => all[i].(prior := []))
  }

  lemma {:induction false} CutsArePrefix(history: seq<LogEvent>, n: nat)
    requires n <= |history|
    ensures Cuts(history[..n]) <= Cuts(history)
    decreases |history|
  {
    if n == |history| {
      assert history[..n] == history;
    } else {
      var init := history[..|history| - 1];
      CutsArePrefix(init, n);
      assert init[..n] == history[..n];
    }
  }

  /** The migration at position `i` is the cut that the earlier migrations count up to. */
  lemma CutAt(history: seq<LogEvent>, i: nat)
    requires i < |history|
    ensures var j := |Cuts(history[..i])|;
            if IsMigration(history[i])
            then j < |Cuts(history)| && Cuts(history)[j] == i && |Cuts(history[..i + 1])| == j + 1
            else |Cuts(history[..i + 1])| == j
  {
    hide Cuts;
    CutsOfPrefix(history, i);
    CutsArePrefix(history, i + 1);
  }

  method ValidatePriorEvidence(event: LogEvent, result: MigrationResult) returns (r: Option<seq<LoggedStateEvidence>>)
    ensures r.Some? <==> EvidenceAccepted(event, result)
    ensures r.Some? ==> r.value == Flatten(AllItems(result))
    ensures r.Some? ==> |r.value| == |result.evidence.value.prior| + 1
    ensures r.Some? ==> r.value[|r.value| - 1] == result.evidence.value.(prior := [])
    ensures r.Some? ==> forall k | 0 <= k < |r.value| - 1 :: r.value[k] == result.evidence.value.prior[k].(prior := [])
  {
    hide Cuts;
    var history, refs := result.history, result.references;
    if result.evidence.None? {
      return None;
    }
    if |refs| == 0 || |refs| != |history| || refs[|refs| - 1] != event.finalEntryRef {
      return None;
    }
    var current := result.evidence.value;
    if current.log != event.previousLog || current.historyEnd != event.finalEntryRef {
      return None;
    }
    var all := current.prior + [current];
    if all[0].historyStart != refs[0] {
      return None;
    }
    var migrations := CountMigrations(history);
    if |all| != migrations + 1 {
      return None;
    }
    var stitched := CheckBoundaries(all, history, refs);
    if !stitched {
      return None;
    }
    var complete := CheckItems(all);
    if !complete {
      return None;
    }
    r := Some(Flatten(all));
  }

  method CountMigrations(history: seq<LogEvent>) returns (n: nat)
    ensures n == |Cuts(history)|
  {
    hide Cuts;
    n := 0;
    CutsOfNothing(history);
    for i := 0 to |history|
      invariant n == |Cuts(history[..i])|
    {
      CutAt(history, i);
      if IsMigration(history[i]) {
        n := n + 1;
      }
    }
    assert history[..|history|] == history;
  }

  method CheckBoundaries(all: seq<LoggedStateEvidence>, history: seq<LogEvent>, refs: seq<string>) returns (ok: bool)
    requires |history| == |refs| && |all| == |Cuts(history)| + 1
    ensures ok <==>
              && (forall i | 0 <= i < |refs| :: refs[i] != "")
              && (forall j | 0 <= j < |Cuts(history)| :: BoundaryMatches(all, history, refs, Cuts(history)[j], j))
  {
    hide Cuts;
    var migrationIndex := 0;
    CutsOfNothing(history);
    for i := 0 to |history|
      invariant migrationIndex == |Cuts(history[..i])| <= |Cuts(history)|
      invariant forall k | 0 <= k < i :: refs[k] != ""
      invariant forall j | 0 <= j < migrationIndex :: BoundaryMatches(all, history, refs, Cuts(history)[j], j)
    {
      CutAt(history, i);
      if refs[i] == "" {
        return false;
      }
      if IsMigration(history[i]) {
        var prior, next := all[migrationIndex], all[migrationIndex + 1];
        if i == 0 || prior.log != history[i].previousLog || prior.historyEnd != refs[i - 1] ||
           refs[i - 1] != history[i].finalEntryRef || next.log != history[i].newLog || next.historyStart != refs[i]
        {
          assert !BoundaryMatches(all, history, refs, Cuts(history)[migrationIndex], migrationIndex);
          return false;
        }
        migrationIndex := migrationIndex + 1;
      }
    }
    assert history[..|history|] == history;
    ok := true;
  }

  method CheckItems(all: seq<LoggedStateEvidence>) returns (ok: bool)
    ensures ok <==> (forall k | 0 <= k < |all| :: Complete(all[k])) && DistinctLogs(all)
  {
    var seen: set<string> := {};
    for i := 0 to |all|
      invariant forall k | 0 <= k < i :: Complete(all[k])
      invariant forall log :: log in seen <==> exists k | 0 <= k < i :: all[k].log == log
      invariant DistinctLogs(all[..i])
    {
      if !Complete(all[i]) {
        return false;
      }
      if all[i].log in seen {
        return false;
      }
      seen := seen + {all[i].log};
    }
    assert all[..|all|] == all;
    ok := true;
  }
}
