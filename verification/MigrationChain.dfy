/** Producing migration evidence and consuming it at the next log (`log/c2sptlog/migration.go`,
    `RebuildHistoryThrough`), along chains of any length. */
module MigrationChain {
  import opened Wrappers
  import opened LogEvents
  import opened Snapshot
  import opened PriorEvidence

  datatype ProvenEntry = ProvenEntry(index: nat, entry: seq<int>)

  /** The entries up to the cutoff. */
  function UpTo(entries: seq<ProvenEntry>, cutoff: nat): seq<ProvenEntry>
    decreases |entries|
  {
    if entries == [] then []
    else
      var init, last := entries[..|entries| - 1], entries[|entries| - 1];
      UpTo(init, cutoff) + if last.index <= cutoff then [last] else []
  }

  /** Selects the history through a signed cutoff; later entries are not imported. An occurrence at the
      cutoff that the history omits is read by itself and appended. */
  method SelectPrefix(entries: seq<ProvenEntry>, cutoff: nat, completeThrough: nat, read: Option<ProvenEntry>)
    returns (r: Option<(seq<ProvenEntry>, ProvenEntry)>)
    ensures r.Some? <==>
              && cutoff < completeThrough
              && (HasIndex(entries, cutoff) || (read.Some? && read.value.index == cutoff))
    ensures r.Some? ==>
              && r.value.1 in r.value.0 && r.value.1.index == cutoff
              && r.value.0 == UpTo(entries, cutoff) + if HasIndex(entries, cutoff) then [] else [read.value]
  {
    if cutoff >= completeThrough {
      return None;
    }
    var prefix, occurrence := [], None;
    for i := 0 to |entries|
      invariant prefix == UpTo(entries[..i], cutoff)
      invariant occurrence.Some? <==> HasIndex(entries[..i], cutoff)
      invariant occurrence.Some? ==> occurrence.value in prefix && occurrence.value.index == cutoff
    {
      var entry := entries[i];
      assert entries[..i + 1][..i] == entries[..i];
      assert entries[..i + 1] == entries[..i] + [entry];
      if entry.index <= cutoff {
        prefix := prefix + [entry];
      }
      if entry.index == cutoff {
        occurrence := Some(entry);
      }
    }
    assert entries[..|entries|] == entries;
    if occurrence.None? {
      if read.None? || read.value.index != cutoff {
        return None;
      }
      occurrence, prefix := read, prefix + [read.value];
    }
    r := Some((prefix, occurrence.value));
  }

  predicate HasIndex(entries: seq<ProvenEntry>, index: nat) {
    exists e :: e in entries && e.index == index
  }

  /** The selected entries are those at exactly the positions up to the cutoff, each position once and in order. */
  lemma {:induction false} UpToKeepsExactly(entries: seq<ProvenEntry>, cutoff: nat) returns (positions: seq<nat>)
    ensures |positions| == |UpTo(entries, cutoff)|
    ensures forall j | 0 <= j < |positions| ::
              positions[j] < |entries| && UpTo(entries, cutoff)[j] == entries[positions[j]]
    ensures forall i, j | 0 <= i < j < |positions| :: positions[i] < positions[j]
    ensures forall i: nat | i < |entries| :: i in positions <==> entries[i].index <= cutoff
    decreases |entries|
  {
    if entries == [] {
      return [];
    }
    var init, last := entries[..|entries| - 1], entries[|entries| - 1];
    var before := UpToKeepsExactly(init, cutoff);
    positions := before + if last.index <= cutoff then [|init|] else [];
    assert |init| !in before;
    forall i: nat | i < |entries| ensures i in positions <==> entries[i].index <= cutoff {
      assert i < |init| ==> entries[i] == init[i];
    }
  }

  /** A history in the order of its indexes is cut off: what is selected is its beginning. */
  lemma {:induction false} UpToIsPrefix(entries: seq<ProvenEntry>, cutoff: nat)
    requires forall i, j | 0 <= i < j < |entries| :: entries[i].index < entries[j].index
    ensures UpTo(entries, cutoff) <= entries
    ensures forall i | |UpTo(entries, cutoff)| <= i < |entries| :: entries[i].index > cutoff
    ensures forall i | 0 <= i < |UpTo(entries, cutoff)| :: UpTo(entries, cutoff)[i].index <= cutoff
    decreases |entries|
  {
    if entries != [] {
      var init, last := entries[..|entries| - 1], entries[|entries| - 1];
      UpToIsPrefix(init, cutoff);
      assert entries == init + [last];
      if last.index <= cutoff {
        assert forall i | 0 <= i < |init| :: init[i] == entries[i] && init[i].index <= cutoff;
        assert UpTo(init, cutoff) == init;
      }
    }
  }

  // ---------------------------------------------------------------------------------------------
  // One hop

  datatype Occurrence = Occurrence(event: LogEvent, index: nat)

  /** A verified stream: its accepted events with the index of each one's first occurrence, the index of
      the signed cutoff, and the completeness data of the source. */
  datatype Stream = Stream(
    log: string,
    verified: seq<Occurrence>,
    active: bool,
    cutoff: nat,
    completeThrough: string,
    completenessMode: string,
    checkpoint: seq<int>,
    freshnessTime: int)

  function Events(verified: seq<Occurrence>): (events: seq<LogEvent>)
    ensures |events| == |verified|
    ensures forall i | 0 <= i < |events| :: events[i] == verified[i].event
  {
    seq(|verified|, i requires 0 <= i < |verified| => verified[i].event)
  }

  /** References of the events' first occurrences. */
  function OwnRefs(log: string, verified: seq<Occurrence>): (refs: seq<string>)
    ensures |refs| == |verified|
    ensures forall i | 0 <= i < |refs| :: refs[i] == FinalEventRef(log, verified[i].index)
  {
    seq(|verified|, i requires 0 <= i < |verified| => FinalEventRef(log, verified[i].index))
  }

  function ImportedHistory(imported: Option<MigrationResult>): seq<LogEvent> {
    if imported.Some? then imported.value.history else []
  }

  function ImportedRefs(imported: Option<MigrationResult>): seq<string> {
    if imported.Some? then imported.value.references else []
  }

  function ImportedItems(imported: Option<MigrationResult>): seq<LoggedStateEvidence> {
    if imported.Some? && imported.value.evidence.Some? then Flatten(AllItems(imported.value)) else []
  }

  function CutoffRef(s: Stream): string {
    FinalEventRef(s.log, s.cutoff)
  }

  /** The result for one stream: the stitched history, its references with the last one replaced by the
      cutoff, and the stream's evidence on top of the imported evidence. */
  function Rebuilt(s: Stream, imported: Option<MigrationResult>): (r: MigrationResult)
    requires s.verified != []
  {
    var refs := ImportedRefs(imported) + OwnRefs(s.log, s.verified);
    MigrationResult(
      ImportedHistory(imported) + Events(s.verified),
      refs[|refs| - 1 := CutoffRef(s)],
      Some(LoggedStateEvidence(s.log, true, FinalEventRef(s.log, s.verified[0].index), CutoffRef(s),
                               s.completeThrough, s.completenessMode, s.checkpoint, s.freshnessTime,
                               ImportedItems(imported))))
  }

  /** The result, or nothing if the stream is terminal or the imported evidence is refused. */
  ghost function Rebuild(s: Stream, imported: Option<MigrationResult>): Option<MigrationResult>
    requires s.verified != []
  {
    if !s.active then None
    else if imported.Some? && !EvidenceAccepted(s.verified[0].event, imported.value) then None
    else Some(Rebuilt(s, imported))
  }

  /** Limits on the events of a result and on its encoded bytes. */
  datatype ResultLimits = ResultLimits(maxEvents: nat, maxBytes: nat)

  predicate Fits(limits: ResultLimits, encodedSize: MigrationResult -> nat, result: MigrationResult) {
    |result.history| <= limits.maxEvents && encodedSize(result) <= limits.maxBytes
  }

  /** Builds the references in a loop and overwrites the last one; a result over the limits is dropped. */
  method RebuildHistoryThrough(s: Stream, imported: Option<MigrationResult>, limits: ResultLimits,
                               encodedSize: MigrationResult -> nat)
    returns (r: Option<MigrationResult>)
    requires s.verified != []
    ensures var rebuilt := Rebuild(s, imported);
            r == if rebuilt.Some? && Fits(limits, encodedSize, rebuilt.value) then rebuilt else None
  {
    hide FinalEventRef, Flatten, Cuts, Complete, DistinctLogs, BoundaryMatches;
    if !s.active {
      return None;
    }
    var items: seq<LoggedStateEvidence>, references: seq<string> := [], [];
    if imported.Some? {
      var validated := ValidatePriorEvidence(s.verified[0].event, imported.value);
      if validated.None? {
        return None;
      }
      items, references := validated.value, imported.value.references;
    }
    for i := 0 to |s.verified|
      invariant references == ImportedRefs(imported) + OwnRefs(s.log, s.verified)[..i]
    {
      references := references + [FinalEventRef(s.log, s.verified[i].index)];
    }
    assert OwnRefs(s.log, s.verified)[..|s.verified|] == OwnRefs(s.log, s.verified);
    assert items == ImportedItems(imported);
    references := references[|references| - 1 := FinalEventRef(s.log, s.cutoff)];
    var evidence := LoggedStateEvidence(s.log, true, FinalEventRef(s.log, s.verified[0].index),
                                        FinalEventRef(s.log, s.cutoff),
                                        s.completeThrough, s.completenessMode, s.checkpoint, s.freshnessTime, items);
    var result := MigrationResult(ImportedHistory(imported) + Events(s.verified), references, Some(evidence));
    if |result.history| > limits.maxEvents || encodedSize(result) > limits.maxBytes {
      return None;
    }
    r := Some(result);
  }

  /** What lifecycle verification guarantees of a stream: it starts with an issuance or, exactly if history
      was imported, with a migration into this log, and holds no other migration. */
  ghost predicate WellFormed(s: Stream, migrated: bool) {
    && s.verified != [] && s.active
    && (IsMigration(s.verified[0].event) <==> migrated)
    && (migrated ==> s.verified[0].event.newLog == s.log)
    && (forall i | 0 < i < |s.verified| :: !IsMigration(s.verified[i].event))
    && s.log != "" && s.completeThrough != "" && s.completenessMode != "" && s.checkpoint != [] && s.freshnessTime != 0
  }

  /** The cutoff is the first event's first occurrence, or there is a second event. */
  predicate CutoffIsStable(s: Stream)
    requires s.verified != []
  {
    |s.verified| >= 2 || s.cutoff == s.verified[0].index
  }

  /** The migration that leaves this stream at its cutoff. */
  predicate Leaves(event: LogEvent, s: Stream) {
    event.previousLog == s.log && event.finalEntryRef == CutoffRef(s)
  }

  ghost predicate NewLog(s: Stream, imported: Option<MigrationResult>) {
    forall k | 0 <= k < |ImportedItems(imported)| :: ImportedItems(imported)[k].log != s.log
  }

  lemma {:induction false} CutsOfStitched(prior: seq<LogEvent>, own: seq<LogEvent>)
    requires own != [] && forall i | 0 < i < |own| :: !IsMigration(own[i])
    ensures Cuts(prior + own) == Cuts(prior) + if IsMigration(own[0]) then [|prior|] else []
    decreases |own|
  {
    var whole := prior + own;
    var init := own[..|own| - 1];
    assert whole[..|whole| - 1] == prior + init;
    if init == [] {
      assert prior + init == prior;
    } else {
      CutsOfStitched(prior, init);
    }
  }

  /** References before the last one are those of the first occurrences. */
  lemma RefAt(s: Stream, imported: Option<MigrationResult>, i: nat)
    requires s.verified != [] && i < |Rebuilt(s, imported).references|
    ensures var refs, n := Rebuilt(s, imported).references, |ImportedRefs(imported)|;
            && |refs| == n + |s.verified|
            && (i < n ==> refs[i] == ImportedRefs(imported)[i])
            && (i == |refs| - 1 ==> refs[i] == CutoffRef(s))
            && (n <= i < |refs| - 1 ==> refs[i] == FinalEventRef(s.log, s.verified[i - n].index))
  {
    hide FinalEventRef, ImportedItems, Events;
  }

  lemma RebuiltParts(s: Stream, imported: Option<MigrationResult>)
    requires s.verified != []
    ensures var r := Rebuilt(s, imported);
            && r.history == ImportedHistory(imported) + Events(s.verified)
            && |r.references| == |ImportedRefs(imported)| + |s.verified|
            && r.evidence.Some? && r.evidence.value.log == s.log
            && r.evidence.value.historyStart == FinalEventRef(s.log, s.verified[0].index)
            && r.evidence.value.historyEnd == CutoffRef(s)
            && r.evidence.value.active
            && r.evidence.value.completeThrough == s.completeThrough
            && r.evidence.value.completenessMode == s.completenessMode
            && r.evidence.value.checkpoint == s.checkpoint && r.evidence.value.freshnessTime == s.freshnessTime
            && AllItems(r) == ImportedItems(imported) + [r.evidence.value]
  {
    hide FinalEventRef, ImportedItems;
  }

  lemma FirstOwnRef(s: Stream, imported: Option<MigrationResult>)
    requires s.verified != []
    ensures var refs, n := Rebuilt(s, imported).references, |ImportedRefs(imported)|;
            n < |refs| && (refs[n] == FinalEventRef(s.log, s.verified[0].index) <==> CutoffIsStable(s))
  {
    var n := |ImportedRefs(imported)|;
    RefAt(s, imported, n);
    if |s.verified| == 1 && CutoffRef(s) == FinalEventRef(s.log, s.verified[0].index) {
      FinalEventRefIsInjective(s.log, s.cutoff, s.verified[0].index);
    }
  }

  lemma RefsAreNonempty(s: Stream, imported: Option<MigrationResult>)
    requires s.verified != []
    requires imported.Some? ==> EvidenceAccepted(s.verified[0].event, imported.value)
    ensures forall i | 0 <= i < |Rebuilt(s, imported).references| :: Rebuilt(s, imported).references[i] != ""
  {
    forall i | 0 <= i < |Rebuilt(s, imported).references| ensures Rebuilt(s, imported).references[i] != "" {
      RefAt(s, imported, i);
    }
  }

  lemma OwnItemIsComplete(s: Stream, imported: Option<MigrationResult>)
    requires WellFormed(s, imported.Some?)
    ensures Rebuilt(s, imported).evidence.Some? && Complete(Rebuilt(s, imported).evidence.value)
  {
    hide ImportedItems, OwnRefs, Events;
  }

  /** The imported items keep their completeness, logs and bounds. */
  lemma ItemsOfImported(event: LogEvent, prior: MigrationResult)
    requires EvidenceAccepted(event, prior)
    ensures var all, items := AllItems(prior), ImportedItems(Some(prior));
            && |items| == |all| == |Cuts(prior.history)| + 1
            && (forall k | 0 <= k < |items| :: Complete(items[k]) && items[k].log == all[k].log
                  && items[k].historyStart == all[k].historyStart && items[k].historyEnd == all[k].historyEnd)
            && DistinctLogs(items)
  {
    hide Cuts, BoundaryMatches;
  }

  lemma DistinctWithOneMore(items: seq<LoggedStateEvidence>, own: LoggedStateEvidence)
    requires DistinctLogs(items)
    ensures DistinctLogs(items + [own]) <==> forall k | 0 <= k < |items| :: items[k].log != own.log
  {
    var all := items + [own];
    if DistinctLogs(all) {
      forall k | 0 <= k < |items| ensures items[k].log != own.log {
        assert all[k].log != all[|items|].log;
      }
    }
  }

  /** The items of a rebuilt result: the imported ones, then the stream's own. */
  lemma ItemsOfRebuilt(s: Stream, imported: Option<MigrationResult>)
    requires WellFormed(s, imported.Some?) && NewLog(s, imported)
    requires imported.Some? ==> EvidenceAccepted(s.verified[0].event, imported.value)
    ensures Rebuilt(s, imported).evidence.Some?
    ensures var all, r := AllItems(Rebuilt(s, imported)), Rebuilt(s, imported);
            && |all| == |Cuts(r.history)| + 1
            && (forall k | 0 <= k < |all| :: Complete(all[k]))
            && DistinctLogs(all)
  {
    hide Cuts, Complete, DistinctLogs, EvidenceAccepted, Rebuilt, ImportedItems;
    var r := Rebuilt(s, imported);
    RebuiltParts(s, imported);
    OwnItemIsComplete(s, imported);
    CutsOfStitched(ImportedHistory(imported), Events(s.verified));
    if imported.None? {
      NoHistoryNoCuts();
      NothingImported();
    } else {
      ItemsOfImported(s.verified[0].event, imported.value);
    }
    DistinctWithOneMore(ImportedItems(imported), r.evidence.value);
  }

  lemma NothingImported()
    ensures ImportedItems(None) == [] && DistinctLogs(ImportedItems(None))
  {
  }

  lemma NoHistoryNoCuts()
    ensures Cuts([]) == []
  {
  }

  /** Boundaries inside the imported history still match, and the boundary to this stream matches exactly
      when the cutoff is stable. */
  lemma BoundariesOfRebuilt(s: Stream, prior: MigrationResult, j: nat)
    requires WellFormed(s, true) && NewLog(s, Some(prior)) && EvidenceAccepted(s.verified[0].event, prior)
    requires j <= |Cuts(prior.history)|
    ensures var r := Rebuilt(s, Some(prior));
            && r.evidence.Some? && |r.history| == |r.references|
            && |AllItems(r)| == |Cuts(r.history)| + 1 == |Cuts(prior.history)| + 2
            && (BoundaryMatches(AllItems(r), r.history, r.references, Cuts(r.history)[j], j) <==>
                  (j < |Cuts(prior.history)| || CutoffIsStable(s)))
  {
    hide Cuts, Complete, DistinctLogs, Rebuilt, ImportedItems, CutoffIsStable, FinalEventRef;
    var r, imported, n := Rebuilt(s, Some(prior)), Some(prior), |prior.history|;
    RebuiltParts(s, imported);
    ItemsOfRebuilt(s, imported);
    ItemsOfImported(s.verified[0].event, prior);
    CutsOfStitched(prior.history, Events(s.verified));
    var cuts := Cuts(prior.history);
    if j < |cuts| {
      assert BoundaryMatches(AllItems(prior), prior.history, prior.references, cuts[j], j);
      RefAt(s, imported, cuts[j]);
      RefAt(s, imported, cuts[j] - 1);
    } else {
      FirstOwnRef(s, imported);
      RefAt(s, imported, n - 1);
      assert r.history[n] == s.verified[0].event;
    }
  }

  /** The first log's result is accepted at the next hop exactly when its cutoff is stable. */
  lemma FirstHopAccepts(s: Stream, event: LogEvent)
    requires WellFormed(s, false) && Leaves(event, s)
    ensures EvidenceAccepted(event, Rebuilt(s, None)) <==> CutoffIsStable(s)
  {
    hide Cuts, Complete, DistinctLogs, BoundaryMatches, Rebuilt, ImportedItems, CutoffIsStable, FinalEventRef;
    var r := Rebuilt(s, None);
    NothingImported();
    RebuiltParts(s, None);
    ItemsOfRebuilt(s, None);
    RefsAreNonempty(s, None);
    RefAt(s, None, |r.references| - 1);
    FirstOwnRef(s, None);
    NoHistoryNoCuts();
    CutsOfStitched([], Events(s.verified));
  }

  lemma LaterHopAccepts(s: Stream, prior: MigrationResult, event: LogEvent)
    requires WellFormed(s, true) && Leaves(event, s) && NewLog(s, Some(prior))
    requires EvidenceAccepted(s.verified[0].event, prior)
    ensures EvidenceAccepted(event, Rebuilt(s, Some(prior))) <==> CutoffIsStable(s)
  {
    hide Cuts, Complete, DistinctLogs, BoundaryMatches, Rebuilt, ImportedItems, CutoffIsStable, FinalEventRef;
    var r, imported := Rebuilt(s, Some(prior)), Some(prior);
    RebuiltParts(s, imported);
    ItemsOfRebuilt(s, imported);
    ItemsOfImported(s.verified[0].event, prior);
    RefsAreNonempty(s, imported);
    RefAt(s, imported, |r.references| - 1);
    RefAt(s, imported, 0);
    BoundariesOfRebuilt(s, prior, |Cuts(prior.history)|);
    forall j | 0 <= j < |Cuts(r.history)|
      ensures BoundaryMatches(AllItems(r), r.history, r.references, Cuts(r.history)[j], j) <==>
                (j < |Cuts(prior.history)| || CutoffIsStable(s))
    {
      BoundariesOfRebuilt(s, prior, j);
    }
  }

  /** Producer and consumer agree: what one log's client rebuilds is accepted by the next log's client for
      the migration that leaves at the cutoff, provided the log is new to the chain, exactly when the cutoff
      is stable. A stream of one event whose cutoff is a later copy of it is refused, because the reference
      of its only event is replaced by the cutoff while the start of its evidence is not. */
  lemma NextHopAccepts(s: Stream, imported: Option<MigrationResult>, event: LogEvent)
    requires WellFormed(s, imported.Some?) && Leaves(event, s) && NewLog(s, imported)
    requires imported.Some? ==> EvidenceAccepted(s.verified[0].event, imported.value)
    ensures EvidenceAccepted(event, Rebuilt(s, imported)) <==> CutoffIsStable(s)
  {
    hide Rebuilt, EvidenceAccepted, CutoffIsStable, NewLog;
    if imported.None? {
      FirstHopAccepts(s, event);
    } else {
      LaterHopAccepts(s, imported.value, event);
    }
  }

  /** A stream of one event, at index 1, that was copied to index 5, where the signed cutoff is. */
  const COPIED := Stream("a", [Occurrence(ISSUANCE, 1)], true, 5, "6", "full", [0], 1)

  const ISSUANCE := LogEvent(Issuance, "d", 1, None, "", None, "", "", None, "", "", "", "", "", "")

  const DEPARTURE := LogEvent(Migration, "d", 2, None, "", None, "", "", None, "", "", "", "a", "b",
                              FinalEventRef("a", 5))

  /** The next hop refuses its evidence. */
  lemma CopiedEventIsRefused()
    ensures WellFormed(COPIED, false) && Leaves(DEPARTURE, COPIED)
    ensures !EvidenceAccepted(DEPARTURE, Rebuilt(COPIED, None))
  {
    hide Rebuilt, EvidenceAccepted;
    FirstHopAccepts(COPIED, DEPARTURE);
  }

  // ---------------------------------------------------------------------------------------------
  // Chains

  /** The result built after all the streams of a chain, each importing the result before it. */
  ghost function ChainResult(streams: seq<Stream>): Option<MigrationResult>
    requires streams != [] && forall i | 0 <= i < |streams| :: streams[i].verified != []
    decreases |streams|
  {
    var init, last := streams[..|streams| - 1], streams[|streams| - 1];
    if init == [] then Rebuild(last, None)
    else
      match ChainResult(init)
      case None => None
      case Some(result) => Rebuild(last, Some(result))
  }

  /** Consecutive streams of different logs, each started by the migration that leaves the one before. */
  ghost predicate Chain(streams: seq<Stream>) {
    && streams != []
    && (forall i | 0 <= i < |streams| :: ChainStream(streams, i))
    && (forall i, j | 0 <= i < j < |streams| :: streams[i].log != streams[j].log)
  }

  ghost predicate ChainStream(streams: seq<Stream>, i: nat)
    requires i < |streams|
  {
    var s := streams[i];
    && s.verified != []
    && (i == 0 ==> WellFormed(s, false))
    && (i > 0 ==> Leaves(s.verified[0].event, streams[i - 1]) && WellFormed(s, true))
  }

  /** The logs of a chain's evidence are the logs of its streams. */
  ghost predicate LogsOf(streams: seq<Stream>, result: MigrationResult) {
    && result.evidence.Some? && |AllItems(result)| == |streams|
    && forall k | 0 <= k < |streams| :: AllItems(result)[k].log == streams[k].log
  }

  lemma ChainOfPrefix(streams: seq<Stream>)
    requires Chain(streams) && |streams| > 1
    ensures Chain(streams[..|streams| - 1])
  {
    var init := streams[..|streams| - 1];
    forall i | 0 <= i < |init| ensures ChainStream(init, i) {
      assert ChainStream(streams, i);
    }
  }

  lemma OneMoreLog(streams: seq<Stream>, result: MigrationResult)
    requires Chain(streams) && |streams| > 1 && LogsOf(streams[..|streams| - 1], result)
    requires streams[|streams| - 1].verified != []
    ensures NewLog(streams[|streams| - 1], Some(result))
    ensures LogsOf(streams, Rebuilt(streams[|streams| - 1], Some(result)))
  {
    hide FinalEventRef, Rebuilt, ChainStream;
    var init, last := streams[..|streams| - 1], streams[|streams| - 1];
    var items := ImportedItems(Some(result));
    forall k | 0 <= k < |items| ensures items[k].log != last.log {
      assert items[k].log == AllItems(result)[k].log == init[k].log;
    }
    RebuiltParts(last, Some(result));
    var all := AllItems(Rebuilt(last, Some(result)));
    forall k | 0 <= k < |streams| ensures all[k].log == streams[k].log {
      assert k < |init| ==> all[k].log == AllItems(result)[k].log == init[k].log;
    }
  }

  ghost predicate AllStable(streams: seq<Stream>, n: nat)
    requires n <= |streams| && forall i | 0 <= i < |streams| :: streams[i].verified != []
  {
    forall i | 0 <= i < n :: CutoffIsStable(streams[i])
  }

  /** For a chain of any length, the last client gets a result exactly when every cutoff before its own is
      stable, and whoever migrates away next accepts it exactly when its own is stable too. */
  lemma {:induction false} ChainsAgree(streams: seq<Stream>, event: LogEvent)
    requires Chain(streams) && forall i | 0 <= i < |streams| :: streams[i].verified != []
    requires Leaves(event, streams[|streams| - 1])
    ensures ChainResult(streams).Some? <==> AllStable(streams, |streams| - 1)
    ensures ChainResult(streams).Some? ==>
              && LogsOf(streams, ChainResult(streams).value)
              && (EvidenceAccepted(event, ChainResult(streams).value) <==> AllStable(streams, |streams|))
    decreases |streams|
  {
    hide EvidenceAccepted, CutoffIsStable, Rebuilt;
    var init, last := streams[..|streams| - 1], streams[|streams| - 1];
    assert ChainStream(streams, |init|);
    if init == [] {
      NextHopAccepts(last, None, event);
      OneLog(last);
    } else {
      ChainOfPrefix(streams);
      ChainsAgree(init, last.verified[0].event);
      assert AllStable(init, |init|) <==> AllStable(streams, |init|);
      assert AllStable(init, |init|) ==> AllStable(init, |init| - 1);
      if ChainResult(init).Some? {
        var result := ChainResult(init).value;
        OneMoreLog(streams, result);
        if EvidenceAccepted(last.verified[0].event, result) {
          NextHopAccepts(last, Some(result), event);
        }
      }
    }
    assert AllStable(streams, |streams|) <==> AllStable(streams, |init|) && CutoffIsStable(last);
  }

  lemma OneLog(s: Stream)
    requires s.verified != []
    ensures LogsOf([s], Rebuilt(s, None))
  {
  }

  // ---------------------------------------------------------------------------------------------
  // The reported boundary of a snapshot

  /** The reference of every event of a stitched history. */
  function AllRefs(priorRefs: seq<string>, log: string, verified: seq<Occurrence>): (refs: seq<string>)
    ensures |refs| == |priorRefs| + |verified|
  {
    priorRefs + OwnRefs(log, verified)
  }

  lemma AllRefsAt(priorRefs: seq<string>, log: string, verified: seq<Occurrence>, i: nat)
    requires i < |priorRefs| + |verified|
    ensures AllRefs(priorRefs, log, verified)[i] ==
            if i < |priorRefs| then priorRefs[i] else FinalEventRef(log, verified[i - |priorRefs|].index)
  {
    hide FinalEventRef;
  }

  lemma CutIsUnique(verified: seq<Occurrence>, at: int, m: nat, n: nat)
    requires CutsAt(Events(verified), at, m) && n <= |verified|
    requires forall k | 0 <= k < n :: verified[k].event.timestamp <= at
    requires n < |verified| ==> verified[n].event.timestamp > at
    ensures m == n
  {
    assert m < |verified| ==> Events(verified)[m].timestamp > at;
  }

  /** The reference of the last event of the stream up to a time. */
  method LastReference(log: string, verified: seq<Occurrence>, at: int, ghost taken: nat) returns (end: string)
    requires 0 < taken <= |verified| && CutsAt(Events(verified), at, taken)
    ensures end == FinalEventRef(log, verified[taken - 1].index)
  {
    hide FinalEventRef, CutsAt, Events;
    end := "";
    var i := 0;
    while i < |verified| && verified[i].event.timestamp <= at
      invariant 0 <= i <= |verified|
      invariant forall k | 0 <= k < i :: verified[k].event.timestamp <= at
      invariant i > 0 ==> end == FinalEventRef(log, verified[i - 1].index)
    {
      end := FinalEventRef(log, verified[i].index);
      i := i + 1;
    }
    CutIsUnique(verified, at, taken, i);
  }

  lemma NothingBefore(events: seq<LogEvent>)
    ensures [] + events == events
  {
  }

  /** The end of the history reported for a snapshot of `taken` events: a position in the imported references
      or in the stream's own; without imported references, the last event up to the snapshot time. All the
      positions are in range, and the result names the snapshot's last event. */
  method HistoryEnd(log: string, priorHistory: seq<LogEvent>, priorRefs: seq<string>, verified: seq<Occurrence>,
                    at: int, taken: nat)
    returns (end: string)
    requires |priorHistory| == |priorRefs|
    requires 0 < taken <= |priorHistory| + |verified|
    requires CutsAt(priorHistory + Events(verified), at, taken)
    ensures end == AllRefs(priorRefs, log, verified)[taken - 1]
  {
    hide FinalEventRef, AllRefs, CutsAt, Events;
    AllRefsAt(priorRefs, log, verified, taken - 1);
    if |priorRefs| > 0 {
      if taken <= |priorRefs| {
        end := priorRefs[taken - 1];
      } else {
        end := FinalEventRef(log, verified[taken - |priorRefs| - 1].index);
      }
    } else {
      NothingBefore(Events(verified));
      assert priorHistory == [];
      end := LastReference(log, verified, at, taken);
    }
  }

  /** When a boundary is reported: imported evidence is present exactly for a migrated stream and is accepted,
      a stream without imported history starts by the requested time, and the identity is active then. */
  ghost predicate Reportable(domain: string, imported: Option<MigrationResult>, verified: seq<Occurrence>, at: int)
    requires verified != []
  {
    var first := verified[0].event;
    && (if IsMigration(first) then imported.Some? && EvidenceAccepted(first, imported.value) else first.timestamp <= at)
    && var snapshot := SnapshotSpec(domain, ImportedHistory(imported) + Events(verified), at);
       snapshot.Ok? && !Terminal(snapshot.value.state)
  }

  /** The boundary that non-revocation evidence reports names the first event of the stitched history and the
      last event of its snapshot. */
  method HistoryBounds(domain: string, log: string, imported: Option<MigrationResult>, verified: seq<Occurrence>,
                       at: int)
    returns (r: Option<(string, string)>)
    requires verified != [] && (imported.Some? ==> IsMigration(verified[0].event))
    ensures r.Some? <==> Reportable(domain, imported, verified, at)
    ensures r.Some? ==>
              var refs := AllRefs(ImportedRefs(imported), log, verified);
              var taken := |SnapshotSpec(domain, ImportedHistory(imported) + Events(verified), at).value.events|;
              0 < taken <= |refs| && r.value == (refs[0], refs[taken - 1])
  {
    hide FinalEventRef, AllRefs, SnapshotSpec, CutsAt, Cuts, BoundaryMatches, Complete, DistinctLogs, Events;
    var first := verified[0].event;
    if IsMigration(first) {
      if imported.None? {
        return None;
      }
      var validated := ValidatePriorEvidence(first, imported.value);
      if validated.None? {
        return None;
      }
    } else if first.timestamp > at {
      return None;
    }
    var priorHistory, priorRefs := ImportedHistory(imported), ImportedRefs(imported);
    var events := priorHistory + Events(verified);
    var snapshot := SnapshotAt(domain, events, at);
    if snapshot.Err? || Terminal(snapshot.value.state) {
      return None;
    }
    SnapshotIsCut(domain, events, at);
    var end := HistoryEnd(log, priorHistory, priorRefs, verified, at, |snapshot.value.events|);
    AllRefsAt(priorRefs, log, verified, 0);
    var start := if |priorRefs| > 0 then priorRefs[0] else FinalEventRef(log, verified[0].index);
    r := Some((start, end));
  }

  lemma SnapshotIsCut(domain: string, events: seq<LogEvent>, at: int)
    requires SnapshotSpec(domain, events, at).Ok?
    ensures var k := |SnapshotSpec(domain, events, at).value.events|; 0 < k <= |events| && CutsAt(events, at, k)
  {
    SnapshotCharacterized(domain, events, at, |SnapshotSpec(domain, events, at).value.events|);
  }
}
