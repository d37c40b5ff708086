/**
  What the export pipeline promises, stated over the functions of ExportModel:
  the behaviour of each writer call, the skip rule, the mode dispatch, the
  counters, the error ledger, the dump file and the page loop.
*/
module ExportProperties {
  import opened Wrappers
  import opened ExportModel

  // ---------------------------------------------------------------------------
  // Reference definitions

  /** The events the page loop reads: every page before the first empty one, in order. */
  function Consumed(pages: seq<seq<Event>>): seq<Event>
    requires [] in pages
    decreases |pages|
  {
    if pages[0] == [] then []
    else
      assert [] in pages[1..];
      pages[0] + Consumed(pages[1..])
  }

  /** The writer calls a recoverable message must cause in each mode (backup.py:275-284). */
  function Dispatch(mode: int, m: Msg): seq<WriterCall>
  {
    if mode == 1 then [SaveCall(m)] + (if HasMedia(m) then [DownloadCall(m)] else [])
    else if mode == 2 then (if HasMedia(m) then [DownloadCall(m)] else [])
    else if mode == 3 then (if HasMedia(m) then [] else [SaveCall(m)])
    else []
  }

  /** The writer calls a sequence of events must cause. */
  function ExpectedCalls(mode: int, events: seq<Event>): seq<WriterCall>
    decreases |events|
  {
    if events == [] then []
    else
      var k := |events| - 1;
      ExpectedCalls(mode, events[..k])
        + (if Recoverable(events[k]) then Dispatch(mode, events[k].oldMessage.value) else [])
  }

  /** The number of recoverable events. */
  function RecoverableCount(events: seq<Event>): nat
    decreases |events|
  {
    if events == [] then 0
    else
      var k := |events| - 1;
      RecoverableCount(events[..k]) + (if Recoverable(events[k]) then 1 else 0)
  }

  /** The values of total_processed at which a recoverable event reaches the end of the loop body, counting from `total`. */
  function Tails(total: nat, events: seq<Event>): seq<nat>
    decreases |events|
  {
    if events == [] then []
    else
      var k := |events| - 1;
      Tails(total, events[..k]) + (if Recoverable(events[k]) then [total + k + 1] else [])
  }

  /** Whether the mode sends a recoverable message to the text writer. */
  predicate Saves(mode: int, m: Msg)
  {
    mode == 1 || (mode == 3 && !HasMedia(m))
  }

  /** The records a run of successful saves appends to the dump, in order. */
  function SavedRecords(mode: int, events: seq<Event>): seq<Record>
    decreases |events|
  {
    if events == [] then []
    else
      var k := |events| - 1;
      var e := events[k];
      SavedRecords(mode, events[..k])
        + (if Recoverable(e) && Saves(mode, e.oldMessage.value) then [Record(e.oldMessage.value, e.save.exportedAt)] else [])
  }

  /** A save that meets no fault: the dump, if present, reads and is rewritten. */
  predicate CleanSave(e: Event)
  {
    e.save.readFault.None? && e.save.write.Written?
  }

  /** Both of the event's possible error-file appends succeed. */
  predicate LedgerWritable(e: Event)
  {
    e.save.ledger.appendSucceeds && e.download.ledger.appendSucceeds
  }

  /** The ledger invariant: one errors_list entry per error counted, one downloaded path per media file counted. */
  predicate Consistent(s: BotState)
  {
    s.stats.errors == |s.errorsList| && s.stats.mediaFiles == |s.downloaded|
  }

  /** The error-file lines of some error records. */
  function LinesOf(rs: seq<ErrorRecord>): seq<ErrorChunk>
    decreases |rs|
  {
    if rs == [] then [] else LinesOf(rs[..|rs| - 1]) + [Line(rs[|rs| - 1])]
  }

  /** From s0 to s, errors_list only grows, and the error file grows by exactly the lines of the new records. */
  predicate Mirrors(s0: BotState, s: BotState)
  {
    |s0.errorsList| <= |s.errorsList|
    && s.errorsList[..|s0.errorsList|] == s0.errorsList
    && s.errorFile == s0.errorFile + LinesOf(s.errorsList[|s0.errorsList|..])
  }

  // ---------------------------------------------------------------------------
  // The writers, one call at a time

  /** save_error adds exactly one entry to errors_list, counts one error, and appends one line unless the append fails. */
  lemma SaveErrorLedger(s: BotState, messageId: int, error: string, w: LedgerWorld)
    ensures var r := SaveError(s, messageId, error, w);
            var rec := ErrorRecord(messageId, error, w.at);
            && r.errorsList == s.errorsList + [rec]
            && r.stats == s.stats.(errors := s.stats.errors + 1)
            && r.errorFile == (if w.appendSucceeds then s.errorFile + [Line(rec)] else s.errorFile)
            && r.dumpFile == s.dumpFile && r.downloaded == s.downloaded
            && r.calls == s.calls && r.itemTails == s.itemTails
            && (Consistent(s) ==> Consistent(r))
            && (w.appendSucceeds ==> Mirrors(s, r))
  {
    var r := SaveError(s, messageId, error, w);
    assert r.errorsList[..|s.errorsList|] == s.errorsList;
    assert r.errorsList[|s.errorsList|..] == [ErrorRecord(messageId, error, w.at)];
    assert LinesOf([ErrorRecord(messageId, error, w.at)]) == [Line(ErrorRecord(messageId, error, w.at))];
  }

  lemma MirrorsRefl(s: BotState, s': BotState)
    requires s'.errorsList == s.errorsList && s'.errorFile == s.errorFile
    ensures Mirrors(s, s')
  {
    assert s.errorsList[..|s.errorsList|] == s.errorsList;
    assert s.errorsList[|s.errorsList|..] == [];
    assert s.errorFile + [] == s.errorFile;
  }

  lemma {:induction false} LinesOfAppend(a: seq<ErrorRecord>, b: seq<ErrorRecord>)
    ensures LinesOf(a + b) == LinesOf(a) + LinesOf(b)
    decreases |b|
  {
    if b == [] {
      assert a + b == a;
    } else {
      var k := |b| - 1;
      LinesOfAppend(a, b[..k]);
      assert (a + b)[..|a + b| - 1] == a + b[..k];
    }
  }

  lemma MirrorsTrans(a: BotState, b: BotState, c: BotState)
    requires Mirrors(a, b) && Mirrors(b, c)
    ensures Mirrors(a, c)
  {
    var na, nb := |a.errorsList|, |b.errorsList|;
    assert c.errorsList[..na] == c.errorsList[..nb][..na];
    assert c.errorsList[na..] == b.errorsList[na..] + c.errorsList[nb..];
    LinesOfAppend(b.errorsList[na..], c.errorsList[nb..]);
  }

  /**
    save_message_to_json returns True exactly when the dump is read and
    rewritten. Then the dump holds the array it read plus one new record at the
    end and text_messages grows by one; otherwise exactly one error is recorded
    and text_messages is untouched. Either way it is one save call.
  */
  lemma SaveMessageContract(s: BotState, m: Msg, w: SaveWorld)
    ensures var (r, ok) := SaveMessage(s, m, w);
            var rec := Record(m, w.exportedAt);
            && (ok <==> (s.dumpFile == Absent || w.readFault.None?) && !s.dumpFile.NonArray? && w.write.Written?)
            && (ok ==> r.dumpFile == Array(Loaded(s.dumpFile).value + [rec])
                       && r.stats == s.stats.(textMessages := s.stats.textMessages + 1)
                       && r.errorsList == s.errorsList && r.errorFile == s.errorFile)
            && (!ok ==> r.stats == s.stats.(errors := s.stats.errors + 1)
                        && |r.errorsList| == |s.errorsList| + 1
                        && (r.dumpFile == s.dumpFile || r.dumpFile == Unparsable))
            && (ok && s.dumpFile.Array? ==> r.dumpFile.records[..|s.dumpFile.records|] == s.dumpFile.records)
            && r.calls == s.calls + [SaveCall(m)]
            && r.downloaded == s.downloaded && r.itemTails == s.itemTails
  {
    var (r, ok) := SaveMessage(s, m, w);
    if ok && s.dumpFile.Array? {
      assert r.dumpFile.records[..|s.dumpFile.records|] == s.dumpFile.records;
    }
  }

  /** save_message_to_json keeps the ledger invariant and, when its error-file append succeeds, mirrors errors_list in the file. */
  lemma SaveMessageLedger(s: BotState, m: Msg, w: SaveWorld)
    ensures var r := SaveMessage(s, m, w).0;
            && (Consistent(s) ==> Consistent(r))
            && (w.ledger.appendSucceeds ==> Mirrors(s, r))
  {
    var s1 := s.(calls := s.calls + [SaveCall(m)]);
    var (r, ok) := SaveMessage(s, m, w);
    MirrorsRefl(s, s1);
    if ok {
      MirrorsRefl(s, r);
    } else {
      var s2 := if w.write.FailedMidway? && Loaded(s.dumpFile).Success? && !(s.dumpFile != Absent && w.readFault.Some?)
                then s1.(dumpFile := Unparsable) else s1;
      var e := if s.dumpFile != Absent && w.readFault.Some? then w.readFault.value
               else if Loaded(s.dumpFile).Failure? then Loaded(s.dumpFile).error
               else w.write.error;
      assert r == SaveError(s2, m.id, e, w.ledger);
      SaveErrorLedger(s2, m.id, e, w.ledger);
      MirrorsRefl(s, s2);
      if w.ledger.appendSucceeds {
        MirrorsTrans(s, s2, r);
      }
    }
  }

  /**
    download_media counts a media file and keeps its path exactly when the
    client returns a non-empty path; a falsy result changes no counter; an
    exception records exactly one error and leaves media_files alone.
  */
  lemma DownloadContract(s: BotState, m: Msg, w: DownloadWorld)
    ensures var (r, path) := DownloadMedia(s, m, w);
            && (path.Some? <==> Truthy(w.result))
            && (path.Some? ==> path.value == w.result.path
                               && r.stats == s.stats.(mediaFiles := s.stats.mediaFiles + 1)
                               && r.downloaded == s.downloaded + [path.value])
            && (w.result.Raised? ==> r.stats == s.stats.(errors := s.stats.errors + 1)
                                     && r.errorsList == s.errorsList + [ErrorRecord(m.id, w.result.error, w.ledger.at)])
            && (!w.result.Raised? && path.None? ==> r.stats == s.stats && r.errorsList == s.errorsList)
            && r.calls == s.calls + [DownloadCall(m)]
            && r.dumpFile == s.dumpFile && r.itemTails == s.itemTails
  {
  }

  /** download_media keeps the ledger invariant and, when its error-file append succeeds, mirrors errors_list in the file. */
  lemma DownloadLedger(s: BotState, m: Msg, w: DownloadWorld)
    ensures var r := DownloadMedia(s, m, w).0;
            && (Consistent(s) ==> Consistent(r))
            && (w.ledger.appendSucceeds ==> Mirrors(s, r))
  {
    var s1 := s.(calls := s.calls + [DownloadCall(m)]);
    var r := DownloadMedia(s, m, w).0;
    MirrorsRefl(s, s1);
    if w.result.Raised? {
      SaveErrorLedger(s1, m.id, w.result.error, w.ledger);
      if w.ledger.appendSucceeds {
        MirrorsTrans(s, s1, r);
      }
    } else {
      MirrorsRefl(s, r);
    }
  }

  // ---------------------------------------------------------------------------
  // One event

  /** An event that is not a recoverable deleted message only counts as processed. */
  lemma SkipRule(s: BotState, before: nat, e: Event, mode: int)
    requires ValidMode(mode) && !Recoverable(e)
    ensures HandleEvent(s, before, e, mode) == s.(stats := s.stats.(processed := s.stats.processed + 1))
  {
  }

  /** One event counts as processed, causes the writer calls of Dispatch, and reaches the loop tail only when it is recoverable. */
  lemma {:induction false} HandleEventShape(s: BotState, before: nat, e: Event, mode: int)
    requires ValidMode(mode)
    ensures var r := HandleEvent(s, before, e, mode);
            && r.stats.processed == s.stats.processed + 1
            && r.calls == s.calls + (if Recoverable(e) then Dispatch(mode, e.oldMessage.value) else [])
            && r.itemTails == s.itemTails + (if Recoverable(e) then [before + 1] else [])
  {
    var s1 := s.(stats := s.stats.(processed := s.stats.processed + 1));
    if Recoverable(e) {
      var m := e.oldMessage.value;
      if mode == 1 {
        SaveMessageContract(s1, m, e.save);
        if HasMedia(m) {
          DownloadContract(SaveMessage(s1, m, e.save).0, m, e.download);
        }
      } else if mode == 2 && HasMedia(m) {
        DownloadContract(s1, m, e.download);
      } else if mode == 3 && !HasMedia(m) {
        SaveMessageContract(s1, m, e.save);
      }
    }
  }

  /** The mode dispatch keeps the ledger invariant. */
  lemma WriteMessageConsistent(s: BotState, m: Msg, e: Event, mode: int)
    requires ValidMode(mode) && Consistent(s)
    ensures Consistent(WriteMessage(s, m, e, mode))
  {
    if mode == 1 {
      SaveMessageLedger(s, m, e.save);
      DownloadLedger(SaveMessage(s, m, e.save).0, m, e.download);
    } else if mode == 2 && HasMedia(m) {
      DownloadLedger(s, m, e.download);
    } else if mode == 3 && !HasMedia(m) {
      SaveMessageLedger(s, m, e.save);
    }
  }

  /** When its error-file appends succeed, the mode dispatch appends one line per error it records. */
  lemma WriteMessageMirrors(s: BotState, m: Msg, e: Event, mode: int)
    requires ValidMode(mode) && LedgerWritable(e)
    ensures Mirrors(s, WriteMessage(s, m, e, mode))
  {
    if mode == 1 {
      var saved := SaveMessage(s, m, e.save).0;
      SaveMessageLedger(s, m, e.save);
      if HasMedia(m) {
        DownloadLedger(saved, m, e.download);
        MirrorsTrans(s, saved, DownloadMedia(saved, m, e.download).0);
      }
    } else if mode == 2 && HasMedia(m) {
      DownloadLedger(s, m, e.download);
    } else if mode == 3 && !HasMedia(m) {
      SaveMessageLedger(s, m, e.save);
    } else {
      MirrorsRefl(s, s);
    }
  }

  /** One event keeps the ledger invariant. */
  lemma HandleEventConsistent(s: BotState, before: nat, e: Event, mode: int)
    requires ValidMode(mode) && Consistent(s)
    ensures Consistent(HandleEvent(s, before, e, mode))
  {
    var s1 := s.(stats := s.stats.(processed := s.stats.processed + 1));
    if Recoverable(e) {
      var s2 := WriteMessage(s1, e.oldMessage.value, e, mode);
      assert HandleEvent(s, before, e, mode) == s2.(itemTails := s2.itemTails + [before + 1]);
      WriteMessageConsistent(s1, e.oldMessage.value, e, mode);
    } else {
      assert HandleEvent(s, before, e, mode) == s1;
    }
  }

  /** When its error-file appends succeed, one event appends one line per error it records. */
  lemma HandleEventMirrors(s: BotState, before: nat, e: Event, mode: int)
    requires ValidMode(mode) && LedgerWritable(e)
    ensures Mirrors(s, HandleEvent(s, before, e, mode))
  {
    var s1 := s.(stats := s.stats.(processed := s.stats.processed + 1));
    MirrorsRefl(s, s1);
    if Recoverable(e) {
      var s2 := WriteMessage(s1, e.oldMessage.value, e, mode);
      var s3 := s2.(itemTails := s2.itemTails + [before + 1]);
      assert HandleEvent(s, before, e, mode) == s3;
      WriteMessageMirrors(s1, e.oldMessage.value, e, mode);
      MirrorsTrans(s, s1, s2);
      MirrorsRefl(s2, s3);
      MirrorsTrans(s, s2, s3);
    } else {
      assert HandleEvent(s, before, e, mode) == s1;
    }
  }

  /**
    A fault-free save on a readable dump: the dump reads as what it read
    before plus the records this event saves, with one text message counted per record.
  */
  lemma HandleEventDump(s: BotState, before: nat, e: Event, mode: int)
    requires ValidMode(mode) && Loaded(s.dumpFile).Success?
    requires Recoverable(e) ==> CleanSave(e)
    ensures var r := HandleEvent(s, before, e, mode);
            var added := if Recoverable(e) && Saves(mode, e.oldMessage.value)
                         then [Record(e.oldMessage.value, e.save.exportedAt)] else [];
            && Loaded(r.dumpFile) == Success(Loaded(s.dumpFile).value + added)
            && r.stats.textMessages == s.stats.textMessages + |added|
  {
    var s1 := s.(stats := s.stats.(processed := s.stats.processed + 1));
    if Recoverable(e) {
      var m := e.oldMessage.value;
      if Saves(mode, m) {
        SaveMessageContract(s1, m, e.save);
        var saved := SaveMessage(s1, m, e.save).0;
        if mode == 1 && HasMedia(m) {
          DownloadContract(saved, m, e.download);
        }
      } else if mode == 2 && HasMedia(m) {
        DownloadContract(s1, m, e.download);
      }
    } else {
      assert Loaded(s.dumpFile).value + [] == Loaded(s.dumpFile).value;
    }
  }

  // ---------------------------------------------------------------------------
  // Runs of events

  /** Handling the first j + 1 events is handling the first j, then event j. */
  lemma RunEventsPrefixStep(s: BotState, total: nat, events: seq<Event>, j: nat, mode: int)
    requires ValidMode(mode) && j < |events|
    ensures RunEvents(s, total, events[..j + 1], mode)
         == HandleEvent(RunEvents(s, total, events[..j], mode), total + j, events[j], mode)
  {
    assert events[..j + 1][..j] == events[..j];
  }

  /** Handling a + b is handling a, then b with total_processed advanced by |a|. */
  lemma {:induction false} RunEventsAppend(s: BotState, total: nat, a: seq<Event>, b: seq<Event>, mode: int)
    requires ValidMode(mode)
    ensures RunEvents(s, total, a + b, mode) == RunEvents(RunEvents(s, total, a, mode), total + |a|, b, mode)
    decreases |b|
  {
    if b == [] {
      assert a + b == a;
    } else {
      var k := |b| - 1;
      RunEventsAppend(s, total, a, b[..k], mode);
      assert (a + b)[..|a + b| - 1] == a + b[..k];
      assert (a + b)[|a + b| - 1] == b[k];
    }
  }

  /** The page loop handles exactly the consumed events, in order. */
  lemma {:induction false} RunPagesFlat(s: BotState, total: nat, pages: seq<seq<Event>>, mode: int)
    requires ValidMode(mode) && [] in pages
    ensures RunPages(s, total, pages, mode) == RunEvents(s, total, Consumed(pages), mode)
    decreases |pages|
  {
    if pages[0] != [] {
      assert [] in pages[1..];
      RunPagesFlat(RunEvents(s, total, pages[0], mode), total + |pages[0]|, pages[1..], mode);
      RunEventsAppend(s, total, pages[0], Consumed(pages[1..]), mode);
    }
  }

  /** A run of events counts every event as processed, skipped ones included. */
  lemma {:induction false} RunEventsProcessed(s: BotState, total: nat, events: seq<Event>, mode: int)
    requires ValidMode(mode)
    ensures RunEvents(s, total, events, mode).stats.processed == s.stats.processed + |events|
    decreases |events|
  {
    if events != [] {
      var k := |events| - 1;
      RunEventsProcessed(s, total, events[..k], mode);
      HandleEventShape(RunEvents(s, total, events[..k], mode), total + k, events[k], mode);
    }
  }

  /** A run of events makes exactly the writer calls ExpectedCalls prescribes. */
  lemma {:induction false} RunEventsCalls(s: BotState, total: nat, events: seq<Event>, mode: int)
    requires ValidMode(mode)
    ensures RunEvents(s, total, events, mode).calls == s.calls + ExpectedCalls(mode, events)
    decreases |events|
  {
    if events != [] {
      var k := |events| - 1;
      RunEventsCalls(s, total, events[..k], mode);
      HandleEventShape(RunEvents(s, total, events[..k], mode), total + k, events[k], mode);
    }
  }

  /** A run of events reaches the loop tail at exactly the numbers Tails gives. */
  lemma {:induction false} RunEventsTails(s: BotState, total: nat, events: seq<Event>, mode: int)
    requires ValidMode(mode)
    ensures RunEvents(s, total, events, mode).itemTails == s.itemTails + Tails(total, events)
    decreases |events|
  {
    if events != [] {
      var k := |events| - 1;
      RunEventsTails(s, total, events[..k], mode);
      HandleEventShape(RunEvents(s, total, events[..k], mode), total + k, events[k], mode);
    }
  }

  /** A run of events keeps the ledger invariant. */
  lemma {:induction false} RunEventsConsistent(s: BotState, total: nat, events: seq<Event>, mode: int)
    requires ValidMode(mode) && Consistent(s)
    ensures Consistent(RunEvents(s, total, events, mode))
    decreases |events|
  {
    if events != [] {
      var k := |events| - 1;
      RunEventsConsistent(s, total, events[..k], mode);
      HandleEventConsistent(RunEvents(s, total, events[..k], mode), total + k, events[k], mode);
    }
  }

  /** When no error-file append fails, a run of events appends one line per error it records. */
  lemma {:induction false} RunEventsMirrors(s: BotState, total: nat, events: seq<Event>, mode: int)
    requires ValidMode(mode)
    requires forall e | e in events :: LedgerWritable(e)
    ensures Mirrors(s, RunEvents(s, total, events, mode))
    decreases |events|
  {
    if events == [] {
      MirrorsRefl(s, s);
    } else {
      var k := |events| - 1;
      var mid := RunEvents(s, total, events[..k], mode);
      assert forall e | e in events[..k] :: e in events;
      RunEventsMirrors(s, total, events[..k], mode);
      assert events[k] in events;
      HandleEventMirrors(mid, total + k, events[k], mode);
      MirrorsTrans(s, mid, RunEvents(s, total, events, mode));
    }
  }

  /** Fault-free saves append exactly SavedRecords to the dump and count one text message per record. */
  lemma {:induction false} RunEventsDump(s: BotState, total: nat, events: seq<Event>, mode: int)
    requires ValidMode(mode) && Loaded(s.dumpFile).Success?
    requires forall e | e in events && Recoverable(e) :: CleanSave(e)
    ensures var r := RunEvents(s, total, events, mode);
            && Loaded(r.dumpFile) == Success(Loaded(s.dumpFile).value + SavedRecords(mode, events))
            && r.stats.textMessages == s.stats.textMessages + |SavedRecords(mode, events)|
    decreases |events|
  {
    if events == [] {
      assert Loaded(s.dumpFile).value + [] == Loaded(s.dumpFile).value;
    } else {
      var k := |events| - 1;
      assert forall e | e in events[..k] :: e in events;
      RunEventsDump(s, total, events[..k], mode);
      assert events[k] in events;
      HandleEventDump(RunEvents(s, total, events[..k], mode), total + k, events[k], mode);
      var e := events[k];
      var added := if Recoverable(e) && Saves(mode, e.oldMessage.value)
                   then [Record(e.oldMessage.value, e.save.exportedAt)] else [];
      assert SavedRecords(mode, events) == SavedRecords(mode, events[..k]) + added;
      assert Loaded(s.dumpFile).value + SavedRecords(mode, events)
          == (Loaded(s.dumpFile).value + SavedRecords(mode, events[..k])) + added;
    }
  }

  /** Media-only mode never touches the dump file or the text counter. */
  lemma {:induction false} MediaOnlyLeavesDump(s: BotState, total: nat, events: seq<Event>)
    ensures var r := RunEvents(s, total, events, 2);
            r.dumpFile == s.dumpFile && r.stats.textMessages == s.stats.textMessages
    decreases |events|
  {
    if events != [] {
      var k := |events| - 1;
      var mid := RunEvents(s, total, events[..k], 2);
      MediaOnlyLeavesDump(s, total, events[..k]);
      var e := events[k];
      if Recoverable(e) && HasMedia(e.oldMessage.value) {
        DownloadContract(mid.(stats := mid.stats.(processed := mid.stats.processed + 1)), e.oldMessage.value, e.download);
      }
    }
  }

  // ---------------------------------------------------------------------------
  // The mode exclusions, on the reference definitions

  /** Media-only mode only downloads, and only messages with media. */
  lemma {:induction false} MediaOnlyCalls(events: seq<Event>)
    ensures forall c | c in ExpectedCalls(2, events) :: c.DownloadCall? && HasMedia(c.message)
    decreases |events|
  {
    if events != [] {
      MediaOnlyCalls(events[..|events| - 1]);
    }
  }

  /** Text-only mode never downloads, and only saves messages without media. */
  lemma {:induction false} TextOnlyCalls(events: seq<Event>)
    ensures forall c | c in ExpectedCalls(3, events) :: c.SaveCall? && !HasMedia(c.message)
    decreases |events|
  {
    if events != [] {
      TextOnlyCalls(events[..|events| - 1]);
    }
  }

  /** In every mode a message is downloaded only when it has media. */
  lemma {:induction false} DownloadsNeedMedia(mode: int, events: seq<Event>)
    ensures forall c | c in ExpectedCalls(mode, events) && c.DownloadCall? :: HasMedia(c.message)
    decreases |events|
  {
    if events != [] {
      DownloadsNeedMedia(mode, events[..|events| - 1]);
    }
  }

  /** The number of save calls in a sequence of writer calls. */
  function SaveCount(cs: seq<WriterCall>): nat
    decreases |cs|
  {
    if cs == [] then 0 else SaveCount(cs[..|cs| - 1]) + (if cs[|cs| - 1].SaveCall? then 1 else 0)
  }

  lemma {:induction false} SaveCountAppend(a: seq<WriterCall>, b: seq<WriterCall>)
    ensures SaveCount(a + b) == SaveCount(a) + SaveCount(b)
    decreases |b|
  {
    if b == [] {
      assert a + b == a;
    } else {
      SaveCountAppend(a, b[..|b| - 1]);
      assert (a + b)[..|a + b| - 1] == a + b[..|b| - 1];
    }
  }

  /** Mode 1 hands every recoverable message to the text writer, once. */
  lemma {:induction false} AllModeSavesEvery(events: seq<Event>)
    ensures SaveCount(ExpectedCalls(1, events)) == RecoverableCount(events)
    decreases |events|
  {
    if events != [] {
      var k := |events| - 1;
      AllModeSavesEvery(events[..k]);
      var tail := if Recoverable(events[k]) then Dispatch(1, events[k].oldMessage.value) else [];
      SaveCountAppend(ExpectedCalls(1, events[..k]), tail);
      if Recoverable(events[k]) {
        var m := events[k].oldMessage.value;
        SaveCountAppend([SaveCall(m)], if HasMedia(m) then [DownloadCall(m)] else []);
        assert SaveCount([SaveCall(m)]) == 1;
        assert SaveCount([DownloadCall(m)]) == 0;
      }
    }
  }

  /**
    The loop tail (progress check and pause) runs once per recoverable event
    and at no other value of total_processed: a skipped event never prints
    progress, even when its number is a multiple of ten.
  */
  lemma {:induction false} TailsAreRecoverable(total: nat, events: seq<Event>)
    ensures |Tails(total, events)| == RecoverableCount(events)
    ensures forall n :: n in Tails(total, events) <==>
              exists i :: 0 <= i < |events| && n == total + i + 1 && Recoverable(events[i])
    decreases |events|
  {
    if events != [] {
      var k := |events| - 1;
      TailsAreRecoverable(total, events[..k]);
      forall n
        ensures n in Tails(total, events) <==>
                exists i :: 0 <= i < |events| && n == total + i + 1 && Recoverable(events[i])
      {
        if n in Tails(total, events) && n !in Tails(total, events[..k]) {
          assert n == total + k + 1 && Recoverable(events[k]);
        }
        if exists i :: 0 <= i < |events| && n == total + i + 1 && Recoverable(events[i]) {
          var i :| 0 <= i < |events| && n == total + i + 1 && Recoverable(events[i]);
          if i < k {
            assert events[..k][i] == events[i];
          }
        }
      }
    }
  }

  // ---------------------------------------------------------------------------
  // The whole export

  /** processed grows by exactly the number of events in the pages before the first empty one, skipped events included. */
  lemma ExportProcessed(s: BotState, resetSucceeds: bool, pages: seq<seq<Event>>, mode: int)
    requires ValidMode(mode) && [] in pages
    ensures Export(s, true, resetSucceeds, pages, mode).stats.processed == s.stats.processed + |Consumed(pages)|
  {
    RunPagesFlat(ResetErrorFile(s, resetSucceeds), 0, pages, mode);
    RunEventsProcessed(ResetErrorFile(s, resetSucceeds), 0, Consumed(pages), mode);
  }

  /** No page after the first empty one is read: appending pages after it changes nothing. */
  lemma {:induction false} ConsumedStopsAtEmpty(pages: seq<seq<Event>>, later: seq<seq<Event>>)
    requires [] in pages
    ensures [] in pages + later && Consumed(pages + later) == Consumed(pages)
    decreases |pages|
  {
    assert (pages + later)[0] == pages[0];
    if pages[0] != [] {
      assert [] in pages[1..];
      assert (pages + later)[1..] == pages[1..] + later;
      ConsumedStopsAtEmpty(pages[1..], later);
    }
  }

  lemma ExportIgnoresLaterPages(s: BotState, groupOk: bool, resetSucceeds: bool,
                                pages: seq<seq<Event>>, later: seq<seq<Event>>, mode: int)
    requires ValidMode(mode) && [] in pages
    ensures [] in pages + later
    ensures Export(s, groupOk, resetSucceeds, pages + later, mode) == Export(s, groupOk, resetSucceeds, pages, mode)
  {
    ConsumedStopsAtEmpty(pages, later);
    RunPagesFlat(ResetErrorFile(s, resetSucceeds), 0, pages, mode);
    RunPagesFlat(ResetErrorFile(s, resetSucceeds), 0, pages + later, mode);
  }

  /** The writer calls of an export are those Dispatch prescribes for each consumed recoverable event, in order. */
  lemma ExportCalls(s: BotState, resetSucceeds: bool, pages: seq<seq<Event>>, mode: int)
    requires ValidMode(mode) && [] in pages
    ensures Export(s, true, resetSucceeds, pages, mode).calls == s.calls + ExpectedCalls(mode, Consumed(pages))
  {
    RunPagesFlat(ResetErrorFile(s, resetSucceeds), 0, pages, mode);
    RunEventsCalls(ResetErrorFile(s, resetSucceeds), 0, Consumed(pages), mode);
  }

  /** An export in media-only mode never calls the text writer and never changes the dump. */
  lemma ExportMediaOnly(s: BotState, groupOk: bool, resetSucceeds: bool, pages: seq<seq<Event>>)
    requires [] in pages
    ensures var r := Export(s, groupOk, resetSucceeds, pages, 2);
            && r.dumpFile == s.dumpFile && r.stats.textMessages == s.stats.textMessages
            && |s.calls| <= |r.calls|
            && forall c | c in r.calls[|s.calls|..] :: c.DownloadCall?
  {
    if groupOk {
      var s0 := ResetErrorFile(s, resetSucceeds);
      RunPagesFlat(s0, 0, pages, 2);
      MediaOnlyLeavesDump(s0, 0, Consumed(pages));
      ExportCalls(s, resetSucceeds, pages, 2);
      MediaOnlyCalls(Consumed(pages));
      var r := Export(s, groupOk, resetSucceeds, pages, 2);
      assert r.calls[|s.calls|..] == ExpectedCalls(2, Consumed(pages));
    }
  }

  /** An export in text-only mode never calls the media writer. */
  lemma ExportTextOnly(s: BotState, groupOk: bool, resetSucceeds: bool, pages: seq<seq<Event>>)
    requires [] in pages
    ensures var r := Export(s, groupOk, resetSucceeds, pages, 3);
            && |s.calls| <= |r.calls|
            && forall c | c in r.calls[|s.calls|..] :: c.SaveCall? && !HasMedia(c.message)
  {
    if groupOk {
      ExportCalls(s, resetSucceeds, pages, 3);
      TextOnlyCalls(Consumed(pages));
      var r := Export(s, groupOk, resetSucceeds, pages, 3);
      assert r.calls[|s.calls|..] == ExpectedCalls(3, Consumed(pages));
    }
  }

  /** An export keeps the ledger invariant: len(errors_list) == stats["errors"]. */
  lemma ExportKeepsConsistent(s: BotState, groupOk: bool, resetSucceeds: bool, pages: seq<seq<Event>>, mode: int)
    requires ValidMode(mode) && [] in pages && Consistent(s)
    ensures Consistent(Export(s, groupOk, resetSucceeds, pages, mode))
  {
    if groupOk {
      RunPagesFlat(ResetErrorFile(s, resetSucceeds), 0, pages, mode);
      RunEventsConsistent(ResetErrorFile(s, resetSucceeds), 0, Consumed(pages), mode);
    }
  }

  /**
    After a reset that succeeds, and when no append to it fails, the error
    file is the `[]` followed by exactly one line per error of this export, in
    order; errors_list keeps its earlier entries.
  */
  lemma ExportErrorFile(s: BotState, pages: seq<seq<Event>>, mode: int)
    requires ValidMode(mode) && [] in pages
    requires forall e | e in Consumed(pages) :: LedgerWritable(e)
    ensures var r := Export(s, true, true, pages, mode);
            && |s.errorsList| <= |r.errorsList|
            && r.errorsList[..|s.errorsList|] == s.errorsList
            && r.errorFile == [EmptyArray] + LinesOf(r.errorsList[|s.errorsList|..])
  {
    RunPagesFlat(ResetErrorFile(s, true), 0, pages, mode);
    RunEventsMirrors(ResetErrorFile(s, true), 0, Consumed(pages), mode);
  }

  /** With fault-free saves, the dump is what it was read as, followed by one record per saved message. */
  lemma ExportDump(s: BotState, resetSucceeds: bool, pages: seq<seq<Event>>, mode: int)
    requires ValidMode(mode) && [] in pages && Loaded(s.dumpFile).Success?
    requires forall e | e in Consumed(pages) && Recoverable(e) :: CleanSave(e)
    ensures var r := Export(s, true, resetSucceeds, pages, mode);
            var saved := SavedRecords(mode, Consumed(pages));
            && Loaded(r.dumpFile) == Success(Loaded(s.dumpFile).value + saved)
            && r.stats.textMessages == s.stats.textMessages + |saved|
  {
    RunPagesFlat(ResetErrorFile(s, resetSucceeds), 0, pages, mode);
    RunEventsDump(ResetErrorFile(s, resetSucceeds), 0, Consumed(pages), mode);
  }

  /** The loop tail runs at exactly the numbers of the recoverable consumed events. */
  lemma ExportItemTails(s: BotState, resetSucceeds: bool, pages: seq<seq<Event>>, mode: int)
    requires ValidMode(mode) && [] in pages
    ensures var r := Export(s, true, resetSucceeds, pages, mode);
            var es := Consumed(pages);
            && |r.itemTails| == |s.itemTails| + RecoverableCount(es)
            && forall n :: n in r.itemTails[|s.itemTails|..] <==>
                 exists i :: 0 <= i < |es| && n == i + 1 && Recoverable(es[i])
  {
    var es := Consumed(pages);
    RunPagesFlat(ResetErrorFile(s, resetSucceeds), 0, pages, mode);
    RunEventsTails(ResetErrorFile(s, resetSucceeds), 0, es, mode);
    TailsAreRecoverable(0, es);
    var r := Export(s, true, resetSucceeds, pages, mode);
    assert r.itemTails[|s.itemTails|..] == Tails(0, es);
  }

  /** A first page with no events ends the export at once: only the error-file reset has happened. */
  lemma ExportFirstPageEmpty(s: BotState, resetSucceeds: bool, pages: seq<seq<Event>>, mode: int)
    requires ValidMode(mode) && |pages| > 0 && pages[0] == []
    ensures Export(s, true, resetSucceeds, pages, mode) == ResetErrorFile(s, resetSucceeds)
  {
  }

  /**
    One deleted text message, id 42, exported in mode 1 into a blank dump
    file: the dump becomes a one-record array holding it, nothing is
    downloaded, and the error file is just the reset `[]`.
  */
  lemma ExampleSingleTextMessage(t: Timestamp, w: SaveWorld, d: DownloadWorld, errors: seq<ErrorChunk>)
    requires w.readFault.None? && w.write.Written? && w.exportedAt == t
    ensures var m := Msg(42, "hello", None);
            var r := Export(Initial(Blank, errors), true, true, [[Event(true, Some(m), w, d)], []], 1);
            && r.dumpFile == Array([Record(m, t)])
            && r.downloaded == [] && r.errorFile == [EmptyArray] && r.errorsList == []
            && r.stats == Stats(1, 0, 0, 1)
  {
    var m := Msg(42, "hello", None);
    var e := Event(true, Some(m), w, d);
    var pages := [[e], []];
    var s1 := ResetErrorFile(Initial(Blank, errors), true);
    assert pages[1..] == [[]];
    assert [e][..0] == [];
    assert RunEvents(s1, 0, [e], 1) == HandleEvent(s1, 0, e, 1);
    assert RunPages(s1, 0, pages, 1) == RunEvents(s1, 0, [e], 1);
  }

  // ---------------------------------------------------------------------------
  // Finding: a rewrite that fails part-way loses the dump

  /** Successive save_message_to_json calls; `atomic` selects the corrected writer. */
  function SaveRun(s: BotState, saves: seq<(Msg, SaveWorld)>, atomic: bool): BotState
    decreases |saves|
  {
    if saves == [] then s
    else
      var k := |saves| - 1;
      var before := SaveRun(s, saves[..k], atomic);
      if atomic then SaveMessageAtomic(before, saves[k].0, saves[k].1).0
      else SaveMessage(before, saves[k].0, saves[k].1).0
  }

  /**
    As written: the dump holds r0; a rewrite fails after open('w') has
    truncated the file, so the next save reads nothing and writes an array
    with its own record only. r0 is gone.
  */
  lemma FailedRewriteLosesRecords(s: BotState, r0: Record, m1: Msg, w1: SaveWorld, m2: Msg, w2: SaveWorld)
    requires s.dumpFile == Array([r0])
    requires w1.readFault.None? && w1.write.FailedMidway?
    requires w2.readFault.None? && w2.write.Written?
    ensures SaveRun(s, [(m1, w1), (m2, w2)], false).dumpFile == Array([Record(m2, w2.exportedAt)])
  {
    var saves := [(m1, w1), (m2, w2)];
    var first := [(m1, w1)];
    assert saves[..1] == first && first[..0] == [];
    assert SaveRun(s, first[..0], false) == s;
    var mid := SaveRun(s, first, false);
    assert mid == SaveMessage(s, first[0].0, first[0].1).0;
    assert mid.dumpFile == Unparsable;
    assert SaveRun(s, saves, false) == SaveMessage(mid, m2, w2).0;
    assert [] + [Record(m2, w2.exportedAt)] == [Record(m2, w2.exportedAt)];
  }

  /** One corrected save keeps an array dump an array, with its old records first. */
  lemma AtomicSaveKeepsRecords(s: BotState, m: Msg, w: SaveWorld)
    requires s.dumpFile.Array?
    ensures var r := SaveMessageAtomic(s, m, w).0;
            && r.dumpFile.Array?
            && |s.dumpFile.records| <= |r.dumpFile.records|
            && r.dumpFile.records[..|s.dumpFile.records|] == s.dumpFile.records
  {
    var r := SaveMessageAtomic(s, m, w).0;
    if r.dumpFile != s.dumpFile {
      assert r.dumpFile.records[..|s.dumpFile.records|] == s.dumpFile.records;
    }
  }

  /** Corrected: however the rewrites fail, no record of an array dump is ever removed. */
  lemma {:induction false} AtomicSavesKeepRecords(s: BotState, saves: seq<(Msg, SaveWorld)>)
    requires s.dumpFile.Array?
    ensures var r := SaveRun(s, saves, true);
            && r.dumpFile.Array?
            && |s.dumpFile.records| <= |r.dumpFile.records|
            && r.dumpFile.records[..|s.dumpFile.records|] == s.dumpFile.records
    decreases |saves|
  {
    if saves != [] {
      var k := |saves| - 1;
      var before := SaveRun(s, saves[..k], true);
      AtomicSavesKeepRecords(s, saves[..k]);
      AtomicSaveKeepsRecords(before, saves[k].0, saves[k].1);
      var r := SaveRun(s, saves, true);
      var n := |s.dumpFile.records|;
      assert r.dumpFile.records[..n] == r.dumpFile.records[..|before.dumpFile.records|][..n];
    }
  }

  // ---------------------------------------------------------------------------
  // Finding: the page loop re-reads the newest page

  /**
    As written: every iter_admin_log call asks for the newest deletion events
    again, so an unchanged log with one deleted text message e yields [e] on
    the second call too, and e is saved twice.
  */
  lemma RepeatedPageSavesTwice(s: BotState, e: Event)
    requires Loaded(s.dumpFile) == Success([])
    requires Recoverable(e) && !HasMedia(e.oldMessage.value) && CleanSave(e)
    ensures var rec := Record(e.oldMessage.value, e.save.exportedAt);
            Export(s, true, true, [[e], [e], []], 1).dumpFile == Array([rec, rec])
  {
    var rec := Record(e.oldMessage.value, e.save.exportedAt);
    var pages := [[e], [e], []];
    assert pages[1..] == [[e], []] && pages[1..][1..] == [[]];
    assert Consumed(pages[1..][1..]) == [];
    assert Consumed(pages[1..]) == [e] + [];
    assert Consumed(pages) == [e] + [e];
    assert [e, e][..1] == [e] && [e][..0] == [];
    assert SavedRecords(1, [e]) == [] + [rec];
    assert SavedRecords(1, [e, e]) == [rec] + [rec];
    ExportDump(s, true, pages, 1);
    assert [] + [rec, rec] == [rec, rec];
  }

  /** `n` iter_admin_log calls that all yield the same page. */
  function Repeat(page: seq<Event>, n: nat): seq<seq<Event>>
    decreases n
  {
    if n == 0 then [] else [page] + Repeat(page, n - 1)
  }

  /** Repeated non-empty pages never hold the empty page, and the loop reads every copy of the page before a final empty one. */
  lemma {:induction false} RepeatConsumed(page: seq<Event>, n: nat)
    requires page != []
    ensures [] !in Repeat(page, n)
    ensures [] in Repeat(page, n) + [[]]
    ensures |Consumed(Repeat(page, n) + [[]])| == n * |page|
    decreases n
  {
    if n > 0 {
      RepeatConsumed(page, n - 1);
      var pages := Repeat(page, n) + [[]];
      assert pages[0] == page;
      assert pages[1..] == Repeat(page, n - 1) + [[]];
    }
  }

  /**
    As written: while the log does not change, every call yields the same
    non-empty page. No number of such calls yields the empty page that ends
    the loop, and the work done grows with the number of calls: after `n` of
    them, processed has grown by n * |page|.
  */
  lemma UnchangedLogWorkGrows(s: BotState, resetSucceeds: bool, page: seq<Event>, n: nat, mode: int)
    requires ValidMode(mode) && page != []
    ensures [] !in Repeat(page, n)
    ensures [] in Repeat(page, n) + [[]]
    ensures Export(s, true, resetSucceeds, Repeat(page, n) + [[]], mode).stats.processed
         == s.stats.processed + n * |page|
  {
    RepeatConsumed(page, n);
    ExportProcessed(s, resetSucceeds, Repeat(page, n) + [[]], mode);
  }

  /** Reading the log page by page and stopping at the empty page reads every event once, in order. */
  lemma {:induction false} ConsumedLogPages(log: seq<Event>)
    ensures Consumed(LogPages(log)) == log
    decreases |log|
  {
    if log != [] {
      var n := if |log| < PageLimit then |log| else PageLimit;
      var pages := LogPages(log);
      assert pages[0] == log[..n] && pages[1..] == LogPages(log[n..]);
      ConsumedLogPages(log[n..]);
      assert log[..n] + log[n..] == log;
    }
  }

  /** The first page of a non-empty log holds its first min(|log|, PageLimit) events, and the page loop handles them first. */
  lemma LogPagesStep(s: BotState, total: nat, log: seq<Event>, mode: int)
    requires ValidMode(mode) && log != []
    ensures var n := if |log| < PageLimit then |log| else PageLimit;
            RunPages(s, total, LogPages(log), mode)
              == RunPages(RunEvents(s, total, log[..n], mode), total + n, LogPages(log[n..]), mode)
  {
    var n := if |log| < PageLimit then |log| else PageLimit;
    var pages := LogPages(log);
    assert pages[0] == log[..n] && pages[1..] == LogPages(log[n..]);
  }

  /**
    Corrected: walking the log once handles each of its events exactly once:
    processed grows by |log| and the writer calls are those of the log's
    events, in order.
  */
  lemma ExportLogOnce(s: BotState, resetSucceeds: bool, log: seq<Event>, mode: int)
    requires ValidMode(mode)
    ensures var r := ExportLog(s, true, resetSucceeds, log, mode);
            && r == RunEvents(ResetErrorFile(s, resetSucceeds), 0, log, mode)
            && r.stats.processed == s.stats.processed + |log|
            && r.calls == s.calls + ExpectedCalls(mode, log)
  {
    ConsumedLogPages(log);
    RunPagesFlat(ResetErrorFile(s, resetSucceeds), 0, LogPages(log), mode);
    ExportProcessed(s, resetSucceeds, LogPages(log), mode);
    ExportCalls(s, resetSucceeds, LogPages(log), mode);
  }

  /** Corrected: with fault-free saves, walking the log once adds exactly one record per saved message to the dump. */
  lemma ExportLogDump(s: BotState, resetSucceeds: bool, log: seq<Event>, mode: int)
    requires ValidMode(mode) && Loaded(s.dumpFile).Success?
    requires forall e | e in log && Recoverable(e) :: CleanSave(e)
    ensures Loaded(ExportLog(s, true, resetSucceeds, log, mode).dumpFile)
         == Success(Loaded(s.dumpFile).value + SavedRecords(mode, log))
  {
    ConsumedLogPages(log);
    ExportDump(s, resetSucceeds, LogPages(log), mode);
  }
}
