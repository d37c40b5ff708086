/**
  TelegramBackupBot's export side as an object whose fields the methods update
  in place, as backup.py:17-31 and backup.py:167-309 do. Each method is proved
  to leave the object in the state the matching function of ExportModel
  computes, and to keep the ledger invariant of ExportProperties.
*/
module Bot {
  import opened Wrappers
  import opened ExportModel
  import ExportProperties

  class BackupBot {
    var stats: Stats
    var errorsList: seq<ErrorRecord>
    /** backup/dump.json */
    var dumpFile: DumpFile
    /** backup/errors.json */
    var errorFile: seq<ErrorChunk>
    /** The paths client.download_media returned in this run (proof bookkeeping). */
    ghost var downloaded: seq<string>
    /** The writer calls made so far (proof bookkeeping). */
    ghost var calls: seq<WriterCall>
    /** The values of total_processed at which the loop body reached its progress check and pause (proof bookkeeping). */
    ghost var itemTails: seq<nat>

    ghost function State(): BotState
      reads this
    {
      BotState(stats, errorsList, dumpFile, errorFile, downloaded, calls, itemTails)
    }

    ghost predicate Valid()
      reads this
    {
      ExportProperties.Consistent(State())
    }

    /** __init__: zero counters, no errors yet; the two files hold whatever earlier runs left in them. */
    constructor (dump: DumpFile, errors: seq<ErrorChunk>)
      ensures State() == Initial(dump, errors) && Valid()
    {
      stats := Stats(0, 0, 0, 0);
      errorsList := [];
      dumpFile := dump;
      errorFile := errors;
      downloaded := [];
      calls := [];
      itemTails := [];
    }

    /** save_error (backup.py:167-181): a failing append to the error file is swallowed. */
    method SaveError(messageId: int, error: string, w: LedgerWorld)
      requires Valid()
      modifies this
      ensures State() == ExportModel.SaveError(old(State()), messageId, error, w) && Valid()
    {
      var errorData := ErrorRecord(messageId, error, w.at);
      errorsList := errorsList + [errorData];
      stats := stats.(errors := stats.errors + 1);
      if w.appendSucceeds {
        errorFile := errorFile + [Line(errorData)];
      }
    }

    /** save_message_to_json (backup.py:183-209) */
    method SaveMessageToJson(message: Msg, w: SaveWorld) returns (ok: bool)
      requires Valid()
      modifies this
      ensures (State(), ok) == SaveMessage(old(State()), message, w) && Valid()
    {
      calls := calls + [SaveCall(message)];
      var messageDict := Record(message, w.exportedAt);
      var data: seq<Record> := [];
      if dumpFile != Absent {
        if w.readFault.Some? {
          SaveError(message.id, w.readFault.value, w.ledger);
          return false;
        }
        match dumpFile
        case Array(records) =>
          data := records;
        case NonArray(typeName) =>
          // data.append fails on the non-list json.loads returned
          SaveError(message.id, NotAppendable(typeName), w.ledger);
          return false;
        case _ =>
      }
      data := data + [messageDict];
      match w.write
      case Written =>
        dumpFile := Array(data);
        stats := stats.(textMessages := stats.textMessages + 1);
        ok := true;
      case OpenFailed(e) =>
        SaveError(message.id, e, w.ledger);
        ok := false;
      case FailedMidway(e) =>
        dumpFile := Unparsable;
        SaveError(message.id, e, w.ledger);
        ok := false;
    }

    /** download_media (backup.py:211-229) */
    method DownloadMedia(message: Msg, w: DownloadWorld) returns (downloadedFile: Option<string>)
      requires Valid()
      modifies this
      ensures (State(), downloadedFile) == ExportModel.DownloadMedia(old(State()), message, w) && Valid()
    {
      calls := calls + [DownloadCall(message)];
      downloadedFile := None;
      match w.result
      case Raised(e) =>
        SaveError(message.id, e, w.ledger);
      case NoFile =>
      case File(path) =>
        if path != "" {
          stats := stats.(mediaFiles := stats.mediaFiles + 1);
          downloaded := downloaded + [path];
          downloadedFile := Some(path);
        }
    }

    /** The mode dispatch of export_messages for a recoverable message (backup.py:275-284). */
    method WriteMessage(message: Msg, event: Event, mode: int)
      requires Valid() && ValidMode(mode)
      modifies this
      ensures State() == ExportModel.WriteMessage(old(State()), message, event, mode) && Valid()
    {
      if mode == 1 {
        var saved := SaveMessageToJson(message, event.save);
        if HasMedia(message) {
          var file := DownloadMedia(message, event.download);
        }
      } else if mode == 2 && HasMedia(message) {
        var file := DownloadMedia(message, event.download);
      } else if mode == 3 && !HasMedia(message) {
        var saved := SaveMessageToJson(message, event.save);
      }
    }

    /**
      The `for event in events` loop of export_messages (backup.py:265-295)
      over one fetched page; `totalProcessed` is total_processed.
    */
    method ProcessPage(events: seq<Event>, totalStart: nat, mode: int) returns (totalProcessed: nat)
      requires Valid() && ValidMode(mode)
      modifies this
      ensures State() == RunEvents(old(State()), totalStart, events, mode) && Valid()
      ensures totalProcessed == totalStart + |events|
    {
      totalProcessed := totalStart;
      for j := 0 to |events|
        invariant totalProcessed == totalStart + j
        invariant State() == RunEvents(old(State()), totalStart, events[..j], mode)
        invariant Valid()
      {
        ExportProperties.RunEventsPrefixStep(old(State()), totalStart, events, j, mode);
        ghost var before := State();
        var event := events[j];
        stats := stats.(processed := stats.processed + 1);
        totalProcessed := totalProcessed + 1;
        if !(event.deletedMessage && event.oldMessage.Some?) {
          assert State() == HandleEvent(before, totalStart + j, event, mode);
          continue;
        }
        var message := event.oldMessage.value;
        WriteMessage(message, event, mode);
        itemTails := itemTails + [totalProcessed];
        assert State() == HandleEvent(before, totalStart + j, event, mode);
      }
      assert events[..|events|] == events;
    }

    /**
      export_messages (backup.py:231-309). `pages[i]` is what the i-th
      iter_admin_log call yields; the loop reads pages up to the first empty one.
    */
    method ExportMessages(groupOk: bool, resetSucceeds: bool, pages: seq<seq<Event>>, mode: int)
      requires Valid() && ValidMode(mode) && [] in pages
      modifies this
      ensures State() == Export(old(State()), groupOk, resetSucceeds, pages, mode) && Valid()
    {
      if !groupOk {
        return;
      }
      if resetSucceeds {
        errorFile := [EmptyArray];
      }
      var totalProcessed: nat := 0;
      var i := 0;
      while true
        invariant 0 <= i < |pages| && [] in pages[i..]
        invariant RunPages(State(), totalProcessed, pages[i..], mode) == Export(old(State()), groupOk, resetSucceeds, pages, mode)
        invariant Valid()
        decreases |pages| - i
      {
        var events: seq<Event> := [];
        for k := 0 to |pages[i]|
          invariant events == pages[i][..k]
        {
          events := events + [pages[i][k]];
        }
        assert events == pages[i];
        if events == [] {
          break;
        }
        totalProcessed := ProcessPage(events, totalProcessed, mode);
        assert pages[i..][1..] == pages[i + 1..];
        assert [] in pages[i + 1..];
        i := i + 1;
      }
    }
  
    /**
      The corrected page loop: each iter_admin_log call starts after the last
      event already read, at most PageLimit events per page, until the log is
      exhausted; every event of `log` is handled once.
    */
    method ExportLog(groupOk: bool, resetSucceeds: bool, log: seq<Event>, mode: int)
      requires Valid() && ValidMode(mode)
      modifies this
      ensures State() == ExportModel.ExportLog(old(State()), groupOk, resetSucceeds, log, mode) && Valid()
    {
      if !groupOk {
        return;
      }
      ghost var target := ExportModel.ExportLog(State(), groupOk, resetSucceeds, log, mode);
      if resetSucceeds {
        errorFile := [EmptyArray];
      }
      var totalProcessed: nat := 0;
      var cursor := 0;
      assert log[cursor..] == log;
      while cursor < |log|
        invariant 0 <= cursor <= |log|
        invariant RunPages(State(), totalProcessed, LogPages(log[cursor..]), mode) == target
        invariant Valid()
        decreases |log| - cursor
      {
        var n := if |log| - cursor < PageLimit then |log| - cursor else PageLimit;
        var events := log[cursor..cursor + n];
        ExportProperties.LogPagesStep(State(), totalProcessed, log[cursor..], mode);
        assert log[cursor..][..n] == events && log[cursor..][n..] == log[cursor + n..];
        totalProcessed := ProcessPage(events, totalProcessed, mode);
        cursor := cursor + n;
      }
      assert log[cursor..] == [] && LogPages([]) == [[]];
    }
  }
}
