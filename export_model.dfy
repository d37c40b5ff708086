/**
  The export pipeline of the backup bot (backup.py:167-309) as functions on a
  value of the bot's state. Everything the outside world decides (the admin-log
  pages, what the file system and the chat client do on each call, the clock)
  is an input: each event carries the answers the world gives while that event
  is handled.
*/
module ExportModel {
  import opened Wrappers

  /** An ISO-8601 time stamp, treated as an opaque value. */
  type Timestamp = string

  /** A deleted message as the admin log recovers it; `media` is the media reference, if any. */
  datatype Msg = Msg(id: int, text: string, media: Option<string>)

  predicate HasMedia(m: Msg)
  {
    m.media.Some?
  }

  /** message.to_dict() with its `_backup_info.exported_at` stamp (backup.py:185-186). */
  datatype Record = Record(message: Msg, exportedAt: Timestamp)

  /** The object save_error builds (backup.py:168-172). */
  datatype ErrorRecord = ErrorRecord(messageId: int, error: string, timestamp: Timestamp)

  /**
    backup/dump.json as save_message_to_json reads it: missing, blank after
    strip(), not valid JSON, valid JSON that is not an array (with the Python
    type name json.loads gives it), or an array of records.
  */
  datatype DumpFile = Absent | Blank | Unparsable | NonArray(typeName: string) | Array(records: seq<Record>)

  /**
    backup/errors.json as a sequence of writes: the `[]` that export writes at
    the start, and one JSON object followed by a newline per save_error.
  */
  datatype ErrorChunk = EmptyArray | Line(entry: ErrorRecord)

  /** self.stats */
  datatype Stats = Stats(textMessages: nat, mediaFiles: nat, errors: nat, processed: nat)

  /** A call of one of the two writers, with the message it was given. */
  datatype WriterCall = SaveCall(message: Msg) | DownloadCall(message: Msg)

  /**
    The bot's state: the counters, errors_list, the dump file, the error file,
    the paths of media downloaded in this run, the writer calls made, and the
    values of total_processed at which an event reached the progress check and
    the 0.1 s pause (backup.py:286-289).
  */
  datatype BotState = BotState(
    stats: Stats,
    errorsList: seq<ErrorRecord>,
    dumpFile: DumpFile,
    errorFile: seq<ErrorChunk>,
    downloaded: seq<string>,
    calls: seq<WriterCall>,
    itemTails: seq<nat>)

  /** What save_error's append to the error file meets: the clock and whether the append works. */
  datatype LedgerWorld = LedgerWorld(at: Timestamp, appendSucceeds: bool)

  /** What rewriting the dump file does: succeeds, fails to open it, or fails after truncating it. */
  datatype WriteOutcome = Written | OpenFailed(error: string) | FailedMidway(error: string)

  /**
    What save_message_to_json meets: the clock, an exception other than a JSON
    decode error while reading an existing dump (an I/O or encoding error), the
    rewrite, and the ledger if it fails.
  */
  datatype SaveWorld = SaveWorld(exportedAt: Timestamp, readFault: Option<string>, write: WriteOutcome, ledger: LedgerWorld)

  /** What client.download_media does: returns None, returns a path, or raises. */
  datatype DownloadOutcome = NoFile | File(path: string) | Raised(error: string)

  datatype DownloadWorld = DownloadWorld(result: DownloadOutcome, ledger: LedgerWorld)

  /**
    An admin-log event: event.deleted_message, event.old, and what the world
    answers to the writer calls this event may cause.
  */
  datatype Event = Event(deletedMessage: bool, oldMessage: Option<Msg>, save: SaveWorld, download: DownloadWorld)

  /** The condition under which the loop does not `continue` (backup.py:270). */
  predicate Recoverable(e: Event)
  {
    e.deletedMessage && e.oldMessage.Some?
  }

  /** The modes run accepts before calling export (backup.py:334-336): 1 all, 2 media only, 3 text only. */
  predicate ValidMode(mode: int)
  {
    1 <= mode <= 3
  }

  /** A fresh bot: zero counters and an empty errors_list; the files keep what earlier runs left. */
  function Initial(dump: DumpFile, errorFile: seq<ErrorChunk>): BotState
  {
    BotState(Stats(0, 0, 0, 0), [], dump, errorFile, [], [], [])
  }

  /** The text of the AttributeError that `data.append` raises when the dump holds JSON of another type. */
  function NotAppendable(typeName: string): string
  {
    "'" + typeName + "' object has no attribute 'append'"
  }

  /** The list data that save_message_to_json starts from (backup.py:188-196), or the error its append meets. */
  function Loaded(f: DumpFile): (r: Result<seq<Record>, string>)
    ensures f.Array? ==> r == Success(f.records)
    ensures r.Failure? <==> f.NonArray?
    ensures r.Success? && !f.Array? ==> r.value == []
  {
    match f
    case Absent => Success([])
    case Blank => Success([])
    case Unparsable => Success([])
    case NonArray(t) => Failure(NotAppendable(t))
    case Array(rs) => Success(rs)
  }

  /** save_error (backup.py:167-181) */
  function SaveError(s: BotState, messageId: int, error: string, w: LedgerWorld): (r: BotState)
    ensures r.stats.errors == s.stats.errors + 1 && |r.errorsList| == |s.errorsList| + 1
    ensures r.errorsList[|s.errorsList|].messageId == messageId
    ensures |s.errorFile| <= |r.errorFile| <= |s.errorFile| + 1
    ensures r.dumpFile == s.dumpFile && r.calls == s.calls && r.itemTails == s.itemTails
  {
    var rec := ErrorRecord(messageId, error, w.at);
    s.(errorsList := s.errorsList + [rec],
       stats := s.stats.(errors := s.stats.errors + 1),
       errorFile := if w.appendSucceeds then s.errorFile + [Line(rec)] else s.errorFile)
  }

  /** save_message_to_json (backup.py:183-209): the new state and the value it returns. */
  function SaveMessage(s: BotState, m: Msg, w: SaveWorld): (r: (BotState, bool))
    ensures r.1 ==> r.0.dumpFile.Array? && r.0.stats.textMessages == s.stats.textMessages + 1
    ensures !r.1 ==> r.0.stats.errors == s.stats.errors + 1 && r.0.stats.textMessages == s.stats.textMessages
    ensures r.0.calls == s.calls + [SaveCall(m)] && r.0.itemTails == s.itemTails
  {
    var s1 := s.(calls := s.calls + [SaveCall(m)]);
    if s.dumpFile != Absent && w.readFault.Some? then
      (SaveError(s1, m.id, w.readFault.value, w.ledger), false)
    else
      match Loaded(s.dumpFile)
      case Failure(e) => (SaveError(s1, m.id, e, w.ledger), false)
      case Success(data) =>
        var rec := Record(m, w.exportedAt);
        match w.write
        case Written =>
          (s1.(dumpFile := Array(data + [rec]), stats := s1.stats.(textMessages := s1.stats.textMessages + 1)), true)
        case OpenFailed(e) => (SaveError(s1, m.id, e, w.ledger), false)
        case FailedMidway(e) => (SaveError(s1.(dumpFile := Unparsable), m.id, e, w.ledger), false)
  }

  /** Python truthiness of the value client.download_media returns. */
  predicate Truthy(o: DownloadOutcome)
  {
    o.File? && o.path != ""
  }

  /** download_media (backup.py:211-229): the new state and the value it returns. */
  function DownloadMedia(s: BotState, m: Msg, w: DownloadWorld): (r: (BotState, Option<string>))
    ensures r.1.Some? ==> r.1.value != "" && r.0.downloaded == s.downloaded + [r.1.value]
    ensures r.1.None? ==> r.0.downloaded == s.downloaded
    ensures r.0.calls == s.calls + [DownloadCall(m)] && r.0.dumpFile == s.dumpFile && r.0.itemTails == s.itemTails
  {
    var s1 := s.(calls := s.calls + [DownloadCall(m)]);
    match w.result
    case Raised(e) => (SaveError(s1, m.id, e, w.ledger), None)
    case NoFile => (s1, None)
    case File(p) =>
      if p != "" then
        (s1.(stats := s1.stats.(mediaFiles := s1.stats.mediaFiles + 1), downloaded := s1.downloaded + [p]), Some(p))
      else (s1, None)
  }

  /** The mode dispatch for a recoverable message (backup.py:275-284). */
  function WriteMessage(s: BotState, m: Msg, e: Event, mode: int): (r: BotState)
    requires ValidMode(mode)
    ensures |s.calls| <= |r.calls| <= |s.calls| + 2
    ensures r.itemTails == s.itemTails && r.stats.processed == s.stats.processed
  {
    if mode == 1 then
      var saved := SaveMessage(s, m, e.save).0;
      if HasMedia(m) then DownloadMedia(saved, m, e.download).0 else saved
    else if mode == 2 && HasMedia(m) then DownloadMedia(s, m, e.download).0
    else if mode == 3 && !HasMedia(m) then SaveMessage(s, m, e.save).0
    else s
  }

  /**
    One pass of `for event in events` (backup.py:266-289); `before` is
    total_processed before the pass.
  */
  function HandleEvent(s: BotState, before: nat, e: Event, mode: int): (r: BotState)
    requires ValidMode(mode)
    ensures r.stats.processed == s.stats.processed + 1
    ensures |r.itemTails| == |s.itemTails| + (if Recoverable(e) then 1 else 0)
    ensures |s.calls| <= |r.calls|
  {
    var s1 := s.(stats := s.stats.(processed := s.stats.processed + 1));
    if !Recoverable(e) then s1
    else
      var s2 := WriteMessage(s1, e.oldMessage.value, e, mode);
      s2.(itemTails := s2.itemTails + [before + 1])
  }

  /** The events of one page, or of several, handled in order; `total` is total_processed at the start. */
  function RunEvents(s: BotState, total: nat, events: seq<Event>, mode: int): (r: BotState)
    requires ValidMode(mode)
    ensures |s.itemTails| <= |r.itemTails| <= |s.itemTails| + |events|
    decreases |events|
  {
    if events == [] then s
    else
      var k := |events| - 1;
      HandleEvent(RunEvents(s, total, events[..k], mode), total + k, events[k], mode)
  }

  /** The `while True` page loop (backup.py:253-297): pages are handled up to the first empty one. */
  function RunPages(s: BotState, total: nat, pages: seq<seq<Event>>, mode: int): (r: BotState)
    requires ValidMode(mode) && [] in pages
    ensures |s.itemTails| <= |r.itemTails|
    ensures pages[0] == [] ==> r == s
    decreases |pages|
  {
    if pages[0] == [] then s
    else
      assert [] in pages[1..];
      RunPages(RunEvents(s, total, pages[0], mode), total + |pages[0]|, pages[1..], mode)
  }

  /** Writing `[]` to the error file at the start of an export (backup.py:244-248); a failure is ignored. */
  function ResetErrorFile(s: BotState, resetSucceeds: bool): (r: BotState)
    ensures resetSucceeds ==> r.errorFile == [EmptyArray]
    ensures !resetSucceeds ==> r == s
    ensures r.(errorFile := s.errorFile) == s
  {
    if resetSucceeds then s.(errorFile := [EmptyArray]) else s
  }

  /**
    export_messages (backup.py:231-309): `groupOk` is whether the group
    resolves, `resetSucceeds` whether the error file can be rewritten, and
    `pages` what successive iter_admin_log calls yield.
  */
  function Export(s: BotState, groupOk: bool, resetSucceeds: bool, pages: seq<seq<Event>>, mode: int): (r: BotState)
    requires ValidMode(mode) && [] in pages
    ensures !groupOk ==> r == s
    ensures |s.itemTails| <= |r.itemTails|
  {
    if !groupOk then s
    else RunPages(ResetErrorFile(s, resetSucceeds), 0, pages, mode)
  }

  // ---------------------------------------------------------------------------
  // Corrected behaviour (see the findings in README.md)

  /**
    Corrected: save_message_to_json with the new array written
    aside and replaces the dump only once it is complete, so a rewrite that
    fails part-way leaves the old dump in place.
  */
  function SaveMessageAtomic(s: BotState, m: Msg, w: SaveWorld): (r: (BotState, bool))
    ensures r.0.dumpFile == s.dumpFile
            || (r.1 && Loaded(s.dumpFile).Success? && r.0.dumpFile == Array(Loaded(s.dumpFile).value + [Record(m, w.exportedAt)]))
    ensures r.1 ==> r.0.stats.textMessages == s.stats.textMessages + 1
    ensures !r.1 ==> r.0.stats.errors == s.stats.errors + 1
  {
    match w.write
    case FailedMidway(e) => SaveMessage(s, m, w.(write := OpenFailed(e)))
    case _ => SaveMessage(s, m, w)
  }

  /** The `limit` passed to iter_admin_log (backup.py:256). */
  const PageLimit: nat := 100

  /**
    Corrected: the deletion log read in successive pages of at most
    PageLimit events, each starting after the last event of the one before,
    and then an empty page.
  */
  function LogPages(log: seq<Event>): (pages: seq<seq<Event>>)
    ensures [] in pages && pages[|pages| - 1] == []
    decreases |log|
  {
    if log == [] then [[]]
    else
      var n := if |log| < PageLimit then |log| else PageLimit;
      [log[..n]] + LogPages(log[n..])
  }

  /** export_messages walking the deletion log once, page by page. */
  function ExportLog(s: BotState, groupOk: bool, resetSucceeds: bool, log: seq<Event>, mode: int): (r: BotState)
    requires ValidMode(mode)
    ensures !groupOk ==> r == s
    ensures log == [] ==> r == ResetErrorFile(s, resetSucceeds) || !groupOk
  {
    Export(s, groupOk, resetSucceeds, LogPages(log), mode)
  }
}
