// In-memory session log: the module-level dictionary `session_memory` that maps a
// session id to its append-only list of exchanges, and the optional hand-over of
// one session's list to a document store.

module Logger {
  import opened Basics

  /** One logged exchange: `{timestamp, user_input, response}`. */
  datatype LogEntry = LogEntry(timestamp: string, userInput: string, response: string)

  /** The document `persist_session_to_mongo` would insert. */
  datatype MongoDocument = MongoDocument(sessionId: string, createdAt: string, logs: seq<LogEntry>)

  /** `session_memory.get(session_id, {}).get("logs", [])` on a snapshot of the dictionary. */
  function LogsOf(memory: map<string, seq<LogEntry>>, sessionId: string): (r: seq<LogEntry>)
    ensures sessionId !in memory ==> r == []
    ensures sessionId in memory ==> r == memory[sessionId]
  {
    if sessionId in memory then memory[sessionId] else []
  }

  /** The dictionary after one `append_session_log`: the session is created when
      missing, the entry goes last, and no other session is touched. */
  function Appended(memory: map<string, seq<LogEntry>>, sessionId: string, entry: LogEntry)
    : (r: map<string, seq<LogEntry>>)
    ensures r.Keys == memory.Keys + {sessionId}
    ensures LogsOf(r, sessionId) == LogsOf(memory, sessionId) + [entry]
    ensures |LogsOf(r, sessionId)| == |LogsOf(memory, sessionId)| + 1
    ensures forall other :: other != sessionId ==> LogsOf(r, other) == LogsOf(memory, other)
  {
    memory[sessionId := LogsOf(memory, sessionId) + [entry]]
  }

  /** A run of appends, each a session id and the entry logged for it. */
  function AppendAll(memory: map<string, seq<LogEntry>>, appends: seq<(string, LogEntry)>)
    : (r: map<string, seq<LogEntry>>)
    ensures forall s :: LogsOf(memory, s) <= LogsOf(r, s)
    ensures |appends| > 0 ==> r.Keys >= memory.Keys + {appends[0].0}
    decreases |appends|
  {
    if appends == [] then memory
    else AppendAll(Appended(memory, appends[0].0, appends[0].1), appends[1..])
  }

  /** The entries of a run of appends that went to one session, in order. */
  function EntriesFor(appends: seq<(string, LogEntry)>, sessionId: string): (r: seq<LogEntry>)
    ensures |r| <= |appends|
    decreases |appends|
  {
    if appends == [] then []
    else if appends[0].0 == sessionId then [appends[0].1] + EntriesFor(appends[1..], sessionId)
    else EntriesFor(appends[1..], sessionId)
  }

  /** The logs are append-only: after any run of appends, a session's list is its old
      list followed by exactly the entries sent to it, in the order they were sent. */
  lemma {:induction false} AppendAllExtends(memory: map<string, seq<LogEntry>>,
                                            appends: seq<(string, LogEntry)>, sessionId: string)
    ensures LogsOf(AppendAll(memory, appends), sessionId)
            == LogsOf(memory, sessionId) + EntriesFor(appends, sessionId)
    decreases |appends|
  {
    if appends != [] {
      var next := Appended(memory, appends[0].0, appends[0].1);
      AppendAllExtends(next, appends[1..], sessionId);
      if appends[0].0 == sessionId {
        calc {
          LogsOf(AppendAll(memory, appends), sessionId);
          LogsOf(next, sessionId) + EntriesFor(appends[1..], sessionId);
          (LogsOf(memory, sessionId) + [appends[0].1]) + EntriesFor(appends[1..], sessionId);
          LogsOf(memory, sessionId) + ([appends[0].1] + EntriesFor(appends[1..], sessionId));
        }
      }
    }
  }

  /** Sessions a run of appends never names keep their list unchanged. */
  lemma {:induction false} AppendAllLeavesOthers(memory: map<string, seq<LogEntry>>,
                                                 appends: seq<(string, LogEntry)>, sessionId: string)
    requires forall k :: 0 <= k < |appends| ==> appends[k].0 != sessionId
    ensures LogsOf(AppendAll(memory, appends), sessionId) == LogsOf(memory, sessionId)
    decreases |appends|
  {
    if appends != [] {
      assert appends[0].0 != sessionId;
      AppendAllLeavesOthers(Appended(memory, appends[0].0, appends[0].1), appends[1..], sessionId);
    }
  }

  /** The logging state: `session_memory`, and whether the document store came up
      at start-up (`use_mongo`, `logs_collection is not None`). */
  class SessionStore {
    var memory: map<string, seq<LogEntry>>
    const useMongo: bool
    const collectionAvailable: bool

    constructor (useMongo: bool, collectionAvailable: bool)
      ensures memory == map[]
      ensures this.useMongo == useMongo && this.collectionAvailable == collectionAvailable
    {
      memory := map[];
      this.useMongo := useMongo;
      this.collectionAvailable := collectionAvailable;
    }

    /** `get_session_logs`: an unknown session has the empty list. */
    function GetSessionLogs(sessionId: string): (r: seq<LogEntry>)
      reads this
      ensures sessionId !in memory ==> r == []
      ensures sessionId in memory ==> r == memory[sessionId]
    {
      LogsOf(memory, sessionId)
    }

    /** `append_session_log`: create the session if missing, then append one entry
        carrying the input and the response verbatim. */
    method AppendSessionLog(sessionId: string, userInput: string, response: string, timestamp: string)
      modifies this
      ensures memory == Appended(old(memory), sessionId, LogEntry(timestamp, userInput, response))
      ensures GetSessionLogs(sessionId)
              == old(GetSessionLogs(sessionId)) + [LogEntry(timestamp, userInput, response)]
      ensures forall other :: other != sessionId ==> GetSessionLogs(other) == old(GetSessionLogs(other))
    {
      if sessionId !in memory {
        memory := memory[sessionId := []];
      }
      memory := memory[sessionId := memory[sessionId] + [LogEntry(timestamp, userInput, response)]];
    }

    /** `persist_session_to_mongo`: skip when the list is empty or the store is
        unavailable; otherwise hand over the whole list. Nothing in memory changes. */
    method PersistSessionToMongo(sessionId: string, createdAt: string) returns (doc: Option<MongoDocument>)
      ensures doc.None? <==> GetSessionLogs(sessionId) == [] || !useMongo || !collectionAvailable
      ensures doc.Some? ==> doc.value == MongoDocument(sessionId, createdAt, GetSessionLogs(sessionId))
    {
      var logs := GetSessionLogs(sessionId);
      if logs == [] || !useMongo || !collectionAvailable {
        return None;
      }
      doc := Some(MongoDocument(sessionId, createdAt, logs));
    }
  }
}
