// The server's shared state: the running downloads by task id, the file
// each download is writing, and the WebSocket subscribers with the task
// id each one is bound to. The server guards each map with a mutex and
// touches them from several goroutines; here every operation is one
// sequential step, and handleRun's duplicate check and its insert are two
// separate steps, as they are in the server.
//
// Writes to a connection, killing a process, starting a process, and
// stat'ing and removing files are inputs: functions or flags saying
// whether each attempt succeeds.

module Registry {
  import opened Wrappers
  import opened Listing
  import Extract
  import Cleanup

  /** A WebSocket connection, by identity. */
  type Conn = nat

  /** A yt-dlp process handle, by identity. */
  type Proc = nat

  /**
   * An exec.Cmd in the task map: the process it runs and whether that
   * process was started. Until Start succeeds, the command has no process
   * (cmd.Process is nil).
   */
  datatype Cmd = Cmd(proc: Proc, started: bool)

  /** The outcome of handleRun's checks before it starts the download. */
  datatype RunCheck =
    | Accepted
    | MissingField    // HTTP 400: platform, URL or task id is empty
    | DuplicateTask   // HTTP 409: the task id is already running

  /** The outcome of handleStop. */
  datatype StopOutcome =
    | Stopped(removed: seq<string>, deletedCount: nat)
    | MissingTaskId   // HTTP 400: empty task id
    | UnknownTask     // HTTP 400: no such task, or it has already finished
    | KillFailed      // HTTP 500: the process could not be killed
    | NilProcess      // the handler panics: the command was never started

  /**
   * The partial files a stop removes: none when no file name was seen for
   * the task or its directory could not be read, otherwise the partial
   * files of the download's base name that could be stat'ed and removed.
   */
  function StopRemovals(filename: string, baseOf: string -> string, listing: Option<seq<DirEntry>>,
                        statOk: string -> bool, removeOk: string -> bool): (r: seq<string>)
    ensures filename == "" || listing.None? ==> r == []
    ensures forall k :: 0 <= k < |r| ==> statOk(r[k]) && removeOk(r[k])
  {
    if filename == "" || listing.None? then []
    else Cleanup.Removed(Cleanup.PartialFiles(listing.value, baseOf(filename)), statOk, removeOk)
  }

  /**
   * With a file name and a readable directory, a stop removes exactly the
   * partial files of the download's base name that could be stat'ed and
   * removed.
   */
  lemma StopRemovalsMembers(filename: string, baseOf: string -> string, entries: seq<DirEntry>,
                            statOk: string -> bool, removeOk: string -> bool, n: string)
    requires filename != ""
    ensures n in StopRemovals(filename, baseOf, Some(entries), statOk, removeOk) <==>
      && (exists k :: 0 <= k < |entries| && entries[k].name == n && Cleanup.IsPartialFile(entries[k], baseOf(filename)))
      && statOk(n) && removeOk(n)
  {
    Cleanup.RemovedMembers(Cleanup.PartialFiles(entries, baseOf(filename)), statOk, removeOk, n);
    Cleanup.PartialFilesMembers(entries, baseOf(filename), n);
  }

  class Server {
    /** The running downloads: task id to command. */
    var activeTasks: map<string, Cmd>
    /** The file each download is writing, once its output has named one. */
    var taskFiles: map<string, string>
    /** The connected subscribers and the task id each is bound to ("" until it registers). */
    var clients: map<Conn, string>

    constructor ()
      ensures activeTasks == map[] && taskFiles == map[] && clients == map[]
    {
      activeTasks := map[];
      taskFiles := map[];
      clients := map[];
    }

    // -------------------------------------------------------------------
    // Subscribers
    // -------------------------------------------------------------------

    /** A new WebSocket connection is registered, bound to no task yet. */
    method Connect(conn: Conn)
      modifies this
      ensures clients == old(clients)[conn := ""]
      ensures activeTasks == old(activeTasks) && taskFiles == old(taskFiles)
    {
      clients := clients[conn := ""];
    }

    /**
     * A message from a subscriber: a `register` message with a non-empty
     * task id binds a still-connected subscriber to that task; anything
     * else changes nothing.
     */
    method ReceiveMessage(conn: Conn, msgType: string, taskID: string)
      modifies this
      ensures msgType == "register" && taskID != "" && conn in old(clients) ==>
        clients == old(clients)[conn := taskID]
      ensures !(msgType == "register" && taskID != "" && conn in old(clients)) ==> clients == old(clients)
      ensures activeTasks == old(activeTasks) && taskFiles == old(taskFiles)
    {
      if msgType == "register" && taskID != "" {
        if conn in clients {
          clients := clients[conn := taskID];
        }
      }
    }

    /** The connection closed: its subscriber is removed. */
    method Disconnect(conn: Conn)
      modifies this
      ensures clients == old(clients) - {conn}
      ensures activeTasks == old(activeTasks) && taskFiles == old(taskFiles)
    {
      clients := clients - {conn};
    }

    // -------------------------------------------------------------------
    // Fan-out
    // -------------------------------------------------------------------

    /**
     * Writes a message to every subscriber whose bound task id `isTarget`
     * accepts, in any order. A subscriber whose write fails is closed and
     * removed; nobody else is removed. Returns the subscribers written to
     * and how many there were.
     */
    method Deliver(isTarget: string -> bool, writeOk: Conn -> bool) returns (sentCount: nat, delivered: set<Conn>)
      modifies this
      ensures forall c :: c in delivered <==> c in old(clients) && isTarget(old(clients)[c]) && writeOk(c)
      ensures forall c :: c in clients <==> c in old(clients) && (!isTarget(old(clients)[c]) || writeOk(c))
      ensures forall c :: c in clients ==> clients[c] == old(clients)[c]
      ensures sentCount == |delivered|
      ensures activeTasks == old(activeTasks) && taskFiles == old(taskFiles)
    {
      var pending := clients.Keys;
      sentCount := 0;
      delivered := {};
      while pending != {}
        invariant pending <= clients.Keys <= old(clients).Keys
        invariant forall c :: c in delivered <==>
          c in old(clients) && c !in pending && isTarget(old(clients)[c]) && writeOk(c)
        invariant forall c :: c in clients <==>
          c in old(clients) && (c in pending || !isTarget(old(clients)[c]) || writeOk(c))
        invariant forall c :: c in clients ==> clients[c] == old(clients)[c]
        invariant sentCount == |delivered|
        invariant activeTasks == old(activeTasks) && taskFiles == old(taskFiles)
        decreases |pending|
      {
        var conn :| conn in pending;
        if isTarget(clients[conn]) {
          if writeOk(conn) {
            assert conn !in delivered;
            delivered := delivered + {conn};
            sentCount := sentCount + 1;
          } else {
            clients := clients - {conn};
          }
        }
        pending := pending - {conn};
      }
    }

    /**
     * sendMessageToTask: only subscribers bound to `taskID` are written to
     * (one bound to another task never receives the message); failed
     * subscribers are dropped; `sentCount` counts the successful writes.
     */
    method SendMessageToTask(taskID: string, writeOk: Conn -> bool) returns (sentCount: nat, delivered: set<Conn>)
      modifies this
      ensures forall c :: c in delivered <==> c in old(clients) && old(clients)[c] == taskID && writeOk(c)
      ensures forall c :: c in clients <==> c in old(clients) && (old(clients)[c] != taskID || writeOk(c))
      ensures forall c :: c in clients ==> clients[c] == old(clients)[c]
      ensures sentCount == |delivered|
      ensures activeTasks == old(activeTasks) && taskFiles == old(taskFiles)
    {
      sentCount, delivered := Deliver(bound => bound == taskID, writeOk);
    }

    /** broadcastMessage: every subscriber is written to; failed ones are dropped. */
    method BroadcastMessage(writeOk: Conn -> bool) returns (delivered: set<Conn>)
      modifies this
      ensures forall c :: c in delivered <==> c in old(clients) && writeOk(c)
      ensures forall c :: c in clients <==> c in old(clients) && writeOk(c)
      ensures forall c :: c in clients ==> clients[c] == old(clients)[c]
      ensures activeTasks == old(activeTasks) && taskFiles == old(taskFiles)
    {
      var sentCount;
      sentCount, delivered := Deliver(bound => true, writeOk);
    }

    // -------------------------------------------------------------------
    // Tasks
    // -------------------------------------------------------------------

    /**
     * handleRun's checks: every field must be non-empty, and the task id
     * must not be running. The check changes nothing.
     */
    method CheckRun(platform: string, url: string, taskID: string) returns (r: RunCheck)
      ensures r == MissingField <==> platform == "" || url == "" || taskID == ""
      ensures r == DuplicateTask <==> platform != "" && url != "" && taskID != "" && taskID in activeTasks
      ensures r == Accepted <==> platform != "" && url != "" && taskID != "" && taskID !in activeTasks
    {
      if platform == "" || url == "" || taskID == "" {
        return MissingField;
      }
      if taskID in activeTasks {
        return DuplicateTask;
      }
      return Accepted;
    }

    /**
     * The download goroutine records its command under the task id
     * (overwriting any entry already there), then tries to start it. When
     * starting fails it only reports the error: the entry stays, with no
     * process.
     */
    method StartProcess(taskID: string, proc: Proc, spawnOk: bool) returns (started: bool)
      modifies this
      ensures started == spawnOk
      ensures activeTasks == old(activeTasks)[taskID := Cmd(proc, spawnOk)]
      ensures taskFiles == old(taskFiles) && clients == old(clients)
    {
      activeTasks := activeTasks[taskID := Cmd(proc, false)];
      if !spawnOk {
        return false;
      }
      activeTasks := activeTasks[taskID := Cmd(proc, true)];
      return true;
    }

    /** As StartProcess, but a command that fails to start is unregistered again. */
    method StartProcessReleasing(taskID: string, proc: Proc, spawnOk: bool) returns (started: bool)
      modifies this
      ensures started == spawnOk
      ensures spawnOk ==> activeTasks == old(activeTasks)[taskID := Cmd(proc, true)]
      ensures !spawnOk ==> activeTasks == old(activeTasks) - {taskID}
      ensures taskFiles == old(taskFiles) && clients == old(clients)
    {
      activeTasks := activeTasks[taskID := Cmd(proc, false)];
      if !spawnOk {
        activeTasks := activeTasks - {taskID};
        return false;
      }
      activeTasks := activeTasks[taskID := Cmd(proc, true)];
      return true;
    }

    /**
     * handleRun's checks and the registration as one step: a running id is
     * never replaced. The command is registered before it is started.
     */
    method TryStart(platform: string, url: string, taskID: string, proc: Proc) returns (r: RunCheck)
      modifies this
      ensures r == MissingField <==> platform == "" || url == "" || taskID == ""
      ensures r == DuplicateTask <==> platform != "" && url != "" && taskID != "" && taskID in old(activeTasks)
      ensures r == Accepted ==> activeTasks == old(activeTasks)[taskID := Cmd(proc, false)]
      ensures r != Accepted ==> activeTasks == old(activeTasks)
      ensures taskFiles == old(taskFiles) && clients == old(clients)
    {
      r := CheckRun(platform, url, taskID);
      if r == Accepted {
        activeTasks := activeTasks[taskID := Cmd(proc, false)];
      }
    }

    /**
     * One line of the download's output: when it names the file being
     * written, that name becomes the task's file.
     */
    method RecordOutputLine(taskID: string, line: string) returns (filename: string)
      modifies this
      ensures filename == Extract.ExtractFilename(line)
      ensures filename != "" ==> taskFiles == old(taskFiles)[taskID := filename]
      ensures filename == "" ==> taskFiles == old(taskFiles)
      ensures activeTasks == old(activeTasks) && clients == old(clients)
    {
      filename := Extract.ExtractFilename(line);
      if filename != "" {
        taskFiles := taskFiles[taskID := filename];
      }
    }

    /**
     * The process exited: the task id leaves both maps. Finishing a task
     * that is in neither map changes nothing.
     */
    method FinishTask(taskID: string)
      modifies this
      ensures activeTasks == old(activeTasks) - {taskID} && taskFiles == old(taskFiles) - {taskID}
      ensures taskID !in activeTasks && taskID !in taskFiles
      ensures taskID !in old(activeTasks) && taskID !in old(taskFiles) ==>
        activeTasks == old(activeTasks) && taskFiles == old(taskFiles)
      ensures clients == old(clients)
    {
      activeTasks := activeTasks - {taskID};
      taskFiles := taskFiles - {taskID};
    }

    /**
     * handleStop. An empty or unknown task id, a command that was never
     * started (killing its nil process panics), or a kill that fails,
     * changes nothing. Otherwise the partial files of the task's download
     * are removed (when a file name was seen and its directory could be
     * read) and the task id leaves both maps.
     *
     * `killOk` says whether killing a process succeeds, `baseOf` gives the
     * base name of a file name made absolute, `listing` is the content of
     * that file's directory (`None` when it cannot be read), and `statOk`
     * and `removeOk` say whether a file in it can be stat'ed and removed.
     */
    method Stop(taskID: string, killOk: Proc -> bool, baseOf: string -> string,
                listing: Option<seq<DirEntry>>, statOk: string -> bool, removeOk: string -> bool)
      returns (outcome: StopOutcome)
      modifies this
      ensures taskID == "" ==> outcome == MissingTaskId
      ensures taskID != "" && taskID !in old(activeTasks) ==> outcome == UnknownTask
      ensures taskID != "" && taskID in old(activeTasks) && !old(activeTasks)[taskID].started ==>
        outcome == NilProcess
      ensures (taskID != "" && taskID in old(activeTasks) && old(activeTasks)[taskID].started
               && !killOk(old(activeTasks)[taskID].proc)) ==> outcome == KillFailed
      ensures !outcome.Stopped? ==> activeTasks == old(activeTasks) && taskFiles == old(taskFiles)
      ensures outcome.Stopped? <==>
        && taskID != "" && taskID in old(activeTasks)
        && old(activeTasks)[taskID].started && killOk(old(activeTasks)[taskID].proc)
      ensures outcome.Stopped? ==>
        var filename := if taskID in old(taskFiles) then old(taskFiles)[taskID] else "";
        outcome.removed == StopRemovals(filename, baseOf, listing, statOk, removeOk)
        && outcome.deletedCount == |outcome.removed|
        && activeTasks == old(activeTasks) - {taskID} && taskFiles == old(taskFiles) - {taskID}
      ensures clients == old(clients)
    {
      if taskID == "" {
        return MissingTaskId;
      }
      if taskID !in activeTasks {
        return UnknownTask;
      }
      var cmd := activeTasks[taskID];
      var filename := if taskID in taskFiles then taskFiles[taskID] else "";
      if !cmd.started {
        return NilProcess;
      }
      if !killOk(cmd.proc) {
        return KillFailed;
      }
      var removed: seq<string> := [];
      var deletedCount: nat := 0;
      if filename != "" {
        var baseName := baseOf(filename);
        match listing {
          case Some(entries) =>
            removed, deletedCount := Cleanup.RemovePartialFiles(entries, baseName, statOk, removeOk);
          case None =>
        }
      }
      activeTasks := activeTasks - {taskID};
      taskFiles := taskFiles - {taskID};
      return Stopped(removed, deletedCount);
    }
  }

  // ---------------------------------------------------------------------
  // Two interleavings the task registry admits
  // ---------------------------------------------------------------------

  /**
   * Two requests for the same task id both pass handleRun's check when
   * neither has registered its process yet; both downloads then run, and
   * the registry keeps only the second process, so the first can no
   * longer be stopped.
   */
  method DuplicateStartAsWritten() returns (first: RunCheck, second: RunCheck, tasks: map<string, Cmd>)
    ensures first == Accepted && second == Accepted
    ensures tasks == map["t" := Cmd(2, true)]
  {
    var s := new Server();
    first := s.CheckRun("youtube", "https://a", "t");
    second := s.CheckRun("youtube", "https://b", "t");
    var ok1 := s.StartProcess("t", 1, true);
    var ok2 := s.StartProcess("t", 2, true);
    tasks := s.activeTasks;
  }

  /** With the check and the registration as one step, the second request is refused. */
  method DuplicateStartRefused() returns (first: RunCheck, second: RunCheck, tasks: map<string, Cmd>)
    ensures first == Accepted && second == DuplicateTask
    ensures tasks == map["t" := Cmd(1, false)]
  {
    var s := new Server();
    first := s.TryStart("youtube", "https://a", "t", 1);
    second := s.TryStart("youtube", "https://b", "t", 2);
    tasks := s.activeTasks;
  }

  /**
   * A command that fails to start stays registered: every later request
   * with the same task id is refused as a duplicate, and stopping the task
   * panics on its nil process.
   */
  method SpawnFailureAsWritten() returns (retry: RunCheck, stop: StopOutcome)
    ensures retry == DuplicateTask
    ensures stop == NilProcess
  {
    var s := new Server();
    var check := s.CheckRun("youtube", "https://a", "t");
    var started := s.StartProcess("t", 1, false);
    retry := s.CheckRun("youtube", "https://a", "t");
    stop := s.Stop("t", _ => true, f => f, None, _ => true, _ => true);
  }

  /**
   * When a failed start unregisters its command, the task id can be used
   * again, and a stop finds no task instead of panicking.
   */
  method SpawnFailureReleased() returns (retry: RunCheck, stop: StopOutcome)
    ensures retry == Accepted
    ensures stop == UnknownTask
  {
    var s := new Server();
    var check := s.CheckRun("youtube", "https://a", "t");
    var started := s.StartProcessReleasing("t", 1, false);
    retry := s.CheckRun("youtube", "https://a", "t");
    stop := s.Stop("t", _ => true, f => f, None, _ => true, _ => true);
  }
}
