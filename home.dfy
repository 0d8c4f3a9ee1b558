/** The home page: which session is open, appending files to it, choosing
    the record each selected file uploads into, and the in-flight id set
    that guards retry and cancel. */
module Home {
  import opened Results
  import opened FileHelpers
  import opened UploadModel
  import opened UploadSimulator
  import opened UploadService

  /** What `currentSession` holds. The service hands out shallow copies
      (own totals, but record objects shared with the store) and, from a
      progress callback or a cancel, the store's own session object. */
  datatype OpenSession =
    | NoSession
    | Live(sessionId: int)
    | Copy(snapshot: Session)

  /** An upload the page has started and not yet settled: the start of
      `uploadService.uploadFile` ran (`begun`) or threw a lookup error. */
  datatype UploadTask = UploadTask(sessionId: int, fileId: string, file: FileInfo, begun: bool)

  function TaskIds(tasks: seq<UploadTask>): set<string>
  {
    set t | t in tasks :: t.fileId
  }

  // ---------------------------------------------------------------------
  // Appending to the open session

  /** The append branch of `handleFilesSelected`: fresh records after the
      existing ones, `totalFiles` and `totalSize` bumped. */
  function AppendFiles(s: Session, files: seq<FileInfo>, ids: seq<string>, now: int): (t: Session)
    requires |ids| == |files|
    ensures t.Id == s.Id && |t.files| == |s.files| + |files| && t.files[..|s.files|] == s.files
    ensures t.completedFiles == s.completedFiles && t.uploadedSize == s.uploadedSize
  {
    s.(files := s.files + NewRecords(ids, files, now),
       totalFiles := s.totalFiles + |files|,
       totalSize := s.totalSize + TotalSize(files))
  }

  /** The existing records stay first and in order, one pending, empty
      record per selected file follows, the two totals grow by the count and
      the bytes selected, and `completedFiles` and `uploadedSize` are left
      alone. */
  lemma AppendFilesShape(s: Session, files: seq<FileInfo>, ids: seq<string>, now: int)
    requires |ids| == |files|
    ensures var t := AppendFiles(s, files, ids, now);
            && t.Id == s.Id && |t.files| == |s.files| + |files| && t.files[..|s.files|] == s.files
            && t.totalFiles == s.totalFiles + |files| && t.totalSize == s.totalSize + TotalSize(files)
            && t.completedFiles == s.completedFiles && t.uploadedSize == s.uploadedSize
            && forall k :: 0 <= k < |files| ==>
                 var r := t.files[|s.files| + k];
                 && r.id == ids[k] && r.name == files[k].name && r.size == files[k].size
                 && r.status == Pending && r.uploadProgress == 0 && r.uploadSpeed == 0.0
                 && r.url == None && r.thumbnail == None && r.errorMessage == None
  {
    var t := AppendFiles(s, files, ids, now);
    forall k | 0 <= k < |files|
      ensures t.files[|s.files| + k] == NewRecord(ids[k], files[k], now)
    {
      NewRecordsAt(ids, files, now, k);
    }
  }

  /** Appending keeps the data-model invariant, and a session whose
      aggregates agreed with its records still does. */
  lemma AppendFilesKeepsConsistent(s: Session, files: seq<FileInfo>, ids: seq<string>, now: int)
    requires |ids| == |files| && Consistent(s)
    ensures Consistent(AppendFiles(s, files, ids, now))
    ensures Settled(s) ==> Settled(AppendFiles(s, files, ids, now))
  {
    var added := NewRecords(ids, files, now);
    NewRecordsAggregates(ids, files, now);
    SumSizesAppend(s.files, added);
    CountSuccessAppend(s.files, added);
    WeightedProgressAppend(s.files, added);
    var t := AppendFiles(s, files, ids, now);
    UploadedWithinTotal(t.files);
  }

  // ---------------------------------------------------------------------
  // What the page sees

  /** The records of the store's session with the id, if there is one. */
  function StoreFiles(sessions: seq<Session>, sessionId: int): seq<FileRecord>
  {
    match FindSession(sessions, sessionId)
    case None => []
    case Some(i) => sessions[i].files
  }

  /** A record held by a copy is the store's object, so it shows the
      store's current state; a record the store does not have shows itself. */
  function Refresh(local: seq<FileRecord>, storeFiles: seq<FileRecord>): (view: seq<FileRecord>)
    ensures |view| == |local|
    ensures forall k :: 0 <= k < |local| ==> view[k].id == local[k].id
    ensures forall k :: 0 <= k < |local| && FindRecord(storeFiles, local[k].id).None? ==> view[k] == local[k]
    ensures forall k :: 0 <= k < |local| && FindRecord(storeFiles, local[k].id).Some? ==>
              view[k] == storeFiles[FindRecord(storeFiles, local[k].id).value]
  {
    seq(|local|, k requires 0 <= k < |local| =>
      match FindRecord(storeFiles, local[k].id)
      case None => local[k]
      case Some(m) => storeFiles[m])
  }

  /** `files.find(f => f.name === name && f.status === "pending")`. */
  function PickRecord(view: seq<FileRecord>, name: string): (r: Option<nat>)
    ensures r.Some? ==> && r.value < |view| && view[r.value].name == name && view[r.value].status == Pending
                        && forall k :: 0 <= k < r.value ==> !(view[k].name == name && view[k].status == Pending)
    ensures r.None? <==> forall k :: 0 <= k < |view| ==> !(view[k].name == name && view[k].status == Pending)
  {
    if view == [] then None
    else if view[0].name == name && view[0].status == Pending then Some(0)
    else match PickRecord(view[1..], name)
      case None => None
      case Some(k) => Some(k + 1)
  }

  // ---------------------------------------------------------------------
  // The upload loop of `handleFilesSelected`

  /** The start of `uploadService.uploadFile` on the store's value. */
  function BeginIn(sessions: seq<Session>, sessionId: int, fileId: string): (seq<Session>, bool)
  {
    match Locate(sessions, sessionId, fileId)
    case Err(_) => (sessions, false)
    case Ok((i, j)) => (sessions[i := MarkUploading(sessions[i], j)], true)
  }

  /** One selected file: it picks the first pending record of its name in
      the page's view and starts an upload into it, unless the record's id
      was in the in-flight set as it stood when the handler began. At most
      one task results. */
  function StartOne(sessions: seq<Session>, sessionId: int, local: seq<FileRecord>,
                    file: FileInfo, stale: set<string>): (r: (seq<Session>, seq<UploadTask>))
    ensures |r.0| == |sessions| && |r.1| <= 1
  {
    var view := Refresh(local, StoreFiles(sessions, sessionId));
    match PickRecord(view, file.name)
    case None => (sessions, [])
    case Some(j) =>
      if view[j].id in stale then (sessions, [])
      else
        var (after, begun) := BeginIn(sessions, sessionId, view[j].id);
        (after, [UploadTask(sessionId, view[j].id, file, begun)])
  }

  /** The selected files in order, each through `StartOne`. */
  function StartUploads(sessions: seq<Session>, sessionId: int, local: seq<FileRecord>,
                        files: seq<FileInfo>, stale: set<string>): (r: (seq<Session>, seq<UploadTask>))
    ensures |r.0| == |sessions| && |r.1| <= |files|
    decreases |files|
  {
    if files == [] then (sessions, [])
    else
      var (before, tasks) := StartUploads(sessions, sessionId, local, files[..|files| - 1], stale);
      var (after, started) := StartOne(before, sessionId, local, files[|files| - 1], stale);
      (after, tasks + started)
  }

  /** Two stores with the same session ids and record ids, position by position. */
  predicate SameIds(a: seq<Session>, b: seq<Session>)
  {
    && |a| == |b|
    && (forall i :: 0 <= i < |a| ==> a[i].Id == b[i].Id && |a[i].files| == |b[i].files|)
    && forall i, k :: 0 <= i < |a| && 0 <= k < |a[i].files| ==> a[i].files[k].id == b[i].files[k].id
  }

  /** The lookups of the service give the same answer on stores with the same ids. */
  lemma LocateByIds(a: seq<Session>, b: seq<Session>, sessionId: int, fileId: string)
    requires SameIds(a, b)
    ensures Locate(a, sessionId, fileId) == Locate(b, sessionId, fileId)
  {
    FindSessionByIds(a, b, sessionId);
    match FindSession(a, sessionId)
    case None =>
    case Some(i) => FindRecordByIds(a[i].files, b[i].files, fileId);
  }

  /** Starting an upload flips at most one status: ids and the invariant of
      every session stay, and it gets past the lookups exactly when `Locate`
      finds the record. */
  lemma BeginInFacts(sessions: seq<Session>, sessionId: int, fileId: string)
    requires forall i :: 0 <= i < |sessions| ==> Consistent(sessions[i])
    ensures var (after, begun) := BeginIn(sessions, sessionId, fileId);
            && SameIds(sessions, after)
            && (forall i :: 0 <= i < |after| ==> Consistent(after[i]))
            && (begun <==> Locate(sessions, sessionId, fileId).Ok?)
  {
    match Locate(sessions, sessionId, fileId)
    case Err(_) =>
    case Ok((i, k)) =>
      MarkUploadingKeepsConsistent(sessions[i], k);
      var after := sessions[i := MarkUploading(sessions[i], k)];
      forall n | 0 <= n < |after| ensures Consistent(after[n]) && after[n].Id == sessions[n].Id
      {
        if n != i {
          assert after[n] == sessions[n];
        }
      }
  }

  /** One file's step changes at most one status: ids and the invariant
      of every session stay. A task results exactly when the view has a
      pending record of the file's name whose id was not in flight, and it
      is for the first such record; it got past the service's lookups
      exactly when the store's session has that record. */
  lemma StartOneFacts(sessions: seq<Session>, sessionId: int, local: seq<FileRecord>,
                      file: FileInfo, stale: set<string>)
    requires forall i :: 0 <= i < |sessions| ==> Consistent(sessions[i])
    ensures var (after, started) := StartOne(sessions, sessionId, local, file, stale);
            && SameIds(sessions, after)
            && (forall i :: 0 <= i < |after| ==> Consistent(after[i]))
            && |started| <= 1
            && forall t :: t in started ==>
                 && t.fileId !in stale && t.sessionId == sessionId && t.file == file
                 && (t.begun <==> Locate(sessions, sessionId, t.fileId).Ok?)
    ensures var view := Refresh(local, StoreFiles(sessions, sessionId));
            var pick := PickRecord(view, file.name);
            var started := StartOne(sessions, sessionId, local, file, stale).1;
            && (started != [] <==> pick.Some? && view[pick.value].id !in stale)
            && (started != [] ==> started[0].fileId == view[pick.value].id)
  {
    var view := Refresh(local, StoreFiles(sessions, sessionId));
    match PickRecord(view, file.name)
    case None =>
    case Some(j) =>
      if view[j].id !in stale {
        BeginInFacts(sessions, sessionId, view[j].id);
      }
  }

  /** The upload loop only flips statuses to "uploading"; no upload starts
      for a record already in flight when the handler began; every started
      upload is into the open session, for one of the selected files, at
      most one per file; and an upload gets past the service's lookups
      exactly when the store's session has a record with that id, so a
      record that exists only in the page's copy is never uploaded. */
  lemma {:induction false} StartUploadsFacts(sessions: seq<Session>, sessionId: int, local: seq<FileRecord>,
                                             files: seq<FileInfo>, stale: set<string>)
    requires forall i :: 0 <= i < |sessions| ==> Consistent(sessions[i])
    ensures var (final, tasks) := StartUploads(sessions, sessionId, local, files, stale);
            && SameIds(sessions, final)
            && (forall i :: 0 <= i < |final| ==> Consistent(final[i]))
            && |tasks| <= |files|
            && forall t :: t in tasks ==>
                 && t.fileId !in stale && t.sessionId == sessionId && t.file in files
                 && (t.begun <==> Locate(sessions, sessionId, t.fileId).Ok?)
    decreases |files|
  {
    if files != [] {
      var init := files[..|files| - 1];
      StartUploadsFacts(sessions, sessionId, local, init, stale);
      var (before, tasks) := StartUploads(sessions, sessionId, local, init, stale);
      StartOneFacts(before, sessionId, local, files[|files| - 1], stale);
      var started := StartOne(before, sessionId, local, files[|files| - 1], stale).1;
      forall t | t in started
        ensures Locate(before, sessionId, t.fileId) == Locate(sessions, sessionId, t.fileId)
      {
        LocateByIds(sessions, before, sessionId, t.fileId);
      }
      assert forall f :: f in init ==> f in files;
    }
  }

  // ---------------------------------------------------------------------
  // The page

  class HomePage {
    const store: UploadStore
    var current: OpenSession
    /** `uploadingFiles`: ids of the records with an upload or retry in flight. */
    var uploadingFiles: set<string>

    /** The store keeps its invariant and a live session is one of the store's. */
    ghost predicate Valid()
      reads this, store
    {
      && store.Valid()
      && (current.Live? ==> FindSession(store.sessions, current.sessionId).Some?)
    }

    /** `currentSession.Id`. */
    function OpenId(): int
      requires !current.NoSession?
      reads this
    {
      match current
      case Live(id) => id
      case Copy(s) => s.Id
    }

    /** `currentSession.files` as the page reads it. */
    function ViewFiles(): seq<FileRecord>
      reads this, store
    {
      match current
      case NoSession => []
      case Live(id) => StoreFiles(store.sessions, id)
      case Copy(s) => Refresh(s.files, StoreFiles(store.sessions, s.Id))
    }

    constructor (store: UploadStore)
      requires store.Valid()
      ensures Valid() && this.store == store
      ensures current == NoSession && uploadingFiles == {}
    {
      this.store := store;
      current := NoSession;
      uploadingFiles := {};
    }

    /** The mount effect: the most recent session, as a copy, if there is any. */
    method Mount()
      requires Valid()
      modifies this
      ensures Valid() && uploadingFiles == old(uploadingFiles)
      ensures current == if store.sessions == [] then old(current) else Copy(store.sessions[0])
    {
      var all := store.GetAllSessions();
      if |all| > 0 {
        current := Copy(all[0]);
      }
    }

    /** `handleFilesSelected`: with no open session a new one is created;
        otherwise the files are appended to the open session object (the
        store's own when live, the page's copy otherwise). Then the upload
        loop starts an upload per selected file; each started upload is settled later
        by `SettleUpload`. */
    method HandleFilesSelected(files: seq<FileInfo>, ids: seq<string>, now: int) returns (tasks: seq<UploadTask>)
      requires Valid() && |ids| == |files|
      modifies this, store
      ensures Valid()
      ensures uploadingFiles == old(uploadingFiles) + TaskIds(tasks)
      ensures old(current).NoSession? ==>
                var created := NewSession(old(store.nextId), files, ids, now);
                && current == Copy(created) && store.nextId == old(store.nextId) + 1
                && (store.sessions, tasks)
                   == StartUploads([created] + old(store.sessions), created.Id, created.files, files, old(uploadingFiles))
      ensures old(current).Copy? ==>
                var appended := AppendFiles(old(current).snapshot, files, ids, now);
                && current == Copy(appended) && store.nextId == old(store.nextId)
                && (store.sessions, tasks)
                   == StartUploads(old(store.sessions), appended.Id, appended.files, files, old(uploadingFiles))
      ensures old(current).Live? ==>
                var i := FindSession(old(store.sessions), old(current).sessionId).value;
                var appended := AppendFiles(old(store.sessions)[i], files, ids, now);
                && current == Copy(appended) && store.nextId == old(store.nextId)
                && (store.sessions, tasks)
                   == StartUploads(old(store.sessions)[i := appended], appended.Id, appended.files, files, old(uploadingFiles))
    {
      var stale := uploadingFiles;
      var session: Session;
      match current {
        case NoSession =>
          session := store.CreateUploadSession(files, ids, now);
        case Copy(s) =>
          session := AppendFiles(s, files, ids, now);
        case Live(id) =>
          var i := FindSession(store.sessions, id).value;
          assert Stored(store.sessions[i], store.nextId);
          AppendFilesKeepsConsistent(store.sessions[i], files, ids, now);
          session := AppendFiles(store.sessions[i], files, ids, now);
          ReplaceStored(store.sessions, store.nextId, i, session);
          store.sessions := store.sessions[i := session];
      }
      current := Copy(session);
      tasks := RunUploadLoop(session, files, stale);
    }

    /** The `files.forEach` of `handleFilesSelected` over the open session
        object `session`, with the in-flight set `stale` that the handler
        captured when it began. */
    method RunUploadLoop(session: Session, files: seq<FileInfo>, stale: set<string>) returns (tasks: seq<UploadTask>)
      requires store.Valid() && uploadingFiles == stale
      modifies this`uploadingFiles, store
      ensures store.Valid() && store.nextId == old(store.nextId)
      ensures uploadingFiles == stale + TaskIds(tasks)
      ensures (store.sessions, tasks) == StartUploads(old(store.sessions), session.Id, session.files, files, stale)
    {
      ghost var start := store.sessions;
      tasks := [];
      var k := 0;
      while k < |files|
        invariant 0 <= k <= |files|
        invariant store.Valid() && store.nextId == old(store.nextId)
        invariant uploadingFiles == stale + TaskIds(tasks)
        invariant (store.sessions, tasks) == StartUploads(start, session.Id, session.files, files[..k], stale)
      {
        assert files[..k + 1][..k] == files[..k];
        var started := StartUpload(session, files[k], stale);
        assert TaskIds(tasks + started) == TaskIds(tasks) + TaskIds(started);
        tasks := tasks + started;
        k := k + 1;
      }
      assert files[..k] == files;
    }

    /** The body of that `forEach` for one file: the pick, the guard, the
        id added to the in-flight set, and the start of the service's upload. */
    method StartUpload(session: Session, file: FileInfo, stale: set<string>) returns (started: seq<UploadTask>)
      requires store.Valid()
      modifies this`uploadingFiles, store
      ensures store.Valid() && store.nextId == old(store.nextId)
      ensures uploadingFiles == old(uploadingFiles) + TaskIds(started)
      ensures (store.sessions, started) == StartOne(old(store.sessions), session.Id, session.files, file, stale)
    {
      var view := Refresh(session.files, StoreFiles(store.sessions, session.Id));
      var pick := PickRecord(view, file.name);
      if pick.None? || view[pick.value].id in stale {
        return [];
      }
      var fileId := view[pick.value].id;
      uploadingFiles := uploadingFiles + {fileId};
      var begun := store.BeginUpload(session.Id, fileId);
      started := [UploadTask(session.Id, fileId, file, begun.Ok?)];
      assert TaskIds(started) == {fileId};
    }

    /** The page's `uploadFile` wrapper, after the start: the continuation of
        the service's upload runs; its progress callbacks make the store's
        session the open one; whether it succeeds or fails, the id leaves the
        in-flight set. `failed` is when the page reports the failure. */
    method SettleUpload(task: UploadTask, encodedThumbnail: string, failureDraw: nat -> bool,
                        generatedId: string, encodeURIComponent: string -> string)
      returns (events: seq<ProgressEvent>, failed: bool)
      requires Valid()
      modifies this, store
      ensures Valid() && store.nextId == old(store.nextId)
      ensures uploadingFiles == old(uploadingFiles) - {task.fileId}
      ensures !task.begun ==> failed && events == [] && store.sessions == old(store.sessions) && current == old(current)
      ensures task.begun ==> (!failed <==> forall k :: 0 <= k < ChunkCount(task.file.size) - 1 ==> !failureDraw(k))
      ensures task.begun ==>
                var si := FindSession(old(store.sessions), task.sessionId);
                && (si.None? ==> store.sessions == old(store.sessions) && current == old(current))
                && (si.Some? ==>
                      && current == Live(task.sessionId)
                      && store.sessions == old(store.sessions)[si.value := Completed(old(store.sessions)[si.value],
                           task.fileId, GenerateThumbnail(task.file, encodedThumbnail), events,
                           if failed then Err(NetworkErrorMessage)
                           else Ok(MockUrl(generatedId, encodeURIComponent(task.file.name))))])
    {
      events := [];
      failed := true;
      if task.begun {
        var si := FindSession(store.sessions, task.sessionId);
        ghost var before := store.sessions;
        var r;
        events, r := store.CompleteUpload(task.sessionId, task.fileId, task.file, encodedThumbnail,
                                          failureDraw, generatedId, encodeURIComponent);
        failed := r.Err?;
        ghost var outcome: Result<string, string> :=
          if failed then Err(NetworkErrorMessage) else Ok(MockUrl(generatedId, encodeURIComponent(task.file.name)));
        assert outcome == if r.Ok? then Ok(r.value) else Err(NetworkErrorMessage);
        if si.Some? {
          ghost var i := si.value;
          assert store.sessions[i].Id == task.sessionId;
          current := Live(task.sessionId);
        }
      }
      uploadingFiles := uploadingFiles - {task.fileId};
    }

    /** `handleRetryFile`: skipped with no open session, an id the page does
        not show, or an id already in flight; otherwise the id is in flight
        for the duration of `retryUpload`, which resets the record and
        fails. Returns the service's answer when it was called. */
    method HandleRetryFile(fileId: string) returns (r: Option<Result<FileRecord, ServiceError>>)
      requires Valid()
      modifies this, store
      ensures Valid() && store.nextId == old(store.nextId)
      ensures current == old(current) && uploadingFiles == old(uploadingFiles)
      ensures old(current).NoSession? || FindRecord(old(ViewFiles()), fileId).None? || fileId in old(uploadingFiles) ==>
                r == None && store.sessions == old(store.sessions)
      ensures !(old(current).NoSession? || FindRecord(old(ViewFiles()), fileId).None? || fileId in old(uploadingFiles)) ==>
                var loc := Locate(old(store.sessions), old(OpenId()), fileId);
                && r.Some? && r.value.Err?
                && (loc.Err? ==> r.value.error == loc.error && store.sessions == old(store.sessions))
                && (loc.Ok? ==> r.value.error == RetryDelegationFailed
                                && store.sessions == old(store.sessions)[loc.value.0 :=
                                     ResetForRetry(old(store.sessions)[loc.value.0], loc.value.1)])
    {
      if current.NoSession? {
        return None;
      }
      var record := FindRecord(ViewFiles(), fileId);
      if record.None? || fileId in uploadingFiles {
        return None;
      }
      ghost var before := store.sessions;
      uploadingFiles := uploadingFiles + {fileId};
      var retried := store.RetryUpload(OpenId(), fileId);
      r := Some(retried);
      uploadingFiles := uploadingFiles - {fileId};
      if current.Live? {
        FindSessionByIds(before, store.sessions, current.sessionId);
      }
    }

    /** `handleCancelFile`: skipped with no open session; on success the
        store's session becomes the open one and the id leaves the in-flight
        set; on failure nothing changes. */
    method HandleCancelFile(fileId: string) returns (r: Option<Result<Session, ServiceError>>)
      requires Valid()
      modifies this, store
      ensures Valid() && store.nextId == old(store.nextId)
      ensures old(current).NoSession? ==>
                r == None && store.sessions == old(store.sessions)
                && current == old(current) && uploadingFiles == old(uploadingFiles)
      ensures !old(current).NoSession? ==>
                var loc := Locate(old(store.sessions), old(OpenId()), fileId);
                && (loc.Err? ==> r == Some(Err(loc.error)) && store.sessions == old(store.sessions)
                                 && current == old(current) && uploadingFiles == old(uploadingFiles))
                && (loc.Ok? ==> store.sessions == old(store.sessions)[loc.value.0 :=
                                   RemoveRecord(old(store.sessions)[loc.value.0], loc.value.1)]
                                && r == Some(Ok(store.sessions[loc.value.0]))
                                && current == Live(old(OpenId()))
                                && uploadingFiles == old(uploadingFiles) - {fileId})
    {
      if current.NoSession? {
        return None;
      }
      var sessionId := OpenId();
      var loc := Locate(store.sessions, sessionId, fileId);
      var cancelled := store.CancelUpload(sessionId, fileId);
      r := Some(cancelled);
      if cancelled.Ok? {
        LocateErrors(old(store.sessions), sessionId, fileId);
        current := Live(sessionId);
        uploadingFiles := uploadingFiles - {fileId};
      }
    }
  }
}
