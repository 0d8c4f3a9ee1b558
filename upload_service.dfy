/** `uploadService`: the module-level list of sessions and the id counter,
    with the operations that look sessions and records up by id and update
    them in place. */
module UploadService {
  import opened Results
  import opened FileHelpers
  import opened UploadModel
  import opened UploadSimulator

  /** The errors the service throws. `RetryDelegationFailed` is the
      TypeError of `this.uploadFile` when `this` is undefined. */
  datatype ServiceError = SessionNotFound | FileNotFound | NetworkError | RetryDelegationFailed

  function ErrorMessage(e: ServiceError): string
  {
    match e
    case SessionNotFound => "Session not found"
    case FileNotFound => "File not found"
    case NetworkError => NetworkErrorMessage
    case RetryDelegationFailed => "Cannot read properties of undefined (reading 'uploadFile')"
  }

  // ---------------------------------------------------------------------
  // Lookups

  /** `sessions.findIndex(s => s.Id === id)`, -1 being None. */
  function FindSession(sessions: seq<Session>, id: int): (r: Option<nat>)
    ensures r.Some? ==> r.value < |sessions| && sessions[r.value].Id == id
                        && forall i :: 0 <= i < r.value ==> sessions[i].Id != id
    ensures r.None? <==> forall i :: 0 <= i < |sessions| ==> sessions[i].Id != id
  {
    if sessions == [] then None
    else if sessions[0].Id == id then Some(0)
    else match FindSession(sessions[1..], id)
      case None => None
      case Some(i) => Some(i + 1)
  }

  /** `files.findIndex(f => f.id === fileId)`, -1 being None. */
  function FindRecord(records: seq<FileRecord>, fileId: string): (r: Option<nat>)
    ensures r.Some? ==> r.value < |records| && records[r.value].id == fileId
                        && forall i :: 0 <= i < r.value ==> records[i].id != fileId
    ensures r.None? <==> forall i :: 0 <= i < |records| ==> records[i].id != fileId
  {
    if records == [] then None
    else if records[0].id == fileId then Some(0)
    else match FindRecord(records[1..], fileId)
      case None => None
      case Some(i) => Some(i + 1)
  }

  /** The lookups depend on the ids alone. */
  lemma FindRecordByIds(a: seq<FileRecord>, b: seq<FileRecord>, fileId: string)
    requires |a| == |b| && forall i :: 0 <= i < |a| ==> a[i].id == b[i].id
    ensures FindRecord(a, fileId) == FindRecord(b, fileId)
  {
    if a != [] {
      FindRecordByIds(a[1..], b[1..], fileId);
    }
  }


  lemma FindSessionByIds(a: seq<Session>, b: seq<Session>, id: int)
    requires |a| == |b| && forall i :: 0 <= i < |a| ==> a[i].Id == b[i].Id
    ensures FindSession(a, id) == FindSession(b, id)
  {
    if a != [] {
      FindSessionByIds(a[1..], b[1..], id);
    }
  }


  /** The two lookups every record operation starts with, and the error
      each one throws. */
  function Locate(sessions: seq<Session>, sessionId: int, fileId: string): (r: Result<(nat, nat), ServiceError>)
    ensures r.Ok? ==> r.value.0 < |sessions| && r.value.1 < |sessions[r.value.0].files|
    ensures r.Err? ==> r.error == SessionNotFound || r.error == FileNotFound
  {
    match FindSession(sessions, sessionId)
    case None => Err(SessionNotFound)
    case Some(i) =>
      match FindRecord(sessions[i].files, fileId)
      case None => Err(FileNotFound)
      case Some(j) => Ok((i, j))
  }

  /** "Session not found" exactly when no session has the id; "File not
      found" exactly when the first such session has no record with the id;
      otherwise the located session and record carry the ids asked for. */
  lemma LocateErrors(sessions: seq<Session>, sessionId: int, fileId: string)
    ensures var r := Locate(sessions, sessionId, fileId);
            var si := FindSession(sessions, sessionId);
            && (r == Err(SessionNotFound) <==> forall i :: 0 <= i < |sessions| ==> sessions[i].Id != sessionId)
            && (r == Err(FileNotFound) <==>
                  si.Some? && forall j :: 0 <= j < |sessions[si.value].files| ==> sessions[si.value].files[j].id != fileId)
            && (r.Ok? ==> sessions[r.value.0].Id == sessionId && sessions[r.value.0].files[r.value.1].id == fileId)
  {
  }

  /** `Math.max(...sessions.map(s => s.Id))`. */
  function MaxId(sessions: seq<Session>): (m: int)
    requires sessions != []
    ensures forall i :: 0 <= i < |sessions| ==> sessions[i].Id <= m
    ensures exists i :: 0 <= i < |sessions| && sessions[i].Id == m
  {
    if |sessions| == 1 then sessions[0].Id
    else
      var rest := MaxId(sessions[1..]);
      assert forall i :: 1 <= i < |sessions| ==> sessions[i] == sessions[1..][i - 1];
      if sessions[0].Id >= rest then sessions[0].Id else rest
  }

  // ---------------------------------------------------------------------
  // What an upload leaves behind

  /** The session after the continuation of `uploadFile` (thumbnail,
      callbacks, then success or failure). When the record has been removed
      meanwhile, the callbacks still recompute `uploadedSize` over the
      remaining records and a success recomputes `completedFiles`. */
  function Completed(s: Session, fileId: string, thumbnail: Option<string>,
                     events: seq<ProgressEvent>, outcome: Result<string, string>): (t: Session)
    ensures t.Id == s.Id && |t.files| == |s.files|
  {
    match FindRecord(s.files, fileId)
    case None =>
      var t := if events == [] then s else s.(uploadedSize := UploadedSize(s.files));
      if outcome.Ok? then t.(completedFiles := CountSuccess(t.files)) else t
    case Some(j) =>
      var t := ApplyProgressAll(SetThumbnail(s, j, thumbnail), j, events);
      match outcome
      case Ok(url) => MarkSuccess(t, j, url)
      case Err(message) => MarkFailure(t, j, message)
  }

  /** An upload whose record has been removed meanwhile keeps the invariant
      and changes no record. */
  lemma CompletedMissingKeepsConsistent(s: Session, fileId: string, thumbnail: Option<string>,
                                        events: seq<ProgressEvent>, outcome: Result<string, string>)
    requires Consistent(s) && FindRecord(s.files, fileId).None?
    ensures var t := Completed(s, fileId, thumbnail, events, outcome);
            Consistent(t) && t.Id == s.Id && t.files == s.files
  {
    UploadedWithinTotal(s.files);
    CountSuccessAtMostLength(s.files);
  }

  /** An upload into record `j`: the record ends up "success" with its url
      and speed 0, or "error" with the message and speed 0; no other record
      changes and the invariant holds. */
  lemma CompletedFoundKeepsConsistent(s: Session, j: nat, fileId: string, thumbnail: Option<string>,
                                      events: seq<ProgressEvent>, outcome: Result<string, string>)
    requires Consistent(s) && FindRecord(s.files, fileId) == Some(j)
    requires forall k :: 0 <= k < |events| ==> 0 <= events[k].progress <= 100
    ensures var t := Completed(s, fileId, thumbnail, events, outcome);
            && Consistent(t) && t.Id == s.Id && |t.files| == |s.files|
            && t.files[j].id == fileId
            && (forall i :: 0 <= i < |s.files| && i != j ==> t.files[i] == s.files[i])
            && (outcome.Ok? ==> t.files[j].status == Success && t.files[j].url == Some(outcome.value)
                                && t.files[j].uploadSpeed == 0.0 && t.completedFiles == CountSuccess(t.files))
            && (outcome.Err? ==> t.files[j].status == Error && t.files[j].errorMessage == Some(outcome.error)
                                 && t.files[j].uploadSpeed == 0.0)
            && (events != [] && outcome.Ok? ==> Settled(t))
  {
    SetThumbnailKeepsConsistent(s, j, thumbnail);
    var s1 := SetThumbnail(s, j, thumbnail);
    ApplyProgressAllKeepsConsistent(s1, j, events);
    var s2 := ApplyProgressAll(s1, j, events);
    assert s2.files[j].id == fileId;
    match outcome
    case Ok(url) => MarkSuccessKeepsConsistent(s2, j, url);
    case Err(message) => MarkFailureKeepsConsistent(s2, j, message);
  }

  /** An upload keeps the invariant and every record id, changes no record
      but its own, and does not bring a removed record back. */
  lemma CompletedKeepsConsistent(s: Session, fileId: string, thumbnail: Option<string>,
                                 events: seq<ProgressEvent>, outcome: Result<string, string>)
    requires Consistent(s)
    requires forall k :: 0 <= k < |events| ==> 0 <= events[k].progress <= 100
    ensures var t := Completed(s, fileId, thumbnail, events, outcome);
            && Consistent(t) && t.Id == s.Id
            && |t.files| == |s.files|
            && (forall i :: 0 <= i < |s.files| ==> t.files[i].id == s.files[i].id)
            && (forall i :: 0 <= i < |s.files| && s.files[i].id != fileId ==> t.files[i] == s.files[i])
  {
    match FindRecord(s.files, fileId)
    case None => CompletedMissingKeepsConsistent(s, fileId, thumbnail, events, outcome);
    case Some(j) => CompletedFoundKeepsConsistent(s, j, fileId, thumbnail, events, outcome);
  }

  /** When both lookups succeed, `uploadFile` leaves the record with the
      thumbnail and the last callback's progress and speed; success then
      marks it "success" with its url and speed 0 and leaves the whole
      session settled (both aggregates freshly recomputed), failure marks it
      "error" with the network message. Every other record is unchanged. */
  lemma UploadFileOutcome(s: Session, j: nat, fileId: string, thumbnail: Option<string>,
                          events: seq<ProgressEvent>, outcome: Result<string, string>)
    requires Consistent(s) && FindRecord(s.files, fileId) == Some(j)
    requires events != [] && forall k :: 0 <= k < |events| ==> 0 <= events[k].progress <= 100
    ensures var t := Completed(MarkUploading(s, j), fileId, thumbnail, events, outcome);
            var last := events[|events| - 1];
            && Consistent(t) && t.Id == s.Id && |t.files| == |s.files|
            && (forall i :: 0 <= i < |s.files| && i != j ==> t.files[i] == s.files[i])
            && t.files[j].id == fileId && t.files[j].thumbnail == thumbnail
            && t.files[j].uploadProgress == last.progress
            && (outcome.Ok? ==> t.files[j].status == Success && t.files[j].url == Some(outcome.value)
                                && t.files[j].uploadSpeed == 0.0 && Settled(t))
            && (outcome.Err? ==> t.files[j].status == Error && t.files[j].errorMessage == Some(outcome.error)
                                 && t.files[j].uploadSpeed == 0.0 && t.uploadedSize == UploadedSize(t.files))
  {
    MarkUploadingKeepsConsistent(s, j);
    var s0 := MarkUploading(s, j);
    FindRecordByIds(s.files, s0.files, fileId);
    CompletedFoundKeepsConsistent(s0, j, fileId, thumbnail, events, outcome);
    var s1 := SetThumbnail(s0, j, thumbnail);
    LastCallbackWins(s1, j, events);
    var s2 := ApplyProgressAll(s1, j, events);
    assert s2.files[j].thumbnail == thumbnail && s2.files[j].uploadProgress == events[|events| - 1].progress;
    if outcome.Err? {
      AggregatesAfterUpdate(s2.files, j, MarkFailure(s2, j, outcome.error).files[j]);
    }
  }

  /** The progress callback of `uploadFile` run for each event in turn:
      the record's progress and speed, then `uploadedSize` recomputed. */
  method ReplayCallbacks(s: Session, j: nat, events: seq<ProgressEvent>) returns (t: Session)
    requires j < |s.files|
    ensures t == ApplyProgressAll(s, j, events)
  {
    t := s;
    var k := 0;
    while k < |events|
      invariant 0 <= k <= |events|
      invariant t == ApplyProgressAll(s, j, events[..k])
    {
      assert events[..k + 1][..k] == events[..k];
      var files := t.files[j := t.files[j].(uploadProgress := events[k].progress, uploadSpeed := events[k].speed)];
      t := t.(files := files, uploadedSize := UploadedSize(files));
      k := k + 1;
    }
    assert events[..k] == events;
  }

  // ---------------------------------------------------------------------
  // The store

  /** A stored session: its id was handed out and it keeps the invariant. */
  predicate Stored(s: Session, nextId: int)
  {
    s.Id < nextId && Consistent(s)
  }

  /** The store invariant over a list of sessions and the counter. */
  ghost predicate AllStored(sessions: seq<Session>, nextId: int)
  {
    forall i {:trigger Stored(sessions[i], nextId)} :: 0 <= i < |sessions| ==> Stored(sessions[i], nextId)
  }

  /** Writing back one session that keeps the invariant keeps the store's. */
  lemma ReplaceStored(sessions: seq<Session>, nextId: int, i: nat, t: Session)
    requires AllStored(sessions, nextId) && i < |sessions| && Stored(t, nextId)
    ensures AllStored(sessions[i := t], nextId)
  {
    var u := sessions[i := t];
    forall k | 0 <= k < |u| ensures Stored(u[k], nextId) {
      if k != i {
        assert Stored(sessions[k], nextId);
      }
    }
  }

  /** A new session under the counter's value goes in front as the counter moves on. */
  lemma PrependStored(sessions: seq<Session>, nextId: int, s: Session)
    requires AllStored(sessions, nextId) && s.Id == nextId && Consistent(s)
    ensures AllStored([s] + sessions, nextId + 1)
    ensures forall i :: 0 <= i < |sessions| ==> sessions[i].Id < s.Id
  {
    forall k | 0 <= k < |sessions| ensures sessions[k].Id < s.Id {
      assert Stored(sessions[k], nextId);
    }
    forall k | 0 <= k < |sessions| + 1 ensures Stored(([s] + sessions)[k], nextId + 1) {
      if k > 0 {
        assert Stored(sessions[k - 1], nextId);
      }
    }
  }

  /** Removing a session keeps the store invariant. */
  lemma RemoveStored(sessions: seq<Session>, nextId: int, i: nat)
    requires AllStored(sessions, nextId) && i < |sessions|
    ensures AllStored(sessions[..i] + sessions[i + 1..], nextId)
  {
    var rest := sessions[..i] + sessions[i + 1..];
    forall k | 0 <= k < |rest| ensures Stored(rest[k], nextId) {
      if k < i {
        assert rest[k] == sessions[k] && Stored(sessions[k], nextId);
      } else {
        assert rest[k] == sessions[k + 1] && Stored(sessions[k + 1], nextId);
      }
    }
  }

  class UploadStore {
    /** `uploadSessions`, most recent first. */
    var sessions: seq<Session>
    /** `currentSessionId`, the next id to hand out. */
    var nextId: int

    /** Every id handed out is below the counter and every session keeps
        the data-model invariant. */
    ghost predicate Valid()
      reads this
    {
      AllStored(sessions, nextId)
    }

    /** Module initialisation: the seed sessions and `Math.max(...ids) + 1`. */
    constructor (seed: seq<Session>)
      requires seed != []
      requires forall i :: 0 <= i < |seed| ==> Consistent(seed[i])
      ensures Valid()
      ensures sessions == seed && nextId == MaxId(seed) + 1
    {
      sessions := seed;
      nextId := MaxId(seed) + 1;
      forall k | 0 <= k < |seed| ensures Stored(seed[k], MaxId(seed) + 1) {
      }
    }

    /** `createUploadSession`: a new session with one pending record per
        file goes to the front of the list, under an id above every id
        handed out before. */
    method CreateUploadSession(files: seq<FileInfo>, ids: seq<string>, now: int) returns (session: Session)
      requires Valid() && |ids| == |files|
      modifies this
      ensures Valid()
      ensures session == NewSession(old(nextId), files, ids, now)
      ensures sessions == [session] + old(sessions)
      ensures nextId == old(nextId) + 1
      ensures forall i :: 0 <= i < |old(sessions)| ==> old(sessions)[i].Id < session.Id
    {
      session := NewSession(nextId, files, ids, now);
      NewSessionShape(session.Id, files, ids, now);
      PrependStored(sessions, nextId, session);
      nextId := nextId + 1;
      sessions := [session] + sessions;
    }

    /** The synchronous start of `uploadFile`: both lookups, then the status
        becomes "uploading" whatever it was. On a lookup error nothing changes. */
    method BeginUpload(sessionId: int, fileId: string) returns (r: Result<(), ServiceError>)
      requires Valid()
      modifies this
      ensures Valid() && nextId == old(nextId)
      ensures var loc := Locate(old(sessions), sessionId, fileId);
              loc.Err? ==> r == Err(loc.error) && sessions == old(sessions)
      ensures var loc := Locate(old(sessions), sessionId, fileId);
              loc.Ok? ==> r == Ok(()) && sessions == old(sessions)[loc.value.0 := MarkUploading(old(sessions)[loc.value.0], loc.value.1)]
    {
      var loc := Locate(sessions, sessionId, fileId);
      if loc.Err? {
        return Err(loc.error);
      }
      var (i, j) := loc.value;
      assert Stored(sessions[i], nextId);
      MarkUploadingKeepsConsistent(sessions[i], j);
      ReplaceStored(sessions, nextId, i, MarkUploading(sessions[i], j));
      sessions := sessions[i := MarkUploading(sessions[i], j)];
      r := Ok(());
    }

    /** The asynchronous rest of `uploadFile`: thumbnail, the chunk loop whose
        every callback updates the record and `uploadedSize`, then success or
        failure. The session and record are looked up again, as the captured
        objects may have left the store meanwhile. Returns the callbacks made
        and the URL, or the network error. */
    method CompleteUpload(sessionId: int, fileId: string, file: FileInfo, encodedThumbnail: string,
                          failureDraw: nat -> bool, generatedId: string, encodeURIComponent: string -> string)
      returns (events: seq<ProgressEvent>, r: Result<string, ServiceError>)
      requires Valid()
      modifies this
      ensures Valid() && nextId == old(nextId)
      ensures 1 <= |events| <= ChunkCount(file.size)
      ensures forall k :: 0 <= k < |events| ==> events[k] == EventAt(file.size, k + 1)
      ensures r.Ok? <==> forall k :: 0 <= k < ChunkCount(file.size) - 1 ==> !failureDraw(k)
      ensures r.Ok? ==> r.value == MockUrl(generatedId, encodeURIComponent(file.name))
      ensures r.Err? ==> r.error == NetworkError
      ensures FindSession(old(sessions), sessionId).None? ==> sessions == old(sessions)
      ensures var si := FindSession(old(sessions), sessionId);
              si.Some? ==>
                sessions == old(sessions)[si.value := Completed(old(sessions)[si.value], fileId,
                  GenerateThumbnail(file, encodedThumbnail), events,
                  if r.Ok? then Ok(r.value) else Err(NetworkErrorMessage))]
    {
      var outcome;
      events, outcome := SimulateUpload(file, failureDraw, generatedId, encodeURIComponent);
      r := if outcome.Ok? then Ok(outcome.value) else Err(NetworkError);
      var si := FindSession(sessions, sessionId);
      if si.None? {
        return;
      }
      var i := si.value;
      var s := sessions[i];
      assert Stored(s, nextId);
      var thumbnail := GenerateThumbnail(file, encodedThumbnail);
      forall k | 0 <= k < |events| ensures 0 <= events[k].progress <= 100 {
        EventInRange(file.size, k + 1);
      }
      var t: Session;
      var fi := FindRecord(s.files, fileId);
      if fi.Some? {
        var j := fi.value;
        t := SetThumbnail(s, j, thumbnail);
        t := ReplayCallbacks(t, j, events);
        t := if outcome.Ok? then MarkSuccess(t, j, outcome.value) else MarkFailure(t, j, outcome.error);
        assert t == Completed(s, fileId, thumbnail, events, outcome);
      } else {
        t := Completed(s, fileId, thumbnail, events, outcome);
      }
      CompletedKeepsConsistent(s, fileId, thumbnail, events, outcome);
      assert outcome == if r.Ok? then Ok(r.value) else Err(NetworkErrorMessage);
      ReplaceStored(sessions, nextId, i, t);
      sessions := sessions[i := t];
    }

    /** `uploadFile` as one call: the start, then the continuation. It
        resolves to the store's own record, or rethrows the lookup or
        network error. */
    method UploadFile(sessionId: int, fileId: string, file: FileInfo, encodedThumbnail: string,
                      failureDraw: nat -> bool, generatedId: string, encodeURIComponent: string -> string)
      returns (events: seq<ProgressEvent>, r: Result<FileRecord, ServiceError>)
      requires Valid()
      modifies this
      ensures Valid() && nextId == old(nextId)
      ensures var loc := Locate(old(sessions), sessionId, fileId);
              loc.Err? ==> r == Err(loc.error) && sessions == old(sessions) && events == []
      ensures var loc := Locate(old(sessions), sessionId, fileId);
              loc.Ok? ==>
                && 1 <= |events| <= ChunkCount(file.size)
                && (forall k :: 0 <= k < |events| ==> events[k] == EventAt(file.size, k + 1))
                && (r.Ok? <==> forall k :: 0 <= k < ChunkCount(file.size) - 1 ==> !failureDraw(k))
                && (r.Err? ==> r.error == NetworkError)
                && sessions == old(sessions)[loc.value.0 :=
                     Completed(MarkUploading(old(sessions)[loc.value.0], loc.value.1), fileId,
                               GenerateThumbnail(file, encodedThumbnail), events,
                               if r.Ok? then Ok(MockUrl(generatedId, encodeURIComponent(file.name)))
                               else Err(NetworkErrorMessage))]
                && (r.Ok? ==> r.value == sessions[loc.value.0].files[loc.value.1])
    {
      var loc := Locate(sessions, sessionId, fileId);
      ghost var before := sessions;
      var begun := BeginUpload(sessionId, fileId);
      if begun.Err? {
        return [], Err(begun.error);
      }
      var i, j := loc.value.0, loc.value.1;
      ghost var mid := sessions;
      assert mid == before[i := MarkUploading(before[i], j)];
      FindSessionByIds(before, mid, sessionId);
      var url;
      events, url := CompleteUpload(sessionId, fileId, file, encodedThumbnail, failureDraw, generatedId, encodeURIComponent);
      ghost var outcome: Result<string, string> :=
        if url.Ok? then Ok(MockUrl(generatedId, encodeURIComponent(file.name))) else Err(NetworkErrorMessage);
      ghost var done := Completed(mid[i], fileId, GenerateThumbnail(file, encodedThumbnail), events, outcome);
      assert sessions == mid[i := done];
      assert mid[i := done] == before[i := done];
      if url.Err? {
        return events, Err(url.error);
      }
      r := Ok(sessions[i].files[j]);
    }

    /** `retryUpload` as written: after the lookups it resets the record to
        pending with progress 0, no error and speed 0, and then fails, since
        `this.uploadFile` is read on an undefined `this`. */
    method RetryUpload(sessionId: int, fileId: string) returns (r: Result<FileRecord, ServiceError>)
      requires Valid()
      modifies this
      ensures Valid() && nextId == old(nextId)
      ensures r.Err?
      ensures var loc := Locate(old(sessions), sessionId, fileId);
              loc.Err? ==> r == Err(loc.error) && sessions == old(sessions)
      ensures var loc := Locate(old(sessions), sessionId, fileId);
              loc.Ok? ==> r == Err(RetryDelegationFailed)
                          && sessions == old(sessions)[loc.value.0 := ResetForRetry(old(sessions)[loc.value.0], loc.value.1)]
    {
      var loc := Locate(sessions, sessionId, fileId);
      if loc.Err? {
        return Err(loc.error);
      }
      var (i, j) := loc.value;
      assert Stored(sessions[i], nextId);
      ResetForRetryKeepsConsistent(sessions[i], j);
      ReplaceStored(sessions, nextId, i, ResetForRetry(sessions[i], j));
      sessions := sessions[i := ResetForRetry(sessions[i], j)];
      r := Err(RetryDelegationFailed);
    }

    /** `cancelUpload`: removes the record and recomputes every aggregate;
        returns the store's own session object. */
    method CancelUpload(sessionId: int, fileId: string) returns (r: Result<Session, ServiceError>)
      requires Valid()
      modifies this
      ensures Valid() && nextId == old(nextId)
      ensures var loc := Locate(old(sessions), sessionId, fileId);
              loc.Err? ==> r == Err(loc.error) && sessions == old(sessions)
      ensures var loc := Locate(old(sessions), sessionId, fileId);
              loc.Ok? ==> sessions == old(sessions)[loc.value.0 := RemoveRecord(old(sessions)[loc.value.0], loc.value.1)]
                          && r == Ok(sessions[loc.value.0])
    {
      var loc := Locate(sessions, sessionId, fileId);
      if loc.Err? {
        return Err(loc.error);
      }
      var (i, j) := loc.value;
      assert Stored(sessions[i], nextId);
      RemoveRecordKeepsConsistent(sessions[i], j);
      ReplaceStored(sessions, nextId, i, RemoveRecord(sessions[i], j));
      sessions := sessions[i := RemoveRecord(sessions[i], j)];
      r := Ok(sessions[i]);
    }

    /** `getAllSessions`: copies of every session, in store order. */
    method GetAllSessions() returns (all: seq<Session>)
      ensures all == sessions
    {
      all := sessions;
    }

    /** `getSessionById`: the first session with the id, or null. */
    method GetSessionById(sessionId: int) returns (r: Option<Session>)
      ensures r.None? <==> forall i :: 0 <= i < |sessions| ==> sessions[i].Id != sessionId
      ensures r.Some? ==> r.value.Id == sessionId && r.value in sessions
      ensures r.Some? ==> exists i :: 0 <= i < |sessions| && sessions[i] == r.value
                                      && forall k :: 0 <= k < i ==> sessions[k].Id != sessionId
    {
      var si := FindSession(sessions, sessionId);
      r := if si.Some? then Some(sessions[si.value]) else None;
    }

    /** `deleteSession`: removes the first session with the id and returns
        true; throws "Session not found" when there is none. */
    method DeleteSession(sessionId: int) returns (r: Result<bool, ServiceError>)
      requires Valid()
      modifies this
      ensures Valid() && nextId == old(nextId)
      ensures var si := FindSession(old(sessions), sessionId);
              && (si.None? ==> r == Err(SessionNotFound) && sessions == old(sessions))
              && (si.Some? ==> r == Ok(true) && sessions == old(sessions)[..si.value] + old(sessions)[si.value + 1..])
    {
      var si := FindSession(sessions, sessionId);
      if si.None? {
        return Err(SessionNotFound);
      }
      var i := si.value;
      RemoveStored(sessions, nextId, i);
      sessions := sessions[..i] + sessions[i + 1..];
      r := Ok(true);
    }
  }

  /** Round trip: a session just created is what `getSessionById` finds
      under its id, and the ids of the earlier sessions are all different. */
  lemma CreatedSessionIsFound(created: Session, earlier: seq<Session>)
    requires forall i :: 0 <= i < |earlier| ==> earlier[i].Id < created.Id
    ensures FindSession([created] + earlier, created.Id) == Some(0)
    ensures forall i :: 0 <= i < |earlier| ==> FindSession([created] + earlier, earlier[i].Id) != Some(0)
  {
  }
}
