/** The records of the upload service: a session holds an ordered list of
    file records and four aggregates. This module gives the aggregates as
    functions over the records and, for each in-place update the service
    makes, the session it leaves behind, with the invariants each keeps. */
module UploadModel {
  import opened Results
  import opened FileHelpers

  datatype Status = Pending | Uploading | Success | Error

  /** One queued file. `id`, `name`, `size`, `mimeType` and `timestamp` are
      fixed at creation; the other fields are updated in place. */
  datatype FileRecord = FileRecord(
    id: string,
    name: string,
    size: nat,
    mimeType: string,
    uploadProgress: int,
    status: Status,
    url: Option<string>,
    thumbnail: Option<string>,
    uploadSpeed: real,
    errorMessage: Option<string>,
    timestamp: int)

  /** One upload session; `Id` is the store's key. */
  datatype Session = Session(
    Id: int,
    totalFiles: int,
    completedFiles: int,
    totalSize: int,
    uploadedSize: int,
    startTime: int,
    files: seq<FileRecord>)

  /** What a progress callback receives: `{ progress, speed, uploadedBytes }`. */
  datatype ProgressEvent = ProgressEvent(progress: int, speed: real, uploadedBytes: real)

  // ---------------------------------------------------------------------
  // Aggregates

  /** `files.reduce((total, file) => total + file.size, 0)` over selected files. */
  function TotalSize(files: seq<FileInfo>): nat
  {
    if files == [] then 0 else files[0].size + TotalSize(files[1..])
  }

  /** The same sum over records. */
  function SumSizes(records: seq<FileRecord>): nat
  {
    if records == [] then 0 else records[0].size + SumSizes(records[1..])
  }

  /** `files.filter(f => f.status === "success").length`. */
  function CountSuccess(records: seq<FileRecord>): nat
  {
    if records == [] then 0
    else (if records[0].status == Success then 1 else 0) + CountSuccess(records[1..])
  }

  /** `Σ size * uploadProgress`, a hundred times the bytes uploaded. */
  function WeightedProgress(records: seq<FileRecord>): int
  {
    if records == [] then 0
    else records[0].size * records[0].uploadProgress + WeightedProgress(records[1..])
  }

  /** `Math.round(Σ size * (uploadProgress / 100))`, computed exactly:
      rounding half up of W / 100 is `(W + 50) div 100`. */
  function UploadedSize(records: seq<FileRecord>): (u: int)
    ensures 100 * u - 50 <= WeightedProgress(records) < 100 * u + 50
  {
    (WeightedProgress(records) + 50) / 100
  }

  predicate ProgressInRange(records: seq<FileRecord>)
  {
    forall i :: 0 <= i < |records| ==> 0 <= records[i].uploadProgress <= 100
  }

  /** The data-model invariant every operation keeps. */
  predicate Consistent(s: Session)
  {
    && s.totalFiles == |s.files|
    && s.totalSize == SumSizes(s.files)
    && 0 <= s.completedFiles <= s.totalFiles
    && 0 <= s.uploadedSize <= s.totalSize
    && ProgressInRange(s.files)
  }

  /** The aggregates that the service recomputes agree with the records. It
      holds after creation, a progress callback and a cancel, but not after
      every operation (see the lemmas at the end of this module). */
  predicate Settled(s: Session)
  {
    s.completedFiles == CountSuccess(s.files) && s.uploadedSize == UploadedSize(s.files)
  }

  // ---------------------------------------------------------------------
  // Facts about the aggregates

  lemma {:induction false} CountSuccessAtMostLength(records: seq<FileRecord>)
    ensures CountSuccess(records) <= |records|
  {
    if records != [] { CountSuccessAtMostLength(records[1..]); }
  }

  /** Multiplying by a natural number keeps the order. */
  lemma MulMonotone(a: nat, b: int, c: int)
    requires b <= c
    ensures a * b <= a * c
  {
  }

  /** With every progress in 0..100 the weighted sum lies in 0..100·Σ size. */
  lemma {:induction false} WeightedProgressBounds(records: seq<FileRecord>)
    requires ProgressInRange(records)
    ensures 0 <= WeightedProgress(records) <= 100 * SumSizes(records)
  {
    if records != [] {
      assert ProgressInRange(records[1..]) by {
        forall i | 0 <= i < |records[1..]| ensures 0 <= records[1..][i].uploadProgress <= 100 {
          assert records[1..][i] == records[i + 1];
        }
      }
      WeightedProgressBounds(records[1..]);
      MulMonotone(records[0].size, 0, records[0].uploadProgress);
      MulMonotone(records[0].size, records[0].uploadProgress, 100);
    }
  }

  /** The recomputed `uploadedSize` never exceeds the total size. */
  lemma UploadedWithinTotal(records: seq<FileRecord>)
    requires ProgressInRange(records)
    ensures 0 <= UploadedSize(records) <= SumSizes(records)
  {
    WeightedProgressBounds(records);
  }

  lemma {:induction false} SumSizesAppend(a: seq<FileRecord>, b: seq<FileRecord>)
    ensures SumSizes(a + b) == SumSizes(a) + SumSizes(b)
  {
    if a != [] {
      assert (a + b)[1..] == a[1..] + b;
      SumSizesAppend(a[1..], b);
    } else {
      assert a + b == b;
    }
  }

  lemma {:induction false} CountSuccessAppend(a: seq<FileRecord>, b: seq<FileRecord>)
    ensures CountSuccess(a + b) == CountSuccess(a) + CountSuccess(b)
  {
    if a != [] {
      assert (a + b)[1..] == a[1..] + b;
      CountSuccessAppend(a[1..], b);
    } else {
      assert a + b == b;
    }
  }

  lemma {:induction false} WeightedProgressAppend(a: seq<FileRecord>, b: seq<FileRecord>)
    ensures WeightedProgress(a + b) == WeightedProgress(a) + WeightedProgress(b)
  {
    if a != [] {
      assert (a + b)[1..] == a[1..] + b;
      WeightedProgressAppend(a[1..], b);
    } else {
      assert a + b == b;
    }
  }

  lemma Split(records: seq<FileRecord>, j: nat)
    requires j < |records|
    ensures records == records[..j] + [records[j]] + records[j + 1..]
  {
  }

  /** Replacing one record changes each sum by that record's difference. */
  lemma AggregatesAfterUpdate(records: seq<FileRecord>, j: nat, r: FileRecord)
    requires j < |records|
    ensures SumSizes(records[j := r]) == SumSizes(records) - records[j].size + r.size
    ensures CountSuccess(records[j := r]) == CountSuccess(records)
              - (if records[j].status == Success then 1 else 0) + (if r.status == Success then 1 else 0)
    ensures WeightedProgress(records[j := r]) == WeightedProgress(records)
              - records[j].size * records[j].uploadProgress + r.size * r.uploadProgress
  {
    var pre, post := records[..j], records[j + 1..];
    Split(records, j);
    assert records[j := r] == pre + [r] + post;
    SumSizesAppend(pre + [records[j]], post);
    SumSizesAppend(pre, [records[j]]);
    SumSizesAppend(pre + [r], post);
    SumSizesAppend(pre, [r]);
    CountSuccessAppend(pre + [records[j]], post);
    CountSuccessAppend(pre, [records[j]]);
    CountSuccessAppend(pre + [r], post);
    CountSuccessAppend(pre, [r]);
    WeightedProgressAppend(pre + [records[j]], post);
    WeightedProgressAppend(pre, [records[j]]);
    WeightedProgressAppend(pre + [r], post);
    WeightedProgressAppend(pre, [r]);
  }

  /** Removing one record takes exactly its share out of each sum. */
  lemma AggregatesAfterRemoval(records: seq<FileRecord>, j: nat)
    requires j < |records|
    ensures SumSizes(records[..j] + records[j + 1..]) == SumSizes(records) - records[j].size
    ensures CountSuccess(records[..j] + records[j + 1..])
              == CountSuccess(records) - (if records[j].status == Success then 1 else 0)
    ensures WeightedProgress(records[..j] + records[j + 1..])
              == WeightedProgress(records) - records[j].size * records[j].uploadProgress
  {
    var pre, post := records[..j], records[j + 1..];
    Split(records, j);
    SumSizesAppend(pre + [records[j]], post);
    SumSizesAppend(pre, [records[j]]);
    SumSizesAppend(pre, post);
    CountSuccessAppend(pre + [records[j]], post);
    CountSuccessAppend(pre, [records[j]]);
    CountSuccessAppend(pre, post);
    WeightedProgressAppend(pre + [records[j]], post);
    WeightedProgressAppend(pre, [records[j]]);
    WeightedProgressAppend(pre, post);
  }

  // ---------------------------------------------------------------------
  // Creation

  /** The record `createUploadSession` (and the page's append) builds for a
      selected file: pending, nothing uploaded, no url, thumbnail or error. */
  function NewRecord(id: string, file: FileInfo, now: int): FileRecord
  {
    FileRecord(id, file.name, file.size, file.mimeType, 0, Pending, None, None, 0.0, None, now)
  }

  /** `files.map(file => ({ id: generateFileId(), ... }))`, the identifiers
      being the successive values of `ids`. */
  function NewRecords(ids: seq<string>, files: seq<FileInfo>, now: int): (records: seq<FileRecord>)
    requires |ids| == |files|
    ensures |records| == |files|
  {
    if files == [] then [] else [NewRecord(ids[0], files[0], now)] + NewRecords(ids[1..], files[1..], now)
  }

  lemma {:induction false} NewRecordsAt(ids: seq<string>, files: seq<FileInfo>, now: int, i: nat)
    requires |ids| == |files| && i < |files|
    ensures NewRecords(ids, files, now)[i] == NewRecord(ids[i], files[i], now)
  {
    if i > 0 { NewRecordsAt(ids[1..], files[1..], now, i - 1); }
  }

  /** Fresh records carry every selected size, count no success and weigh nothing. */
  lemma {:induction false} NewRecordsAggregates(ids: seq<string>, files: seq<FileInfo>, now: int)
    requires |ids| == |files|
    ensures SumSizes(NewRecords(ids, files, now)) == TotalSize(files)
    ensures CountSuccess(NewRecords(ids, files, now)) == 0
    ensures WeightedProgress(NewRecords(ids, files, now)) == 0
    ensures ProgressInRange(NewRecords(ids, files, now))
  {
    if files != [] {
      NewRecordsAggregates(ids[1..], files[1..], now);
      var rs := NewRecords(ids, files, now);
      assert rs[1..] == NewRecords(ids[1..], files[1..], now);
    }
    forall i | 0 <= i < |files| ensures NewRecords(ids, files, now)[i].uploadProgress == 0 {
      NewRecordsAt(ids, files, now, i);
    }
  }

  /** The session object `createUploadSession` builds. */
  function NewSession(id: int, files: seq<FileInfo>, ids: seq<string>, now: int): (s: Session)
    requires |ids| == |files|
    ensures s.Id == id && |s.files| == |files|
    ensures Consistent(s) && Settled(s)
  {
    NewRecordsAggregates(ids, files, now);
    Session(id, |files|, 0, TotalSize(files), 0, now, NewRecords(ids, files, now))
  }

  /** A new session has one pending, empty record per selected file, in
      order, and aggregates that agree with them. */
  lemma NewSessionShape(id: int, files: seq<FileInfo>, ids: seq<string>, now: int)
    requires |ids| == |files|
    ensures var s := NewSession(id, files, ids, now);
            && Consistent(s) && Settled(s)
            && s.Id == id && |s.files| == |files|
            && s.totalSize == TotalSize(files) && s.completedFiles == 0 && s.uploadedSize == 0
            && forall i :: 0 <= i < |files| ==>
                 && s.files[i].id == ids[i] && s.files[i].name == files[i].name
                 && s.files[i].size == files[i].size && s.files[i].mimeType == files[i].mimeType
                 && s.files[i].status == Pending && s.files[i].uploadProgress == 0
                 && s.files[i].uploadSpeed == 0.0 && s.files[i].url == None
                 && s.files[i].thumbnail == None && s.files[i].errorMessage == None
  {
    NewRecordsAggregates(ids, files, now);
    forall i | 0 <= i < |files| ensures NewRecords(ids, files, now)[i] == NewRecord(ids[i], files[i], now) {
      NewRecordsAt(ids, files, now, i);
    }
  }

  // ---------------------------------------------------------------------
  // In-place updates of one record, as the service performs them

  /** `fileRecord.status = "uploading"`, whatever the status was. */
  function MarkUploading(s: Session, j: nat): (t: Session)
    requires j < |s.files|
    ensures t.Id == s.Id && |t.files| == |s.files|
    ensures forall i :: 0 <= i < |s.files| && i != j ==> t.files[i] == s.files[i]
    ensures t.files[j] == s.files[j].(status := Uploading)
    ensures t.totalFiles == s.totalFiles && t.totalSize == s.totalSize
            && t.completedFiles == s.completedFiles && t.uploadedSize == s.uploadedSize
  {
    s.(files := s.files[j := s.files[j].(status := Uploading)])
  }

  /** `fileRecord.thumbnail = thumbnail`. */
  function SetThumbnail(s: Session, j: nat, thumbnail: Option<string>): (t: Session)
    requires j < |s.files|
    ensures t.Id == s.Id && |t.files| == |s.files|
    ensures forall i :: 0 <= i < |s.files| && i != j ==> t.files[i] == s.files[i]
    ensures t.files[j] == s.files[j].(thumbnail := thumbnail)
    ensures t.totalFiles == s.totalFiles && t.totalSize == s.totalSize
            && t.completedFiles == s.completedFiles && t.uploadedSize == s.uploadedSize
  {
    s.(files := s.files[j := s.files[j].(thumbnail := thumbnail)])
  }

  /** One progress callback: the record's progress and speed, then the
      session's `uploadedSize` recomputed over all records. */
  function ApplyProgress(s: Session, j: nat, e: ProgressEvent): (t: Session)
    requires j < |s.files|
    ensures t.Id == s.Id && |t.files| == |s.files|
    ensures forall i :: 0 <= i < |s.files| && i != j ==> t.files[i] == s.files[i]
    ensures t.files[j] == s.files[j].(uploadProgress := e.progress, uploadSpeed := e.speed)
    ensures t.totalFiles == s.totalFiles && t.totalSize == s.totalSize && t.completedFiles == s.completedFiles
    ensures t.uploadedSize == UploadedSize(t.files)
  {
    var files := s.files[j := s.files[j].(uploadProgress := e.progress, uploadSpeed := e.speed)];
    s.(files := files, uploadedSize := UploadedSize(files))
  }

  /** The callbacks of one upload, in order. */
  function ApplyProgressAll(s: Session, j: nat, events: seq<ProgressEvent>): (t: Session)
    requires j < |s.files|
    ensures |t.files| == |s.files| && t.Id == s.Id
    decreases |events|
  {
    if events == [] then s
    else ApplyProgress(ApplyProgressAll(s, j, events[..|events| - 1]), j, events[|events| - 1])
  }

  /** Success: status, url and speed of the record, then `completedFiles`
      recomputed as the number of successful records. */
  function MarkSuccess(s: Session, j: nat, url: string): (t: Session)
    requires j < |s.files|
    ensures t.Id == s.Id && |t.files| == |s.files|
    ensures forall i :: 0 <= i < |s.files| && i != j ==> t.files[i] == s.files[i]
    ensures t.files[j] == s.files[j].(status := Success, url := Some(url), uploadSpeed := 0.0)
    ensures t.totalFiles == s.totalFiles && t.totalSize == s.totalSize && t.uploadedSize == s.uploadedSize
    ensures t.completedFiles == CountSuccess(t.files)
  {
    var files := s.files[j := s.files[j].(status := Success, url := Some(url), uploadSpeed := 0.0)];
    s.(files := files, completedFiles := CountSuccess(files))
  }

  /** Failure: status, message and speed of the record; no aggregate is recomputed. */
  function MarkFailure(s: Session, j: nat, message: string): (t: Session)
    requires j < |s.files|
    ensures t.Id == s.Id && |t.files| == |s.files|
    ensures forall i :: 0 <= i < |s.files| && i != j ==> t.files[i] == s.files[i]
    ensures t.files[j] == s.files[j].(status := Error, errorMessage := Some(message), uploadSpeed := 0.0)
    ensures t.totalFiles == s.totalFiles && t.totalSize == s.totalSize
            && t.completedFiles == s.completedFiles && t.uploadedSize == s.uploadedSize
  {
    s.(files := s.files[j := s.files[j].(status := Error, errorMessage := Some(message), uploadSpeed := 0.0)])
  }

  /** The reset at the start of `retryUpload`; no aggregate is recomputed. */
  function ResetForRetry(s: Session, j: nat): (t: Session)
    requires j < |s.files|
    ensures t.Id == s.Id && |t.files| == |s.files|
    ensures forall i :: 0 <= i < |s.files| && i != j ==> t.files[i] == s.files[i]
    ensures t.files[j] == s.files[j].(uploadProgress := 0, status := Pending, errorMessage := None, uploadSpeed := 0.0)
    ensures t.totalFiles == s.totalFiles && t.totalSize == s.totalSize
            && t.completedFiles == s.completedFiles && t.uploadedSize == s.uploadedSize
  {
    s.(files := s.files[j := s.files[j].(uploadProgress := 0, status := Pending, errorMessage := None, uploadSpeed := 0.0)])
  }

  /** `splice(fileIndex, 1)` and the recomputation of all four aggregates. */
  function RemoveRecord(s: Session, j: nat): (t: Session)
    requires j < |s.files|
    ensures t.Id == s.Id && |t.files| == |s.files| - 1
    ensures forall i :: 0 <= i < j ==> t.files[i] == s.files[i]
    ensures forall i :: j <= i < |t.files| ==> t.files[i] == s.files[i + 1]
    ensures t.totalFiles == |t.files| && t.totalSize == SumSizes(t.files) && Settled(t)
  {
    var files := s.files[..j] + s.files[j + 1..];
    s.(files := files, totalFiles := |files|, totalSize := SumSizes(files),
       completedFiles := CountSuccess(files), uploadedSize := UploadedSize(files))
  }

  // ---------------------------------------------------------------------
  // What each update keeps

  /** Status and thumbnail changes leave the other records, the sizes and
      the progress alone, so the invariant survives. */
  lemma MarkUploadingKeepsConsistent(s: Session, j: nat)
    requires Consistent(s) && j < |s.files|
    ensures var t := MarkUploading(s, j);
            && Consistent(t) && t.Id == s.Id && |t.files| == |s.files|
            && t.files[j] == s.files[j].(status := Uploading)
            && (forall i :: 0 <= i < |s.files| && i != j ==> t.files[i] == s.files[i])
            && (Settled(s) && s.files[j].status != Success ==> Settled(t))
  {
    AggregatesAfterUpdate(s.files, j, MarkUploading(s, j).files[j]);
  }

  lemma SetThumbnailKeepsConsistent(s: Session, j: nat, thumbnail: Option<string>)
    requires Consistent(s) && j < |s.files|
    ensures var t := SetThumbnail(s, j, thumbnail);
            && Consistent(t) && t.Id == s.Id && |t.files| == |s.files|
            && t.files[j] == s.files[j].(thumbnail := thumbnail)
            && (forall i :: 0 <= i < |s.files| && i != j ==> t.files[i] == s.files[i])
            && (Settled(s) ==> Settled(t))
  {
    AggregatesAfterUpdate(s.files, j, SetThumbnail(s, j, thumbnail).files[j]);
  }

  /** A progress callback touches only the target record and keeps
      `uploadedSize` within `totalSize`; it re-establishes the recomputed
      aggregate, so a settled session stays settled. */
  lemma ApplyProgressKeepsConsistent(s: Session, j: nat, e: ProgressEvent)
    requires Consistent(s) && j < |s.files| && 0 <= e.progress <= 100
    ensures var t := ApplyProgress(s, j, e);
            && Consistent(t) && t.Id == s.Id && |t.files| == |s.files|
            && t.files[j].uploadProgress == e.progress && t.files[j].uploadSpeed == e.speed
            && (forall i :: 0 <= i < |s.files| && i != j ==> t.files[i] == s.files[i])
            && t.uploadedSize == UploadedSize(t.files)
            && (s.completedFiles == CountSuccess(s.files) ==> Settled(t))
  {
    var t := ApplyProgress(s, j, e);
    AggregatesAfterUpdate(s.files, j, t.files[j]);
    UploadedWithinTotal(t.files);
  }

  /** After any non-empty run of callbacks the session is what the last one made it. */
  lemma {:induction false} LastCallbackWins(s: Session, j: nat, events: seq<ProgressEvent>)
    requires j < |s.files| && events != []
    ensures ApplyProgressAll(s, j, events)
            == ApplyProgress(s, j, events[|events| - 1])
  {
    var init := events[..|events| - 1];
    if init != [] {
      LastCallbackWins(s, j, init);
      ProgressOverwrites(s, j, init[|init| - 1], events[|events| - 1]);
    }
  }

  /** A second callback overwrites everything the first one set. */
  lemma ProgressOverwrites(s: Session, j: nat, first: ProgressEvent, second: ProgressEvent)
    requires j < |s.files|
    ensures ApplyProgress(ApplyProgress(s, j, first), j, second) == ApplyProgress(s, j, second)
  {
    var a := ApplyProgress(ApplyProgress(s, j, first), j, second);
    var b := ApplyProgress(s, j, second);
    assert a.files == b.files;
  }

  /** Callbacks never touch the session's id or its list of record ids. */
  lemma {:induction false} ApplyProgressAllKeepsId(s: Session, j: nat, events: seq<ProgressEvent>)
    requires j < |s.files|
    ensures var t := ApplyProgressAll(s, j, events);
            && t.Id == s.Id
            && forall i :: 0 <= i < |s.files| ==> t.files[i].id == s.files[i].id
    decreases |events|
  {
    if events != [] {
      ApplyProgressAllKeepsId(s, j, events[..|events| - 1]);
    }
  }

  /** A run of callbacks with progress in 0..100 keeps the invariant. */
  lemma ApplyProgressAllKeepsConsistent(s: Session, j: nat, events: seq<ProgressEvent>)
    requires Consistent(s) && j < |s.files|
    requires forall k :: 0 <= k < |events| ==> 0 <= events[k].progress <= 100
    ensures var t := ApplyProgressAll(s, j, events);
            && Consistent(t) && t.Id == s.Id
            && (forall i :: 0 <= i < |s.files| && i != j ==> t.files[i] == s.files[i])
            && (s.completedFiles == CountSuccess(s.files) ==> t.completedFiles == CountSuccess(t.files))
            && (events != [] ==> t.uploadedSize == UploadedSize(t.files))
            && t.files[j].status == s.files[j].status && t.files[j].id == s.files[j].id
  {
    if events != [] {
      LastCallbackWins(s, j, events);
      ApplyProgressKeepsConsistent(s, j, events[|events| - 1]);
    }
  }

  /** Success counts the record among the completed ones. */
  lemma MarkSuccessKeepsConsistent(s: Session, j: nat, url: string)
    requires Consistent(s) && j < |s.files|
    ensures var t := MarkSuccess(s, j, url);
            && Consistent(t) && t.Id == s.Id && |t.files| == |s.files|
            && t.completedFiles == CountSuccess(t.files)
            && (forall i :: 0 <= i < |s.files| && i != j ==> t.files[i] == s.files[i])
            && (s.uploadedSize == UploadedSize(s.files) ==> Settled(t))
  {
    var t := MarkSuccess(s, j, url);
    AggregatesAfterUpdate(s.files, j, t.files[j]);
    CountSuccessAtMostLength(t.files);
  }

  lemma MarkFailureKeepsConsistent(s: Session, j: nat, message: string)
    requires Consistent(s) && j < |s.files|
    ensures var t := MarkFailure(s, j, message);
            && Consistent(t) && t.Id == s.Id && |t.files| == |s.files|
            && (forall i :: 0 <= i < |s.files| && i != j ==> t.files[i] == s.files[i])
            && (Settled(s) && s.files[j].status != Success ==> Settled(t))
  {
    AggregatesAfterUpdate(s.files, j, MarkFailure(s, j, message).files[j]);
  }

  lemma ResetForRetryKeepsConsistent(s: Session, j: nat)
    requires Consistent(s) && j < |s.files|
    ensures var t := ResetForRetry(s, j);
            && Consistent(t) && t.Id == s.Id && |t.files| == |s.files|
            && (forall i :: 0 <= i < |s.files| && i != j ==> t.files[i] == s.files[i])
            && (Settled(s) && s.files[j].status != Success && s.files[j].uploadProgress == 0 ==> Settled(t))
  {
    AggregatesAfterUpdate(s.files, j, ResetForRetry(s, j).files[j]);
  }

  /** Cancel keeps the other records in order, and every aggregate drops by
      exactly the removed record's share; the result is always settled. */
  lemma RemoveRecordKeepsConsistent(s: Session, j: nat)
    requires Consistent(s) && j < |s.files|
    ensures var t := RemoveRecord(s, j);
            && Consistent(t) && Settled(t) && t.Id == s.Id
            && t.files == s.files[..j] + s.files[j + 1..]
            && t.totalFiles == s.totalFiles - 1
            && t.totalSize == s.totalSize - s.files[j].size
            && (s.completedFiles == CountSuccess(s.files) ==>
                  t.completedFiles == s.completedFiles - (if s.files[j].status == Success then 1 else 0))
  {
    var t := RemoveRecord(s, j);
    AggregatesAfterRemoval(s.files, j);
    CountSuccessAtMostLength(t.files);
    assert ProgressInRange(t.files) by {
      forall i | 0 <= i < |t.files| ensures 0 <= t.files[i].uploadProgress <= 100 {
        if i < j { assert t.files[i] == s.files[i]; } else { assert t.files[i] == s.files[i + 1]; }
      }
    }
    UploadedWithinTotal(t.files);
  }

  // ---------------------------------------------------------------------
  // Where the recomputed aggregates go stale

  /** Retrying a record that had made progress leaves `uploadedSize` as it
      was: the reset sets the progress to 0 but recomputes nothing. */
  lemma RetryLeavesUploadedSizeStale()
    ensures var r := FileRecord("f", "a.txt", 1000, "text/plain", 50, Error, None, None, 0.0, Some("x"), 0);
            var s := Session(1, 1, 0, 1000, 500, 0, [r]);
            Settled(s) && !Settled(ResetForRetry(s, 0))
  {
    var r := FileRecord("f", "a.txt", 1000, "text/plain", 50, Error, None, None, 0.0, Some("x"), 0);
    var s := Session(1, 1, 0, 1000, 500, 0, [r]);
    assert WeightedProgress(s.files) == 50000;
    assert WeightedProgress(ResetForRetry(s, 0).files) == 0;
  }

  /** With no status guard, starting an upload on a record that already
      succeeded leaves `completedFiles` counting it. */
  lemma RestartLeavesCompletedFilesStale()
    ensures var r := FileRecord("f", "a.txt", 1000, "text/plain", 100, Success, Some("u"), None, 0.0, None, 0);
            var s := Session(1, 1, 1, 1000, 1000, 0, [r]);
            Settled(s) && !Settled(MarkUploading(s, 0))
  {
    var r := FileRecord("f", "a.txt", 1000, "text/plain", 100, Success, Some("u"), None, 0.0, None, 0);
    var s := Session(1, 1, 1, 1000, 1000, 0, [r]);
    assert WeightedProgress(s.files) == 100000;
    assert CountSuccess(s.files) == 1;
    assert CountSuccess(MarkUploading(s, 0).files) == 0;
  }
}
