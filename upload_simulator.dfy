/** `simulateUpload`: the chunk loop that fakes a transfer. Sizes are kept
    in hundredths of a byte so that `Math.max(totalSize / 100, 1024)` and
    the progress percentage are exact integers; the random delay is not
    observable here and the 5% failure draw is the oracle `failureDraw`,
    consulted with the index of the chunk just reported. */
module UploadSimulator {
  import opened Results
  import opened FileHelpers
  import opened UploadModel

  const NetworkErrorMessage: string := "Upload failed due to network error"

  /** `chunkSize` in hundredths of a byte: `Math.max(totalSize / 100, 1024) * 100`. */
  function ChunkHundredths(size: nat): (c: nat)
    ensures c >= 102400 && c >= size
    ensures c == 102400 || c == size
  {
    if size > 102400 then size else 102400
  }

  /** After `k` chunks the unrounded progress `min(uploaded / total * 100, 100)`
      has reached 100 (for an empty file, JavaScript's division gives Infinity). */
  predicate Completes(size: nat, k: nat)
  {
    k * ChunkHundredths(size) >= 100 * size
  }

  /** `ceil(totalSize / chunkSize)`, and one chunk for an empty file. */
  function ChunkCount(size: nat): (n: nat)
    ensures 1 <= n <= 100
  {
    if size == 0 then 1 else if size >= 102400 then 100 else (size + 1023) / 1024
  }

  /** The transfer completes exactly from chunk `ChunkCount(size)` on: at
      most 100 chunks, and no earlier chunk reaches 100 percent unrounded. */
  lemma ChunkCountIsFirstCompletion(size: nat, k: nat)
    requires k >= 1
    ensures Completes(size, k) <==> k >= ChunkCount(size)
  {
    var c := ChunkHundredths(size);
    if size >= 102400 {
      assert c == size;
      if k >= 100 {
        MulMonotone(size, 100, k);
      } else {
        MulMonotone(size, k, 99);
      }
    } else if size > 0 {
      assert c == 102400;
      var n := (size + 1023) / 1024;
      assert (n - 1) * 1024 < size <= n * 1024;
      if k >= n {
        MulMonotone(1024, n, k);
      } else {
        MulMonotone(1024, k, n - 1);
      }
    }
  }

  lemma MulSucc(k: nat, c: nat)
    ensures (k + 1) * c == k * c + c
  {
  }

  /** Rounded progress after `uploaded` hundredths: 100 once complete,
      otherwise `Math.round(uploaded / size)`, that is `floor(x + 1/2)`. */
  function ProgressAfter(size: nat, uploaded: nat): int
  {
    if uploaded >= 100 * size then 100 else (2 * uploaded + size) / (2 * size)
  }

  /** The callback argument after `uploaded` hundredths have been sent:
      speed `chunkSize / 0.1` and `uploadedBytes = min(uploadedSize, totalSize)`. */
  function EventFor(size: nat, uploaded: nat): ProgressEvent
  {
    ProgressEvent(
      ProgressAfter(size, uploaded),
      ChunkHundredths(size) as real / 10.0,
      (if uploaded >= 100 * size then 100 * size else uploaded) as real / 100.0)
  }

  /** The callback argument after chunk `k`. */
  function EventAt(size: nat, k: nat): ProgressEvent
  {
    EventFor(size, k * ChunkHundredths(size))
  }

  lemma DivAtMost(a: nat, b: nat, q: nat)
    requires b > 0 && a < (q + 1) * b
    ensures a / b <= q
  {
    if a / b > q {
      MulMonotone(b, q + 1, a / b);
    }
  }

  lemma DivMonotone(a: nat, a': nat, b: nat)
    requires b > 0 && a <= a'
    ensures a / b <= a' / b
  {
    if a / b > a' / b {
      MulMonotone(b, a' / b + 1, a / b);
    }
  }

  /** Every callback reports progress in 0..100 and at most the file's size. */
  lemma EventInRange(size: nat, k: nat)
    ensures 0 <= EventAt(size, k).progress <= 100
    ensures 0.0 <= EventAt(size, k).uploadedBytes <= size as real
  {
    EventForInRange(size, k * ChunkHundredths(size));
  }

  lemma EventForInRange(size: nat, uploaded: nat)
    ensures 0 <= EventFor(size, uploaded).progress <= 100
    ensures 0.0 <= EventFor(size, uploaded).uploadedBytes <= size as real
  {
    if uploaded < 100 * size {
      assert 2 * uploaded + size < 101 * (2 * size);
      DivAtMost(2 * uploaded + size, 2 * size, 100);
    }
  }

  /** Progress and bytes never go down from one chunk to a later one. */
  lemma EventMonotone(size: nat, k1: nat, k2: nat)
    requires k1 <= k2
    ensures EventAt(size, k1).progress <= EventAt(size, k2).progress
    ensures EventAt(size, k1).uploadedBytes <= EventAt(size, k2).uploadedBytes
  {
    var c := ChunkHundredths(size);
    var u1, u2 := k1 * c, k2 * c;
    MulMonotone(c, k1, k2);
    if u2 < 100 * size {
      DivMonotone(2 * u1 + size, 2 * u2 + size, 2 * size);
    } else if u1 < 100 * size {
      DivAtMost(2 * u1 + size, 2 * size, 100);
    }
  }

  /** The final callback of a completed transfer reports 100 and the whole file. */
  lemma LastEventIsComplete(size: nat)
    ensures EventAt(size, ChunkCount(size)) == ProgressEvent(100, ChunkHundredths(size) as real / 10.0, size as real)
  {
    ChunkCountIsFirstCompletion(size, ChunkCount(size));
  }

  /** `https://dropzone-uploads.com/${generateFileId()}/${encodeURIComponent(file.name)}`. */
  function MockUrl(fileId: string, encodedName: string): string
  {
    "https://dropzone-uploads.com/" + fileId + "/" + encodedName
  }

  /** The chunk loop. It returns the callbacks it made, in order, and how the
      promise settled: with the mock URL once a chunk completes the file, or
      with the network error when a draw fails on a chunk still below 100
      percent. The draw of the completing chunk is never made. */
  method SimulateUpload(file: FileInfo, failureDraw: nat -> bool, fileId: string, encodeURIComponent: string -> string)
    returns (events: seq<ProgressEvent>, outcome: Result<string, string>)
    ensures 1 <= |events| <= ChunkCount(file.size)
    ensures forall k :: 0 <= k < |events| ==> events[k] == EventAt(file.size, k + 1)
    ensures forall k :: 0 <= k < |events| - 1 ==> !failureDraw(k)
    ensures outcome.Ok? ==>
              |events| == ChunkCount(file.size) && outcome.value == MockUrl(fileId, encodeURIComponent(file.name))
    ensures outcome.Err? ==>
              |events| < ChunkCount(file.size) && failureDraw(|events| - 1) && outcome.error == NetworkErrorMessage
    ensures outcome.Ok? <==> forall k :: 0 <= k < ChunkCount(file.size) - 1 ==> !failureDraw(k)
  {
    var totalSize := file.size;
    var chunkSize := ChunkHundredths(totalSize);
    var uploadedSize: nat := 0;
    events := [];
    while true
      invariant uploadedSize == |events| * chunkSize
      invariant |events| < ChunkCount(totalSize)
      invariant forall k :: 0 <= k < |events| ==> events[k] == EventAt(totalSize, k + 1)
      invariant forall k :: 0 <= k < |events| ==> !failureDraw(k)
      decreases ChunkCount(totalSize) - |events|
    {
      ghost var n := |events| + 1;
      uploadedSize := uploadedSize + chunkSize;
      MulSucc(|events|, chunkSize);
      events := events + [EventFor(totalSize, uploadedSize)];
      ChunkCountIsFirstCompletion(totalSize, n);
      if uploadedSize >= 100 * totalSize {
        assert n == ChunkCount(totalSize);
        outcome := Ok(MockUrl(fileId, encodeURIComponent(file.name)));
        return;
      }
      assert n < ChunkCount(totalSize);
      if failureDraw(|events| - 1) {
        outcome := Err(NetworkErrorMessage);
        return;
      }
    }
  }
}
