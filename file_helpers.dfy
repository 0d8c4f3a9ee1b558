/** Pure helpers of the upload page: file-name extensions, the icon and
    image tables, the type and size validators, the thumbnail short cut for
    non-images and the remaining-time estimate. */
module FileHelpers {
  import opened Results
  import opened Strings

  /** A browser `File` as the upload code sees it: `name`, `size`, `type`. */
  datatype FileInfo = FileInfo(name: string, size: nat, mimeType: string)

  /** Outcome of a validator: `{ valid, error }`, `error` being null or absent when valid. */
  datatype Validation = Validation(valid: bool, error: Option<string>)

  // ---------------------------------------------------------------------
  // Extensions

  /** `filename.slice((filename.lastIndexOf(".") - 1 >>> 0) + 2).toLowerCase()`.
      With no dot, or a dot only at index 0, the unsigned shift turns the
      start into 2^32 or 2^32 + 1, past the end of any JavaScript string. */
  function GetFileExtension(filename: string): (ext: string)
    ensures |ext| <= |filename|
    ensures forall k :: 0 <= k < |ext| ==> ext[k] == LowerChar(filename[|filename| - |ext| + k])
  {
    ToLower(Slice(filename, ExtensionStart(LastIndexOf(filename, '.'))))
  }

  /** `(dot - 1 >>> 0) + 2`: one past the dot, except that a missing dot
      (-1) or a leading one (0) wraps around to 2^32 or 2^32 + 1. */
  function ExtensionStart(dot: int): (start: nat)
    ensures dot == -1 ==> start == 0x1_0000_0000
    ensures dot == 0 ==> start == 0x1_0000_0001
    ensures 1 <= dot <= 0x1_0000_0000 ==> start == dot + 1
  {
    assert dot == -1 ==> (dot - 1) % 0x1_0000_0000 == 0xFFFF_FFFE;
    assert dot == 0 ==> (dot - 1) % 0x1_0000_0000 == 0xFFFF_FFFF;
    ToUint32(dot - 1) + 2
  }

  /** The extension is the lower-cased text after the last dot, and empty
      when there is no dot or the only dot is the first character (for every
      name no longer than a JavaScript string can be). */
  lemma ExtensionIsTextAfterLastDot(filename: string)
    requires |filename| <= 0x1_0000_0000
    ensures var dot := LastIndexOf(filename, '.');
            GetFileExtension(filename) == if dot <= 0 then "" else ToLower(filename[dot + 1..])
    ensures '.' !in GetFileExtension(filename)
  {
    var dot := LastIndexOf(filename, '.');
    var start := ExtensionStart(dot);
    if dot > 0 {
      assert start == dot + 1;
      var tail := filename[dot + 1..];
      assert Slice(filename, start) == tail;
      assert '.' !in tail by {
        forall k | 0 <= k < |tail| ensures tail[k] != '.' {
          assert tail[k] == filename[dot + 1 + k];
        }
      }
      NoDotAfterLower(tail);
    } else {
      assert start >= |filename|;
      assert Slice(filename, start) == [];
    }
  }

  lemma NoDotAfterLower(tail: string)
    requires '.' !in tail
    ensures '.' !in ToLower(tail)
  {
    var ext := ToLower(tail);
    forall k | 0 <= k < |ext| ensures ext[k] != '.' {
      assert ext[k] == LowerChar(tail[k]);
    }
  }

  /** A name ending in a dot has the empty extension. */
  lemma TrailingDotHasNoExtension(filename: string)
    requires |filename| <= 0x1_0000_0000
    requires filename != [] && filename[|filename| - 1] == '.'
    ensures GetFileExtension(filename) == ""
  {
    ExtensionIsTextAfterLastDot(filename);
  }

  lemma {:induction false} LastIndexOfJoined(base: string, tail: string, c: char)
    requires c !in tail
    ensures LastIndexOf(base + [c] + tail, c) == |base|
  {
    var s := base + [c] + tail;
    if tail == [] {
      assert s[|s| - 1] == c;
    } else {
      assert s[|s| - 1] == tail[|tail| - 1];
      assert s[..|s| - 1] == base + [c] + tail[..|tail| - 1];
      LastIndexOfJoined(base, tail[..|tail| - 1], c);
    }
  }

  /** Round trip: the extension of `base.ext` is `ext` lower-cased, for a
      non-empty base and a dot-free `ext`. */
  lemma ExtensionOfJoinedName(base: string, ext: string)
    requires |base| >= 1 && '.' !in ext
    requires |base| + 1 + |ext| <= 0x1_0000_0000
    ensures GetFileExtension(base + "." + ext) == ToLower(ext)
  {
    var name := base + "." + ext;
    LastIndexOfJoined(base, ext, '.');
    ExtensionIsTextAfterLastDot(name);
    assert name[|base| + 1..] == ext;
  }

  // ---------------------------------------------------------------------
  // Image and icon tables

  const ImageExtensions: seq<string> := ["jpg", "jpeg", "png", "gif", "svg", "bmp", "webp"]

  /** The groups of the icon table of `getFileIcon`. */
  const ImageIconExtensions: set<string> := {"jpg", "jpeg", "png", "gif", "svg", "bmp", "webp"}
  const DocumentExtensions: set<string> := {"pdf", "doc", "docx", "txt", "rtf"}
  const SpreadsheetExtensions: set<string> := {"xls", "xlsx", "csv"}
  const PresentationExtensions: set<string> := {"ppt", "pptx"}
  const VideoExtensions: set<string> := {"mp4", "avi", "mov", "wmv", "flv", "mkv"}
  const AudioExtensions: set<string> := {"mp3", "wav", "flac", "aac"}
  const ArchiveExtensions: set<string> := {"zip", "rar", "7z", "tar", "gz"}
  const CodeExtensions: set<string> := {"js", "jsx", "ts", "tsx", "html", "css", "json", "xml"}

  /** `iconMap[key]`: the entry of the table, or none for a key it lacks.
      No key is in two groups, so the order of the tests is immaterial. */
  function IconEntry(key: string): Option<string>
  {
    if key in ImageIconExtensions then Some("Image")
    else if key in DocumentExtensions then Some("FileText")
    else if key in SpreadsheetExtensions then Some("Sheet")
    else if key in PresentationExtensions then Some("Presentation")
    else if key in VideoExtensions then Some("Video")
    else if key in AudioExtensions then Some("Music")
    else if key in ArchiveExtensions then Some("Archive")
    else if key in CodeExtensions then Some("Code")
    else if key == "default" then Some("File")
    else None
  }

  /** `iconMap[extension] || iconMap.default`, the default entry being "File". */
  function GetFileIcon(filename: string): (icon: string)
    ensures IconEntry(GetFileExtension(filename)).None? ==> icon == "File"
    ensures IconEntry(GetFileExtension(filename)).Some? ==> icon == IconEntry(GetFileExtension(filename)).value
  {
    match IconEntry(GetFileExtension(filename))
    case Some(icon) => icon
    case None => "File"
  }

  /** `imageExtensions.includes(extension)`. */
  predicate IsImageFile(filename: string)
  {
    GetFileExtension(filename) in ImageExtensions
  }

  /** The two tables agree: an extension is an image extension exactly
      when the icon table gives it "Image". */
  lemma ImageIconTable(ext: string)
    ensures ext in ImageExtensions <==> IconEntry(ext) == Some("Image")
  {
    if ext in ImageExtensions {
      assert ext in ImageIconExtensions;
    }
  }

  /** A name is an image exactly when its icon is "Image". */
  lemma ImageIffImageIcon(filename: string)
    ensures IsImageFile(filename) <==> GetFileIcon(filename) == "Image"
  {
    ImageIconTable(GetFileExtension(filename));
  }

  /** The part of `generateThumbnail` kept in the model: a non-image resolves
      with null at once; an image resolves with the encoded preview, here the
      parameter `encoded` (canvas work is not modelled). */
  function GenerateThumbnail(file: FileInfo, encoded: string): (thumbnail: Option<string>)
    ensures thumbnail == None <==> !IsImageFile(file.name)
    ensures thumbnail != None ==> thumbnail == Some(encoded)
  {
    if !IsImageFile(file.name) then None else Some(encoded)
  }

  // ---------------------------------------------------------------------
  // Validators

  /** An extension pattern: `type.startsWith(".") && type.slice(1).toLowerCase() === extension`. */
  predicate ExtensionPatternMatches(pattern: string, ext: string)
  {
    StartsWith(pattern, ".") && ToLower(pattern[1..]) == ext
  }

  /** A MIME pattern: `type.includes("/")` and the pattern, as a regular
      expression, matches the MIME type; `regexMatch` stands for that match. */
  predicate MimePatternMatches(pattern: string, mimeType: string, regexMatch: (string, string) -> bool)
  {
    Includes(pattern, '/') && regexMatch(pattern, mimeType)
  }

  /** `allowedTypes.some(...)` over the extension patterns. */
  function SomeExtensionPattern(allowedTypes: seq<string>, ext: string): (b: bool)
    ensures b <==> exists i :: 0 <= i < |allowedTypes| && ExtensionPatternMatches(allowedTypes[i], ext)
  {
    if allowedTypes == [] then false
    else ExtensionPatternMatches(allowedTypes[0], ext) || SomeExtensionPattern(allowedTypes[1..], ext)
  }

  /** `allowedTypes.some(...)` over the MIME patterns. */
  function SomeMimePattern(allowedTypes: seq<string>, mimeType: string, regexMatch: (string, string) -> bool): (b: bool)
    ensures b <==> exists i :: 0 <= i < |allowedTypes| && MimePatternMatches(allowedTypes[i], mimeType, regexMatch)
  {
    if allowedTypes == [] then false
    else MimePatternMatches(allowedTypes[0], mimeType, regexMatch)
         || SomeMimePattern(allowedTypes[1..], mimeType, regexMatch)
  }

  function TypeErrorMessage(ext: string): string
  {
    "File type \"" + ext + "\" is not allowed"
  }

  /** `validateFileType`: everything passes when no type is listed; otherwise
      a file passes iff some `.ext` pattern names its extension (in any case)
      or some pattern with a `/` matches its MIME type. */
  function ValidateFileType(file: FileInfo, allowedTypes: seq<string>, regexMatch: (string, string) -> bool): (r: Validation)
    ensures allowedTypes == [] ==> r == Validation(true, None)
    ensures allowedTypes != [] ==>
      (r.valid <==>
        || (exists i :: 0 <= i < |allowedTypes| && ExtensionPatternMatches(allowedTypes[i], GetFileExtension(file.name)))
        || (exists i :: 0 <= i < |allowedTypes| && MimePatternMatches(allowedTypes[i], file.mimeType, regexMatch)))
    ensures r.error == None <==> r.valid
    ensures !r.valid ==> r.error == Some(TypeErrorMessage(GetFileExtension(file.name)))
  {
    if allowedTypes == [] then Validation(true, None)
    else
      var ext := GetFileExtension(file.name);
      var valid := SomeExtensionPattern(allowedTypes, ext) || SomeMimePattern(allowedTypes, file.mimeType, regexMatch);
      Validation(valid, if valid then None else Some(TypeErrorMessage(ext)))
  }

  /** A `.ext` pattern admits a file whatever the case of either side. */
  lemma ExtensionPatternIgnoresCase(base: string, ext: string, pattern: string, regexMatch: (string, string) -> bool)
    requires |base| >= 1 && '.' !in ext
    requires |base| + 1 + |ext| <= 0x1_0000_0000
    requires StartsWith(pattern, ".") && ToLower(pattern[1..]) == ToLower(ext)
    ensures ValidateFileType(FileInfo(base + "." + ext, 0, ""), [pattern], regexMatch).valid
  {
    ExtensionOfJoinedName(base, ext);
    assert ExtensionPatternMatches([pattern][0], GetFileExtension(base + "." + ext));
  }

  const Mebibyte: nat := 1024 * 1024

  function SizeErrorMessage(maxSizeMB: nat): string
  {
    "File size exceeds " + NatToString(maxSizeMB) + "MB limit"
  }

  /** `validateFileSize`: a file passes iff it is at most `maxSizeMB` MiB. */
  function ValidateFileSize(file: FileInfo, maxSizeMB: nat): (r: Validation)
    ensures r.valid <==> file.size <= maxSizeMB * Mebibyte
    ensures r.error == None <==> r.valid
    ensures !r.valid ==> r.error == Some(SizeErrorMessage(maxSizeMB))
  {
    var maxSizeBytes := maxSizeMB * 1024 * 1024;
    var valid := file.size <= maxSizeBytes;
    Validation(valid, if valid then None else Some(SizeErrorMessage(maxSizeMB)))
  }

  /** The size limit is inclusive: exactly `n` MiB passes, one byte more does not. */
  lemma SizeLimitIsInclusive(name: string, mimeType: string, n: nat)
    ensures ValidateFileSize(FileInfo(name, n * Mebibyte, mimeType), n).valid
    ensures !ValidateFileSize(FileInfo(name, n * Mebibyte + 1, mimeType), n).valid
  {
  }

  // ---------------------------------------------------------------------
  // Remaining time

  /** `Math.ceil` on a real. */
  function Ceil(x: real): (r: int)
    ensures r as real >= x && (r - 1) as real < x
  {
    -((-x).Floor)
  }

  /** Ceiling of `a / b` for a positive `b`. */
  function CeilDiv(a: int, b: int): (q: int)
    requires b > 0
    ensures (q - 1) * b < a <= q * b
  {
    (a + b - 1) / b
  }

  /** What `calculateETA` reports, before it is rendered as text. */
  datatype Eta = Calculating | SecondsLeft(seconds: int) | MinutesLeft(minutes: int) | HoursLeft(hours: int)

  /** `calculateETA`'s decision: "Calculating..." when nothing is known yet,
      otherwise whole seconds, minutes or hours, each rounded up. */
  function EstimateRemaining(uploadedBytes: real, totalBytes: real, bytesPerSecond: real): (e: Eta)
    ensures e.Calculating? <==> bytesPerSecond == 0.0 || uploadedBytes == 0.0
    ensures e.SecondsLeft? ==> e.seconds < 60
    ensures e.MinutesLeft? ==> 1 <= e.minutes <= 60
    ensures e.HoursLeft? ==> e.hours >= 1
  {
    if bytesPerSecond == 0.0 || uploadedBytes == 0.0 then Calculating
    else
      var remainingSeconds := Ceil((totalBytes - uploadedBytes) / bytesPerSecond);
      if remainingSeconds < 60 then SecondsLeft(remainingSeconds)
      else if remainingSeconds < 3600 then MinutesLeft(CeilDiv(remainingSeconds, 60))
      else HoursLeft(CeilDiv(remainingSeconds, 3600))
  }

  function RenderEta(e: Eta): string
  {
    match e
    case Calculating => "Calculating..."
    case SecondsLeft(s) => IntToString(s) + "s remaining"
    case MinutesLeft(m) => IntToString(m) + "m remaining"
    case HoursLeft(h) => IntToString(h) + "h remaining"
  }

  /** `calculateETA(uploadedBytes, totalBytes, bytesPerSecond)`. */
  function CalculateETA(uploadedBytes: real, totalBytes: real, bytesPerSecond: real): (text: string)
    ensures bytesPerSecond == 0.0 || uploadedBytes == 0.0 ==> text == "Calculating..."
  {
    RenderEta(EstimateRemaining(uploadedBytes, totalBytes, bytesPerSecond))
  }

  /** The unit bands of the estimate: with `s` the remaining seconds rounded
      up, seconds below a minute, then minutes in 1..60 (the least `m` with
      `s <= 60m`), then hours (the least `h` with `s <= 3600h`). */
  lemma EtaBands(uploadedBytes: real, totalBytes: real, bytesPerSecond: real)
    requires bytesPerSecond != 0.0 && uploadedBytes != 0.0
    ensures var s := Ceil((totalBytes - uploadedBytes) / bytesPerSecond);
            var e := EstimateRemaining(uploadedBytes, totalBytes, bytesPerSecond);
            && (s < 60 ==> e == SecondsLeft(s))
            && (60 <= s < 3600 ==>
                  e.MinutesLeft? && 1 <= e.minutes <= 60 && (e.minutes - 1) * 60 < s <= e.minutes * 60)
            && (3600 <= s ==>
                  e.HoursLeft? && e.hours >= 1 && (e.hours - 1) * 3600 < s <= e.hours * 3600)
  {
  }
}
