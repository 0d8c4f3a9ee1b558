/** The drop zone component: batch validation of the chosen files, the
    hand-off of the accepted ones, and the two drag-highlight flags. */
module DropZone {
  import opened Results
  import opened Strings
  import opened FileHelpers

  /** The props that matter to the logic; `regexMatch` stands for the
      regular-expression test inside the type check. */
  datatype DropZoneProps = DropZoneProps(
    acceptedTypes: seq<string>,
    maxFileSize: nat,
    maxFiles: nat,
    disabled: bool,
    regexMatch: (string, string) -> bool)

  // ---------------------------------------------------------------------
  // Batch validation

  /** The verdict on one file: None when it is accepted, otherwise its one
      error. The type check comes first and is skipped when no type is
      listed; a file failing both checks gets only the type error. */
  function Verdict(file: FileInfo, props: DropZoneProps): (e: Option<string>)
    ensures e.None? <==>
              && (props.acceptedTypes == [] || ValidateFileType(file, props.acceptedTypes, props.regexMatch).valid)
              && ValidateFileSize(file, props.maxFileSize).valid
    ensures props.acceptedTypes != [] && !ValidateFileType(file, props.acceptedTypes, props.regexMatch).valid ==>
              e == Some(file.name + ": " + TypeErrorMessage(GetFileExtension(file.name)))
    ensures (props.acceptedTypes == [] || ValidateFileType(file, props.acceptedTypes, props.regexMatch).valid)
            && !ValidateFileSize(file, props.maxFileSize).valid ==>
              e == Some(file.name + ": " + SizeErrorMessage(props.maxFileSize))
  {
    var typeValidation := ValidateFileType(file, props.acceptedTypes, props.regexMatch);
    var sizeValidation := ValidateFileSize(file, props.maxFileSize);
    if |props.acceptedTypes| > 0 && !typeValidation.valid then Some(file.name + ": " + typeValidation.error.value)
    else if !sizeValidation.valid then Some(file.name + ": " + sizeValidation.error.value)
    else None
  }

  /** The accepted files, in input order. */
  function Passing(files: seq<FileInfo>, props: DropZoneProps): seq<FileInfo>
    decreases |files|
  {
    if files == [] then []
    else
      var last := files[|files| - 1];
      Passing(files[..|files| - 1], props) + (if Verdict(last, props).None? then [last] else [])
  }

  /** The per-file errors, in input order. */
  function PerFileErrors(files: seq<FileInfo>, props: DropZoneProps): seq<string>
    decreases |files|
  {
    if files == [] then []
    else
      var last := files[|files| - 1];
      var verdict := Verdict(last, props);
      PerFileErrors(files[..|files| - 1], props) + (if verdict.Some? then [verdict.value] else [])
  }

  function TooManyFilesMessage(maxFiles: nat): string
  {
    "Too many files. Maximum " + NatToString(maxFiles) + " files allowed."
  }

  /** `validFiles.slice(0, maxFiles)` when the batch is over the cap. */
  function Capped(accepted: seq<FileInfo>, maxFiles: nat): (kept: seq<FileInfo>)
    ensures |kept| <= maxFiles && kept <= accepted
    ensures |accepted| <= maxFiles ==> kept == accepted
    ensures |accepted| > maxFiles ==> |kept| == maxFiles
  {
    if |accepted| > maxFiles then accepted[..maxFiles] else accepted
  }

  /** The single error the cap adds, if any. */
  function CapErrors(accepted: seq<FileInfo>, maxFiles: nat): seq<string>
  {
    if |accepted| > maxFiles then [TooManyFilesMessage(maxFiles)] else []
  }

  /** `validateFiles`: each file in turn is accepted or contributes its one
      error, then the cap keeps the first `maxFiles` accepted files and adds
      one aggregate error. */
  method ValidateFiles(files: seq<FileInfo>, props: DropZoneProps) returns (validFiles: seq<FileInfo>, errors: seq<string>)
    ensures validFiles == Capped(Passing(files, props), props.maxFiles)
    ensures errors == PerFileErrors(files, props) + CapErrors(Passing(files, props), props.maxFiles)
  {
    validFiles := [];
    errors := [];
    var i := 0;
    while i < |files|
      invariant 0 <= i <= |files|
      invariant validFiles == Passing(files[..i], props)
      invariant errors == PerFileErrors(files[..i], props)
    {
      var file := files[i];
      assert files[..i + 1][..i] == files[..i];
      ghost var verdict := Verdict(file, props);
      assert Passing(files[..i + 1], props) == validFiles + (if verdict.None? then [file] else []);
      assert PerFileErrors(files[..i + 1], props) == errors + (if verdict.Some? then [verdict.value] else []);
      var typeValidation := ValidateFileType(file, props.acceptedTypes, props.regexMatch);
      var sizeValidation := ValidateFileSize(file, props.maxFileSize);
      if |props.acceptedTypes| > 0 && !typeValidation.valid {
        errors := errors + [file.name + ": " + typeValidation.error.value];
      } else if !sizeValidation.valid {
        errors := errors + [file.name + ": " + sizeValidation.error.value];
      } else {
        validFiles := validFiles + [file];
      }
      i := i + 1;
    }
    assert files[..i] == files;
    if |validFiles| > props.maxFiles {
      errors := errors + [TooManyFilesMessage(props.maxFiles)];
      validFiles := validFiles[..props.maxFiles];
    }
  }

  /** Every file is either accepted or has exactly one error. */
  lemma {:induction false} EveryFileAccountedFor(files: seq<FileInfo>, props: DropZoneProps)
    ensures |Passing(files, props)| + |PerFileErrors(files, props)| == |files|
    decreases |files|
  {
    if files != [] {
      EveryFileAccountedFor(files[..|files| - 1], props);
    }
  }

  /** The surplus files over the cap get no error of their own: the errors
      are one per rejected file, plus at most one. */
  lemma ErrorCount(files: seq<FileInfo>, props: DropZoneProps)
    ensures var accepted := Passing(files, props);
            |PerFileErrors(files, props) + CapErrors(accepted, props.maxFiles)|
              == |files| - |accepted| + (if |accepted| > props.maxFiles then 1 else 0)
  {
    EveryFileAccountedFor(files, props);
  }

  /** Validation distributes over concatenation, so it keeps the input order. */
  lemma {:induction false} PassingAppend(a: seq<FileInfo>, b: seq<FileInfo>, props: DropZoneProps)
    ensures Passing(a + b, props) == Passing(a, props) + Passing(b, props)
    decreases |b|
  {
    if b == [] {
      assert a + b == a;
    } else {
      var init, last := b[..|b| - 1], b[|b| - 1];
      assert (a + b)[..|a + b| - 1] == a + init;
      assert (a + b)[|a + b| - 1] == last;
      PassingAppend(a, init, props);
    }
  }

  /** The per-file errors of a concatenation are those of each part, in order. */
  lemma {:induction false} PerFileErrorsAppend(a: seq<FileInfo>, b: seq<FileInfo>, props: DropZoneProps)
    ensures PerFileErrors(a + b, props) == PerFileErrors(a, props) + PerFileErrors(b, props)
    decreases |b|
  {
    if b == [] {
      assert a + b == a;
    } else {
      var init, last := b[..|b| - 1], b[|b| - 1];
      assert (a + b)[..|a + b| - 1] == a + init;
      assert (a + b)[|a + b| - 1] == last;
      PerFileErrorsAppend(a, init, props);
    }
  }

  /** A file is accepted exactly when it is in the batch and its verdict is empty. */
  lemma {:induction false} PassingMembers(files: seq<FileInfo>, props: DropZoneProps, f: FileInfo)
    ensures f in Passing(files, props) <==> f in files && Verdict(f, props).None?
    decreases |files|
  {
    if files != [] {
      var init := files[..|files| - 1];
      PassingMembers(init, props, f);
      assert files == init + [files[|files| - 1]];
    }
  }

  /** With no listed types only the size decides; a file over the size limit
      is then the only kind that is rejected. */
  lemma NoTypesMeansSizeOnly(file: FileInfo, props: DropZoneProps)
    requires props.acceptedTypes == []
    ensures Verdict(file, props).None? <==> file.size <= props.maxFileSize * Mebibyte
  {
  }

  // ---------------------------------------------------------------------
  // Hand-off

  /** `handleFiles`: nothing happens when disabled or given no files; the
      errors are shown and the accepted files, if any, go to
      `onFilesSelected` (the `Some` result). */
  method HandleFiles(files: seq<FileInfo>, props: DropZoneProps) returns (selected: Option<seq<FileInfo>>, errors: seq<string>)
    ensures props.disabled || files == [] ==> selected == None && errors == []
    ensures !props.disabled && files != [] ==>
              var kept := Capped(Passing(files, props), props.maxFiles);
              && errors == PerFileErrors(files, props) + CapErrors(Passing(files, props), props.maxFiles)
              && selected == (if kept == [] then None else Some(kept))
    ensures selected.Some? ==> 0 < |selected.value| <= props.maxFiles
  {
    if props.disabled || |files| == 0 {
      return None, [];
    }
    var validFiles;
    validFiles, errors := ValidateFiles(files, props);
    selected := if |validFiles| > 0 then Some(validFiles) else None;
  }

  // ---------------------------------------------------------------------
  // Drag flags

  class DropZone {
    var isDragOver: bool
    var isDragging: bool

    /** Dragging is only ever flagged together with the highlight. */
    predicate Valid()
      reads this
    {
      isDragging ==> isDragOver
    }

    constructor ()
      ensures Valid() && !isDragOver && !isDragging
    {
      isDragOver := false;
      isDragging := false;
    }

    /** `handleDragEnter`: both flags on, unless disabled. */
    method DragEnter(disabled: bool)
      requires Valid()
      modifies this
      ensures Valid()
      ensures disabled ==> isDragOver == old(isDragOver) && isDragging == old(isDragging)
      ensures !disabled ==> isDragOver && isDragging
    {
      if disabled {
        return;
      }
      isDragOver := true;
      isDragging := true;
    }

    /** `handleDragLeave`: both flags off when the pointer has left the zone
        (`leftZone` is the `contains(relatedTarget)` test, negated). */
    method DragLeave(disabled: bool, leftZone: bool)
      requires Valid()
      modifies this
      ensures Valid()
      ensures disabled || !leftZone ==> isDragOver == old(isDragOver) && isDragging == old(isDragging)
      ensures !disabled && leftZone ==> !isDragOver && !isDragging
    {
      if disabled {
        return;
      }
      if leftZone {
        isDragOver := false;
        isDragging := false;
      }
    }

    /** `handleDragOver`: the highlight on, unless disabled. */
    method DragOver(disabled: bool)
      requires Valid()
      modifies this
      ensures Valid()
      ensures disabled ==> isDragOver == old(isDragOver) && isDragging == old(isDragging)
      ensures !disabled ==> isDragOver && isDragging == old(isDragging)
    {
      if disabled {
        return;
      }
      isDragOver := true;
    }

    /** `handleDrop`: both flags off even when disabled, then the dropped
        files go through `handleFiles`. */
    method Drop(files: seq<FileInfo>, props: DropZoneProps) returns (selected: Option<seq<FileInfo>>, errors: seq<string>)
      requires Valid()
      modifies this
      ensures Valid() && !isDragOver && !isDragging
      ensures props.disabled || files == [] ==> selected == None && errors == []
      ensures !props.disabled && files != [] ==>
                var kept := Capped(Passing(files, props), props.maxFiles);
                && errors == PerFileErrors(files, props) + CapErrors(Passing(files, props), props.maxFiles)
                && selected == (if kept == [] then None else Some(kept))
    {
      isDragOver := false;
      isDragging := false;
      if props.disabled {
        return None, [];
      }
      selected, errors := HandleFiles(files, props);
    }
  }
}
