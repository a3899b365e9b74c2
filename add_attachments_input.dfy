/** frontend/Task-manager/src/component/Inputs/AddattachmentsInput.jsx: the
    attachment picker. handleFiles walks the chosen files once, stopping at
    the file limit and skipping files that are too large or already
    attached; the accepted files are appended in one `onChange` call.
    `alert` calls are collected as the sequence of their messages. */
module AddAttachmentsInput {
  import opened Common

  const DefaultMaxFiles := 5
  const DefaultMaxSizeMB := 10

  function MaxFilesAlert(maxFiles: nat): string {
    "Maximum " + NatToString(maxFiles) + " files allowed"
  }

  function TooLargeAlert(name: string, maxSizeMB: nat): string {
    "File \"" + name + "\" exceeds " + NatToString(maxSizeMB) + "MB limit"
  }

  function DuplicateAlert(name: string): string {
    "File \"" + name + "\" already added"
  }

  /** `attachments.some(a => a.name === file.name && a.size === file.size)` */
  predicate IsDuplicate(attachments: seq<FileInfo>, file: FileInfo) {
    exists k :: 0 <= k < |attachments| && attachments[k].name == file.name && attachments[k].size == file.size
  }

  function MaxBytes(maxSizeMB: nat): nat {
    maxSizeMB * 1024 * 1024
  }

  /** What the loop has built so far: the accepted files and the alerts. */
  datatype Scan = Scan(accepted: seq<FileInfo>, alerts: seq<string>)

  /** The loop of handleFiles as a recursion over the remaining files,
      starting from what has been built so far. */
  function ScanFiles(attachments: seq<FileInfo>, files: seq<FileInfo>, maxFiles: nat, maxSizeMB: nat, sofar: Scan): Scan
    decreases |files|
  {
    if files == [] then sofar
    else if |attachments| + |sofar.accepted| >= maxFiles then
      Scan(sofar.accepted, sofar.alerts + [MaxFilesAlert(maxFiles)])
    else if files[0].size > MaxBytes(maxSizeMB) then
      ScanFiles(attachments, files[1..], maxFiles, maxSizeMB,
                Scan(sofar.accepted, sofar.alerts + [TooLargeAlert(files[0].name, maxSizeMB)]))
    else if IsDuplicate(attachments, files[0]) then
      ScanFiles(attachments, files[1..], maxFiles, maxSizeMB,
                Scan(sofar.accepted, sofar.alerts + [DuplicateAlert(files[0].name)]))
    else
      ScanFiles(attachments, files[1..], maxFiles, maxSizeMB, Scan(sofar.accepted + [files[0]], sofar.alerts))
  }

  /** handleFiles: nothing when disabled; otherwise the alerts of the scan,
      and `onChange` with the old attachments followed by the accepted
      files, called only when at least one file was accepted. */
  method HandleFiles(attachments: seq<FileInfo>, files: seq<FileInfo>, disabled: bool, maxFiles: nat, maxSizeMB: nat)
    returns (emitted: Option<seq<FileInfo>>, alerts: seq<string>)
    ensures disabled ==> emitted.None? && alerts == []
    ensures !disabled ==>
      var s := ScanFiles(attachments, files, maxFiles, maxSizeMB, Scan([], []));
      && alerts == s.alerts
      && emitted == (if s.accepted == [] then None else Some(attachments + s.accepted))
  {
    if disabled {
      return None, [];
    }
    var validFiles: seq<FileInfo> := [];
    alerts := [];
    var i := 0;
    while i < |files|
      invariant 0 <= i <= |files|
      invariant ScanFiles(attachments, files[i..], maxFiles, maxSizeMB, Scan(validFiles, alerts))
                == ScanFiles(attachments, files, maxFiles, maxSizeMB, Scan([], []))
    {
      var file := files[i];
      if |attachments| + |validFiles| >= maxFiles {
        alerts := alerts + [MaxFilesAlert(maxFiles)];
        break;
      }
      if file.size > MaxBytes(maxSizeMB) {
        alerts := alerts + [TooLargeAlert(file.name, maxSizeMB)];
        i := i + 1;
        continue;
      }
      if IsDuplicate(attachments, file) {
        alerts := alerts + [DuplicateAlert(file.name)];
        i := i + 1;
        continue;
      }
      validFiles := validFiles + [file];
      i := i + 1;
    }
    if |validFiles| > 0 {
      emitted := Some(attachments + validFiles);
    } else {
      emitted := None;
    }
  }

  /** The accepted files are some of the chosen files, in the order chosen. */
  lemma {:induction false} ScanAcceptsSubsequence(attachments: seq<FileInfo>, files: seq<FileInfo>, maxFiles: nat, maxSizeMB: nat, sofar: Scan)
    ensures var r := ScanFiles(attachments, files, maxFiles, maxSizeMB, sofar);
      sofar.accepted <= r.accepted && IsSubsequence(r.accepted[|sofar.accepted|..], files)
    decreases |files|
  {
    var r := ScanFiles(attachments, files, maxFiles, maxSizeMB, sofar);
    if files == [] || |attachments| + |sofar.accepted| >= maxFiles {
      assert r.accepted[|sofar.accepted|..] == [];
    } else if files[0].size > MaxBytes(maxSizeMB) || IsDuplicate(attachments, files[0]) {
      var next := if files[0].size > MaxBytes(maxSizeMB)
                  then Scan(sofar.accepted, sofar.alerts + [TooLargeAlert(files[0].name, maxSizeMB)])
                  else Scan(sofar.accepted, sofar.alerts + [DuplicateAlert(files[0].name)]);
      ScanAcceptsSubsequence(attachments, files[1..], maxFiles, maxSizeMB, next);
      var x := r.accepted[|sofar.accepted|..];
      assert IsSubsequence(x, files[1..]);
      assert x == [] || IsSubsequence(x, files[1..]);
    } else {
      var next := Scan(sofar.accepted + [files[0]], sofar.alerts);
      ScanAcceptsSubsequence(attachments, files[1..], maxFiles, maxSizeMB, next);
      var x := r.accepted[|sofar.accepted|..];
      assert x == [files[0]] + r.accepted[|next.accepted|..];
      assert x[0] == files[0] && x[1..] == r.accepted[|next.accepted|..];
    }
  }

  /** The file limit: the new list is no longer than the old one or
      maxFiles, whichever is larger. */
  lemma {:induction false} ScanRespectsLimit(attachments: seq<FileInfo>, files: seq<FileInfo>, maxFiles: nat, maxSizeMB: nat, sofar: Scan)
    ensures |attachments| + |ScanFiles(attachments, files, maxFiles, maxSizeMB, sofar).accepted|
            <= Max(|attachments| + |sofar.accepted|, maxFiles)
    decreases |files|
  {
    if files != [] && |attachments| + |sofar.accepted| < maxFiles {
      if files[0].size > MaxBytes(maxSizeMB) {
        ScanRespectsLimit(attachments, files[1..], maxFiles, maxSizeMB,
                          Scan(sofar.accepted, sofar.alerts + [TooLargeAlert(files[0].name, maxSizeMB)]));
      } else if IsDuplicate(attachments, files[0]) {
        ScanRespectsLimit(attachments, files[1..], maxFiles, maxSizeMB,
                          Scan(sofar.accepted, sofar.alerts + [DuplicateAlert(files[0].name)]));
      } else {
        ScanRespectsLimit(attachments, files[1..], maxFiles, maxSizeMB, Scan(sofar.accepted + [files[0]], sofar.alerts));
      }
    }
  }

  /** Every accepted file is within the size limit and matches no existing
      attachment by name and size. */
  lemma {:induction false} ScanAcceptsOnlyFitting(attachments: seq<FileInfo>, files: seq<FileInfo>, maxFiles: nat, maxSizeMB: nat, sofar: Scan)
    ensures var r := ScanFiles(attachments, files, maxFiles, maxSizeMB, sofar);
      forall k :: |sofar.accepted| <= k < |r.accepted| ==>
        r.accepted[k].size <= MaxBytes(maxSizeMB) && !IsDuplicate(attachments, r.accepted[k])
    decreases |files|
  {
    if files != [] && |attachments| + |sofar.accepted| < maxFiles {
      var next := if files[0].size > MaxBytes(maxSizeMB)
                  then Scan(sofar.accepted, sofar.alerts + [TooLargeAlert(files[0].name, maxSizeMB)])
                  else if IsDuplicate(attachments, files[0])
                  then Scan(sofar.accepted, sofar.alerts + [DuplicateAlert(files[0].name)])
                  else Scan(sofar.accepted + [files[0]], sofar.alerts);
      assert ScanFiles(attachments, files, maxFiles, maxSizeMB, sofar)
             == ScanFiles(attachments, files[1..], maxFiles, maxSizeMB, next);
      ScanAcceptsOnlyFitting(attachments, files[1..], maxFiles, maxSizeMB, next);
      ScanKeepsPrefix(attachments, files[1..], maxFiles, maxSizeMB, next);
    }
  }

  lemma {:induction false} ScanKeepsPrefix(attachments: seq<FileInfo>, files: seq<FileInfo>, maxFiles: nat, maxSizeMB: nat, sofar: Scan)
    ensures sofar.accepted <= ScanFiles(attachments, files, maxFiles, maxSizeMB, sofar).accepted
    decreases |files|
  {
    ScanAcceptsSubsequence(attachments, files, maxFiles, maxSizeMB, sofar);
  }

  /** A file that is too large is skipped and the scan goes on with the
      next one, unlike the file limit, which ends it. */
  lemma LargeFileIsSkipped(attachments: seq<FileInfo>, big: FileInfo, rest: seq<FileInfo>, maxFiles: nat, maxSizeMB: nat)
    requires big.size > MaxBytes(maxSizeMB) && |attachments| < maxFiles
    ensures ScanFiles(attachments, [big] + rest, maxFiles, maxSizeMB, Scan([], [])).accepted
            == ScanFiles(attachments, rest, maxFiles, maxSizeMB, Scan([], [TooLargeAlert(big.name, maxSizeMB)])).accepted
  {
    var fs := [big] + rest;
    assert fs != [] && fs[0] == big && fs[1..] == rest;
    var noAlerts: seq<string> := [];
    assert noAlerts + [TooLargeAlert(big.name, maxSizeMB)] == [TooLargeAlert(big.name, maxSizeMB)];
  }

  /** Once the attachments fill the limit, a non-empty choice adds nothing
      and raises exactly one alert, however many files it holds. */
  lemma FullListAcceptsNothing(attachments: seq<FileInfo>, files: seq<FileInfo>, maxFiles: nat, maxSizeMB: nat)
    requires |attachments| >= maxFiles && files != []
    ensures ScanFiles(attachments, files, maxFiles, maxSizeMB, Scan([], [])) == Scan([], [MaxFilesAlert(maxFiles)])
  {
  }

  /** The duplicate test looks only at the existing attachments: the same
      file chosen twice in one batch is accepted twice. */
  lemma SameFileTwiceInOneBatch(f: FileInfo, maxSizeMB: nat)
    requires f.size <= MaxBytes(maxSizeMB)
    ensures ScanFiles([], [f, f], DefaultMaxFiles, maxSizeMB, Scan([], [])).accepted == [f, f]
  {
    assert !IsDuplicate([], f);
    var none: seq<FileInfo> := [];
    assert none + [f] == [f];
    var s1 := ScanFiles([], [f], DefaultMaxFiles, maxSizeMB, Scan([f], []));
    assert [f, f][1..] == [f];
    assert ScanFiles([], [f, f], DefaultMaxFiles, maxSizeMB, Scan([], [])) == s1;
    assert [f][1..] == [];
    assert s1 == ScanFiles([], [], DefaultMaxFiles, maxSizeMB, Scan([f] + [f], []));
  }

  /** removeAttachment: the entry at index dropped, unless disabled. */
  function RemoveAttachment(attachments: seq<FileInfo>, index: int, disabled: bool): (r: Option<seq<FileInfo>>)
    ensures disabled <==> r.None?
    ensures r.Some? && 0 <= index < |attachments| ==>
      |r.value| == |attachments| - 1 && r.value == attachments[..index] + attachments[index + 1..]
    ensures r.Some? && !(0 <= index < |attachments|) ==> r.value == attachments
  {
    if disabled then None else Some(RemoveAt(attachments, index))
  }
}
