/**
 * The download driver (download_Luchia.py:53, 108-137): the output folder,
 * the `.mp4` path of each entry, and the loop that skips entries whose file
 * exists and hands the others to the downloader, recording one outcome per
 * entry. The filesystem is the set of paths that exist; the downloader is a
 * parameter that may fail and may change that set in any way.
 */
module Driver {
  import opened Wrappers
  import opened Text

  const DefaultFolder := "videos"

  /** `answer.strip() or "videos"`. */
  function OutputFolder(answer: string): (folder: string)
    ensures folder != [] && !IsSpace(folder[0]) && !IsSpace(folder[|folder| - 1])
    ensures AllSpace(answer) ==> folder == DefaultFolder
    ensures !AllSpace(answer) ==> folder == Strip(answer) && NonSpace(folder) == NonSpace(answer)
  {
    StripSpec(answer);
    var stripped := Strip(answer);
    if stripped == [] then DefaultFolder else stripped
  }

  /** POSIX `os.path.join(a, b)` for two components. */
  function Join(a: string, b: string): string
  {
    if b != [] && b[0] == '/' then b
    else if a == [] || a[|a| - 1] == '/' then a + b
    else a + "/" + b
  }

  /** `os.path.join(output_folder, f"{video_name}.mp4")`. */
  function MediaPath(folder: string, name: string): string
  {
    Join(folder, name + ".mp4")
  }

  /**
   * For a name without a slash (every sanitised name), the path is the
   * folder, a separator unless the folder already ends in one, the name and
   * `.mp4`; and two such names never share a path.
   */
  lemma MediaPathShape(folder: string, name: string, other: string)
    requires '/' !in name && '/' !in other
    ensures MediaPath(folder, name) ==
      (if folder == [] || folder[|folder| - 1] == '/' then folder else folder + "/") + name + ".mp4"
    ensures MediaPath(folder, name) == MediaPath(folder, other) ==> name == other
  {
    var p, q := MediaPath(folder, name), MediaPath(folder, other);
    var prefix := if folder == [] || folder[|folder| - 1] == '/' then folder else folder + "/";
    assert (name + ".mp4")[0] != '/' by {
      if name != [] { assert (name + ".mp4")[0] == name[0]; }
    }
    assert (other + ".mp4")[0] != '/' by {
      if other != [] { assert (other + ".mp4")[0] == other[0]; }
    }
    assert p == prefix + (name + ".mp4");
    assert q == prefix + (other + ".mp4");
    if p == q {
      assert name + ".mp4" == p[|prefix|..] == other + ".mp4";
      assert name == (name + ".mp4")[..|name|];
      assert other == (other + ".mp4")[..|other|];
    }
  }

  /** The outcome of one entry. */
  datatype Outcome = Skipped | Succeeded | Failed(message: string)

  /** What one downloader call did: its error message if it raised, and the paths that exist afterwards. */
  datatype Attempt = Attempt(error: Option<string>, files: set<string>)

  /**
   * The download collaborator: given the index of the entry (which stands
   * for the moment of the call), the link, the target path and the paths
   * that exist, it reports what the call did.
   */
  type Downloader = (nat, string, string, set<string>) -> Attempt

  /** The outcomes so far, the entries the downloader was called for, and the paths that exist. */
  datatype Report = Report(outcomes: seq<Outcome>, calls: seq<nat>, files: set<string>)

  /** Entry `i` processed against the paths `files` that exist when it is reached. */
  function Step(folder: string, name: string, link: string, i: nat, files: set<string>, download: Downloader): (Outcome, Option<nat>, set<string>)
  {
    var path := MediaPath(folder, name);
    if path in files then (Skipped, None, files)
    else
      var attempt := download(i, link, path, files);
      (if attempt.error.None? then Succeeded else Failed(attempt.error.value), Some(i), attempt.files)
  }

  /**
   * An entry is skipped exactly when its file exists, and then nothing is
   * called and nothing changes. Otherwise the downloader is called once, for
   * this entry's link and path; the outcome is success when the call reports
   * no error and the failure with its message when it raises, and the paths
   * that exist afterwards are the ones the call leaves.
   */
  lemma StepSkipsExisting(folder: string, name: string, link: string, i: nat, files: set<string>, download: Downloader)
    ensures var (outcome, call, after) := Step(folder, name, link, i, files, download);
      && (outcome == Skipped <==> MediaPath(folder, name) in files)
      && (outcome == Skipped <==> call == None)
      && (outcome == Skipped ==> after == files)
      && (call == Some(i) || call == None)
    ensures var (outcome, call, after) := Step(folder, name, link, i, files, download);
      var attempt := download(i, link, MediaPath(folder, name), files);
      outcome != Skipped ==>
        && call == Some(i)
        && after == attempt.files
        && (outcome == Succeeded <==> attempt.error.None?)
        && (attempt.error.Some? ==> outcome == Failed(attempt.error.value))
  {
  }

  /** The first `n` entries processed in order, starting from the paths `files`. */
  function Drive(folder: string, names: seq<string>, links: seq<string>, files: set<string>, download: Downloader, n: nat): (r: Report)
    requires n <= |names| <= |links|
    ensures |r.outcomes| == n
    decreases n
  {
    if n == 0 then Report([], [], files)
    else
      var before := Drive(folder, names, links, files, download, n - 1);
      var (outcome, call, after) := Step(folder, names[n - 1], links[n - 1], n - 1, before.files, download);
      Report(before.outcomes + [outcome], before.calls + (if call.Some? then [call.value] else []), after)
  }

  /** Processing more entries never changes the outcomes or calls of the earlier ones. */
  lemma {:induction false} DrivePrefix(folder: string, names: seq<string>, links: seq<string>, files: set<string>, download: Downloader, m: nat, n: nat)
    requires m <= n <= |names| <= |links|
    ensures var early, late := Drive(folder, names, links, files, download, m), Drive(folder, names, links, files, download, n);
      early.outcomes == late.outcomes[..m] && early.calls <= late.calls
    decreases n
  {
    if m < n {
      DrivePrefix(folder, names, links, files, download, m, n - 1);
      var late := Drive(folder, names, links, files, download, n);
      var mid := Drive(folder, names, links, files, download, n - 1);
      assert mid.outcomes == late.outcomes[..n - 1];
      assert late.outcomes[..n - 1][..m] == late.outcomes[..m];
    }
  }

  /**
   * Entry `i` gets the outcome of `Step` against the paths that exist after
   * the entries before it, whatever those earlier outcomes were: a failure
   * never stops the entries after it.
   */
  lemma DriveOutcomeAt(folder: string, names: seq<string>, links: seq<string>, files: set<string>, download: Downloader, n: nat, i: nat)
    requires i < n <= |names| <= |links|
    ensures var now := Drive(folder, names, links, files, download, i).files;
      Drive(folder, names, links, files, download, n).outcomes[i] == Step(folder, names[i], links[i], i, now, download).0
  {
  }

  /** A downloader that never removes a path. */
  ghost predicate KeepsFiles(download: Downloader)
  {
    forall k, l, p, f :: f <= download(k, l, p, f).files
  }

  /** A downloader whose successful calls leave the target path behind. */
  ghost predicate WritesTarget(download: Downloader)
  {
    forall k, l, p, f :: download(k, l, p, f).error.None? ==> p in download(k, l, p, f).files
  }

  /** Each entry is checked against the live filesystem: with a downloader that removes nothing, paths only accumulate. */
  lemma {:induction false} FilesGrow(folder: string, names: seq<string>, links: seq<string>, files: set<string>, download: Downloader, m: nat, n: nat)
    requires m <= n <= |names| <= |links|
    requires KeepsFiles(download)
    ensures Drive(folder, names, links, files, download, m).files <= Drive(folder, names, links, files, download, n).files
    decreases n
  {
    if m < n {
      FilesGrow(folder, names, links, files, download, m, n - 1);
      var before := Drive(folder, names, links, files, download, n - 1);
      StepSkipsExisting(folder, names[n - 1], links[n - 1], n - 1, before.files, download);
    }
  }

  /**
   * A later entry with the same name as an earlier one that was skipped or
   * downloaded is skipped: the existence check sees the file the earlier
   * entry found or wrote.
   */
  lemma RepeatedNameSkipped(folder: string, names: seq<string>, links: seq<string>, files: set<string>, download: Downloader, n: nat, j: nat, i: nat)
    requires j < i < n <= |names| <= |links|
    requires names[j] == names[i]
    requires KeepsFiles(download) && WritesTarget(download)
    requires Drive(folder, names, links, files, download, n).outcomes[j] in {Skipped, Succeeded}
    ensures Drive(folder, names, links, files, download, n).outcomes[i] == Skipped
  {
    var path := MediaPath(folder, names[j]);
    var early := Drive(folder, names, links, files, download, j).files;
    DriveOutcomeAt(folder, names, links, files, download, n, j);
    StepSkipsExisting(folder, names[j], links[j], j, early, download);
    assert path in Drive(folder, names, links, files, download, j + 1).files;
    FilesGrow(folder, names, links, files, download, j + 1, i);
    var now := Drive(folder, names, links, files, download, i).files;
    DriveOutcomeAt(folder, names, links, files, download, n, i);
    StepSkipsExisting(folder, names[i], links[i], i, now, download);
  }

  /**
   * The calls of a report of `n` entries: strictly increasing entry indices,
   * exactly those of the entries that were not skipped.
   */
  predicate CallsMatchOutcomes(r: Report, n: nat)
  {
    && |r.outcomes| == n
    && (forall k, l :: 0 <= k < l < |r.calls| ==> r.calls[k] < r.calls[l])
    && (forall k :: 0 <= k < |r.calls| ==> r.calls[k] < n)
    && (forall i :: 0 <= i < n ==> (i in r.calls <==> r.outcomes[i] != Skipped))
  }

  /**
   * The downloader is called once for each entry that is not skipped, in
   * entry order, and never for a skipped one.
   */
  lemma {:induction false} DriveCalls(folder: string, names: seq<string>, links: seq<string>, files: set<string>, download: Downloader, n: nat)
    requires n <= |names| <= |links|
    ensures CallsMatchOutcomes(Drive(folder, names, links, files, download, n), n)
    decreases n
  {
    if n > 0 {
      DriveCalls(folder, names, links, files, download, n - 1);
      var before := Drive(folder, names, links, files, download, n - 1);
      var r := Drive(folder, names, links, files, download, n);
      var step := Step(folder, names[n - 1], links[n - 1], n - 1, before.files, download);
      StepSkipsExisting(folder, names[n - 1], links[n - 1], n - 1, before.files, download);
      var added := if step.1.Some? then [n - 1] else [];
      assert r.calls == before.calls + added;
      assert r.outcomes == before.outcomes + [step.0];
      forall i | 0 <= i < n
        ensures i in r.calls <==> r.outcomes[i] != Skipped
      {
        if i < n - 1 {
          assert r.outcomes[i] == before.outcomes[i];
        }
      }
    }
  }

  /**
   * The driver loop: for each entry in order, skip it when its file exists,
   * otherwise call the downloader and record success or the error it raised.
   */
  method DownloadAll(folder: string, names: seq<string>, links: seq<string>, files: set<string>, download: Downloader)
    returns (outcomes: seq<Outcome>, calls: seq<nat>, filesAfter: set<string>)
    requires |names| <= |links|
    ensures |outcomes| == |names|
    ensures Report(outcomes, calls, filesAfter) == Drive(folder, names, links, files, download, |names|)
  {
    outcomes, calls, filesAfter := [], [], files;
    for index := 0 to |names|
      invariant Report(outcomes, calls, filesAfter) == Drive(folder, names, links, files, download, index)
    {
      var path := MediaPath(folder, names[index]);
      if path in filesAfter {
        outcomes := outcomes + [Skipped];
        continue;
      }
      var attempt := download(index, links[index], path, filesAfter);
      filesAfter := attempt.files;
      if attempt.error.None? {
        outcomes := outcomes + [Succeeded];
      } else {
        outcomes := outcomes + [Failed(attempt.error.value)];
      }
      calls := calls + [index];
    }
  }

  /** An entry whose file is already there is skipped and the downloader is not called. */
  lemma ExistingFileSkipped(download: Downloader)
    ensures Drive(DefaultFolder, ["Foo"], ["http://x"], {"videos/Foo.mp4"}, download, 1)
      == Report([Skipped], [], {"videos/Foo.mp4"})
  {
    assert MediaPath(DefaultFolder, "Foo") == "videos/Foo.mp4";
  }

  /** When the second of three downloads raises, the first and third still succeed. */
  lemma FailureDoesNotStopBatch()
    ensures var download := (i: nat, link: string, path: string, files: set<string>) =>
        if i == 1 then Attempt(Some("unavailable"), files) else Attempt(None, files + {path});
      Drive(DefaultFolder, ["a", "b", "c"], ["x", "y", "z"], {}, download, 3).outcomes
        == [Succeeded, Failed("unavailable"), Succeeded]
  {
    assert MediaPath(DefaultFolder, "a") == "videos/a.mp4";
    assert MediaPath(DefaultFolder, "b") == "videos/b.mp4";
    assert MediaPath(DefaultFolder, "c") == "videos/c.mp4";
  }
  /** The second entry of a repeated name finds the file the first one wrote and is skipped. */
  lemma DuplicateNameSkipped()
    ensures var download := (i: nat, link: string, path: string, files: set<string>) => Attempt(None, files + {path});
      Drive(DefaultFolder, ["a", "a"], ["x", "y"], {}, download, 2) == Report([Succeeded, Skipped], [0], {"videos/a.mp4"})
  {
    assert MediaPath(DefaultFolder, "a") == "videos/a.mp4";
  }
}
