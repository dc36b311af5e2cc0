/** Uploading the exported files to an ownCloud server (moveExportToOwnCloud). */
module OwnCloud {
  import opened ExportModel
  import opened Paths

  /** The ownCloud preferences the upload reads. */
  datatype Settings = Settings(sync: bool, server: string, username: string, dir: string)

  /**
   * What the ownCloud library answers, given as inputs: the log message of
   * each local path whose upload the server rejects, and the log message of
   * an upload whose local file is not on the device.
   */
  datatype Results = Results(fails: map<string, string>, missingLocal: string)

  const NotEnabled: string := "ownCloud not enabled."

  /** The remote path of a local file: the ownCloud directory, a separator, and the file's name. */
  function RemotePath(dir: string, local: string): string
  {
    dir + [Separator] + StripPathPart(local)
  }

  /** The calls of uploading, then deleting, each file in turn. */
  function UploadedTrace(srcs: seq<string>, dir: string, mimeType: string): (t: seq<Event>)
    ensures |t| == 2 * |srcs|
    decreases |srcs|
  {
    if srcs == [] then []
    else [OcUpload(srcs[0], RemotePath(dir, srcs[0]), mimeType), Deleted(srcs[0])] + UploadedTrace(srcs[1..], dir, mimeType)
  }

  /**
   * The upload loop: each file is uploaded to its remote path and deleted
   * locally once its upload succeeded; the first failed upload throws with
   * its log message. An upload fails when its local file is no longer on the
   * device (a path listed twice is gone after its first upload) or when the
   * server rejects it.
   */
  function UploadAll(st: Store, srcs: seq<string>, dir: string, mimeType: string, results: Results): (r: Delivered<()>)
    ensures r.outcome.Ok? ==> forall i :: 0 <= i < |srcs| ==> srcs[i] in st.files && srcs[i] !in results.fails
    ensures r.outcome.Thrown? ==> r.outcome.detail.Message?
    decreases |srcs|
  {
    if srcs == [] then Delivered(st, Ok(()))
    else
      var st1 := Call(st, OcUpload(srcs[0], RemotePath(dir, srcs[0]), mimeType));
      if srcs[0] !in st.files then Delivered(st1, Thrown(Message(results.missingLocal)))
      else if srcs[0] in results.fails then Delivered(st1, Thrown(Message(results.fails[srcs[0]])))
      else
        var r := UploadAll(DeleteLocal(st1, srcs[0]), srcs[1..], dir, mimeType, results);
        assert forall i :: 1 <= i < |srcs| ==> srcs[i] == srcs[1..][i - 1];
        r
  }

  /** The log message of the upload of file `src` that fails. */
  function FailureMessage(files: Files, src: string, results: Results): string
  {
    if src !in files then results.missingLocal
    else if src in results.fails then results.fails[src]
    else []
  }

  /**
   * moveExportToOwnCloud: with sync off it throws before reading the
   * credentials; otherwise it connects, asks for the remote directory when one
   * is set (the result of that request is only logged), and uploads.
   */
  function MoveToOwnCloud(st: Store, srcs: seq<string>, settings: Settings, folderCreated: bool,
                          mimeType: string, results: Results): (r: Delivered<()>)
    ensures !settings.sync ==> r.state == st && r.outcome == Thrown(Message(NotEnabled))
    ensures settings.sync ==> |r.state.trace| > |st.trace| && r.state.trace[|st.trace|] == OcConnect(settings.server, settings.username)
  {
    if !settings.sync then Delivered(st, Thrown(Message(NotEnabled)))
    else
      var connected := Call(st, OcConnect(settings.server, settings.username));
      var prepared := if |settings.dir| != 0 then Call(connected, OcCreateFolder(settings.dir, folderCreated)) else connected;
      UploadAllKeepsTrace(prepared, srcs, settings.dir, mimeType, results);
      UploadAll(prepared, srcs, settings.dir, mimeType, results)
  }

  /** The upload loop only appends to the calls issued before it. */
  lemma {:induction false} UploadAllKeepsTrace(st: Store, srcs: seq<string>, dir: string, mimeType: string, results: Results)
    ensures var t := UploadAll(st, srcs, dir, mimeType, results).state.trace;
            |t| >= |st.trace| && t[..|st.trace|] == st.trace
    decreases |srcs|
  {
    if srcs != [] && srcs[0] in st.files && srcs[0] !in results.fails {
      var st1 := Call(st, OcUpload(srcs[0], RemotePath(dir, srcs[0]), mimeType));
      UploadAllKeepsTrace(DeleteLocal(st1, srcs[0]), srcs[1..], dir, mimeType, results);
    }
  }

  /** Every file is on the device and the server accepts its upload. */
  ghost predicate Uploadable(files: Files, srcs: seq<string>, results: Results)
  {
    forall i :: 0 <= i < |srcs| ==> srcs[i] in files && srcs[i] !in results.fails
  }

  /**
   * When every file of a list without repeats is on the device and accepted,
   * each one is uploaded and then deleted, in order, and the loop completes.
   */
  lemma {:induction false} UploadsEveryFile(st: Store, srcs: seq<string>, dir: string, mimeType: string, results: Results)
    requires Distinct(srcs) && Uploadable(st.files, srcs, results)
    ensures UploadAll(st, srcs, dir, mimeType, results)
         == Delivered(Store(st.files - Elements(srcs), st.trace + UploadedTrace(srcs, dir, mimeType)), Ok(()))
    decreases |srcs|
  {
    if srcs == [] {
      assert Elements(srcs) == {} && st.files - {} == st.files;
    } else {
      var st1 := Store(st.files - {srcs[0]}, st.trace + [OcUpload(srcs[0], RemotePath(dir, srcs[0]), mimeType), Deleted(srcs[0])]);
      RestStillUploadable(st.files, st1.files, srcs, results);
      UploadsFirst(st, srcs, dir, mimeType, results);
      UploadsEveryFile(st1, srcs[1..], dir, mimeType, results);
      RemoveFirstThenRest(st.files, srcs);
      UploadedShift(st.trace, srcs, dir, mimeType);
    }
  }

  /** Deleting the first file of a list without repeats leaves the others on the device. */
  lemma RestStillUploadable(files: Files, files1: Files, srcs: seq<string>, results: Results)
    requires srcs != [] && Distinct(srcs) && Uploadable(files, srcs, results)
    requires files1 == files - {srcs[0]}
    ensures Distinct(srcs[1..]) && Uploadable(files1, srcs[1..], results)
  {
    var rest := srcs[1..];
    forall i | 0 <= i < |rest| ensures rest[i] in files1 && rest[i] !in results.fails {
      assert rest[i] == srcs[i + 1] && srcs[i + 1] != srcs[0];
    }
    forall i, j | 0 <= i < j < |rest| ensures rest[i] != rest[j] {
      assert rest[i] == srcs[i + 1] && rest[j] == srcs[j + 1];
    }
  }

  /** A first file on the device whose upload succeeds is uploaded and deleted before the rest. */
  lemma UploadsFirst(st: Store, srcs: seq<string>, dir: string, mimeType: string, results: Results)
    requires srcs != [] && srcs[0] in st.files && srcs[0] !in results.fails
    ensures UploadAll(st, srcs, dir, mimeType, results)
         == UploadAll(Store(st.files - {srcs[0]}, st.trace + [OcUpload(srcs[0], RemotePath(dir, srcs[0]), mimeType), Deleted(srcs[0])]),
                      srcs[1..], dir, mimeType, results)
  {
    var e := OcUpload(srcs[0], RemotePath(dir, srcs[0]), mimeType);
    assert DeleteLocal(Call(st, e), srcs[0]) == Store(st.files - {srcs[0]}, st.trace + [e, Deleted(srcs[0])]);
  }

  /** The calls of uploading and deleting the first file, then the rest, are the calls of uploading and deleting them all. */
  lemma UploadedShift(trace: seq<Event>, srcs: seq<string>, dir: string, mimeType: string)
    requires srcs != []
    ensures trace + [OcUpload(srcs[0], RemotePath(dir, srcs[0]), mimeType), Deleted(srcs[0])] + UploadedTrace(srcs[1..], dir, mimeType)
         == trace + UploadedTrace(srcs, dir, mimeType)
  {
  }

  /**
   * In a list without repeats, the first failed upload, of file k, throws
   * with its log message (the file is not on the device, or the server
   * rejects it): files 0..k-1 are already uploaded and deleted, file k and
   * the later ones stay where they were, and no later upload is attempted.
   */
  lemma {:induction false} StopsAtFirstFailedUpload(st: Store, srcs: seq<string>, dir: string, mimeType: string,
                                                     results: Results, k: nat)
    requires k < |srcs| && Distinct(srcs)
    requires forall i :: 0 <= i < k ==> srcs[i] in st.files && srcs[i] !in results.fails
    requires srcs[k] !in st.files || srcs[k] in results.fails
    ensures UploadAll(st, srcs, dir, mimeType, results)
         == Delivered(Store(st.files - Elements(srcs[..k]),
                            st.trace + UploadedTrace(srcs[..k], dir, mimeType) + [OcUpload(srcs[k], RemotePath(dir, srcs[k]), mimeType)]),
                      Thrown(Message(FailureMessage(st.files, srcs[k], results))))
    decreases k
  {
    if k == 0 {
      assert srcs[..0] == [] && Elements(srcs[..0]) == {};
      assert st.files - {} == st.files;
    } else {
      var st1 := Store(st.files - {srcs[0]}, st.trace + [OcUpload(srcs[0], RemotePath(dir, srcs[0]), mimeType), Deleted(srcs[0])]);
      UploadsFirst(st, srcs, dir, mimeType, results);
      TailBeforeFailedUpload(st.files, st1.files, srcs, results, k);
      StopsAtFirstFailedUpload(st1, srcs[1..], dir, mimeType, results, k - 1);
      assert srcs[..k][0] == srcs[0] && srcs[..k][1..] == srcs[1..][..k - 1];
      RemoveFirstThenRest(st.files, srcs[..k]);
      UploadedShift(st.trace, srcs[..k], dir, mimeType);
    }
  }

  /** After the first file of a list without repeats is uploaded, the rest meet the same conditions, one position earlier. */
  lemma TailBeforeFailedUpload(files: Files, files1: Files, srcs: seq<string>, results: Results, k: nat)
    requires 0 < k < |srcs| && Distinct(srcs)
    requires forall i :: 0 <= i < k ==> srcs[i] in files && srcs[i] !in results.fails
    requires srcs[k] !in files || srcs[k] in results.fails
    requires files1 == files - {srcs[0]}
    ensures Distinct(srcs[1..])
    ensures forall i :: 0 <= i < k - 1 ==> srcs[1..][i] in files1 && srcs[1..][i] !in results.fails
    ensures srcs[1..][k - 1] !in files1 || srcs[1..][k - 1] in results.fails
    ensures FailureMessage(files1, srcs[1..][k - 1], results) == FailureMessage(files, srcs[k], results)
  {
    var rest := srcs[1..];
    forall i | 0 <= i < k - 1 ensures rest[i] in files1 && rest[i] !in results.fails {
      assert rest[i] == srcs[i + 1] && srcs[i + 1] != srcs[0];
    }
    forall i, j | 0 <= i < j < |rest| ensures rest[i] != rest[j] {
      assert rest[i] == srcs[i + 1] && rest[j] == srcs[j + 1];
    }
    assert rest[k - 1] == srcs[k] && srcs[k] != srcs[0];
  }

  /**
   * A path listed twice fails on its second upload even when the server
   * accepts it: its first upload already deleted the local file.
   */
  lemma RepeatedPathFails(st: Store, p: string, dir: string, mimeType: string, results: Results)
    requires p in st.files && p !in results.fails
    ensures UploadAll(st, [p, p], dir, mimeType, results).outcome == Thrown(Message(results.missingLocal))
    ensures p !in UploadAll(st, [p, p], dir, mimeType, results).state.files
  {
    var st1 := DeleteLocal(Call(st, OcUpload(p, RemotePath(dir, p), mimeType)), p);
    assert [p, p][1..] == [p];
    assert UploadAll(st, [p, p], dir, mimeType, results) == UploadAll(st1, [p], dir, mimeType, results);
  }

  /** Every remote path names the local file it was uploaded from. */
  lemma RemotePathNamesFile(dir: string, local: string)
    requires StripPathPart(local) != []
    ensures StripPathPart(RemotePath(dir, local)) == StripPathPart(local)
  {
    StripPathPartIsName(local);
    NameOfRemotePath(dir, StripPathPart(local));
  }

  /** What the upload loop does to files and how it ends does not depend on the calls issued before it. */
  lemma {:induction false} UploadAllIgnoresEarlierCalls(st: Store, t: seq<Event>, srcs: seq<string>, dir: string,
                                                         mimeType: string, results: Results)
    ensures UploadAll(st, srcs, dir, mimeType, results).outcome
         == UploadAll(st.(trace := t), srcs, dir, mimeType, results).outcome
    ensures UploadAll(st, srcs, dir, mimeType, results).state.files
         == UploadAll(st.(trace := t), srcs, dir, mimeType, results).state.files
    decreases |srcs|
  {
    if srcs != [] && srcs[0] in st.files && srcs[0] !in results.fails {
      var e := OcUpload(srcs[0], RemotePath(dir, srcs[0]), mimeType);
      UploadAllIgnoresEarlierCalls(DeleteLocal(Call(st, e), srcs[0]), DeleteLocal(Call(st.(trace := t), e), srcs[0]).trace,
                                   srcs[1..], dir, mimeType, results);
    }
  }

  /** A failed folder creation is only recorded: the outcome and the files are the same either way. */
  lemma FolderResultOnlyLogged(st: Store, srcs: seq<string>, settings: Settings, mimeType: string, results: Results)
    ensures MoveToOwnCloud(st, srcs, settings, true, mimeType, results).outcome
         == MoveToOwnCloud(st, srcs, settings, false, mimeType, results).outcome
    ensures MoveToOwnCloud(st, srcs, settings, true, mimeType, results).state.files
         == MoveToOwnCloud(st, srcs, settings, false, mimeType, results).state.files
  {
    if settings.sync && |settings.dir| != 0 {
      var connected := Call(st, OcConnect(settings.server, settings.username));
      var created := Call(connected, OcCreateFolder(settings.dir, true));
      UploadAllIgnoresEarlierCalls(created, Call(connected, OcCreateFolder(settings.dir, false)).trace,
                                   srcs, settings.dir, mimeType, results);
    }
  }
}
