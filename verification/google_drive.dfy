/** Creating the exported files in the app folder on Google Drive (moveExportToGoogleDrive). */
module GoogleDrive {
  import opened ExportModel
  import opened Paths

  /**
   * What the Drive API and the local streams do, given as inputs: whether new
   * file contents could be created, the local paths whose createFile call
   * reports a failed status, and the local paths whose copy into the contents
   * stream (opening, reading, writing or flushing) raises an IOException.
   */
  datatype Env = Env(contentsCreated: bool, createFails: set<string>, readFails: set<string>)

  const ContentsFailed: string := "Error while trying to create new file contents"
  const NoResult: string := "No result received"
  const CreateFailed: string := "Error creating file in Google Drive"

  /** The check after the loop: only the status of the last createFile call is looked at. */
  function CheckLast(st: Store, last: Option<bool>): Delivered<()>
  {
    if last.None? then Delivered(st, Thrown(Message(NoResult)))
    else if !last.value then Delivered(st, Thrown(Message(CreateFailed)))
    else Delivered(st, Ok(()))
  }

  /** Every file exists and copies into the contents stream without an IOException. */
  ghost predicate Readable(files: Files, srcs: seq<string>, env: Env)
  {
    forall i :: 0 <= i < |srcs| ==> srcs[i] in files && srcs[i] !in env.readFails
  }

  /**
   * The write loop. All files share one contents buffer: each file's bytes are
   * appended to it, the local file is deleted, and a file named after it is
   * created from the whole buffer. `last` is the status of the latest
   * createFile call. A file that is missing, or whose copy into the stream
   * fails, throws its IOException before it is deleted; no later file is
   * touched and no status is looked at.
   */
  function WriteAll(st: Store, srcs: seq<string>, mimeType: string, env: Env,
                    buffer: seq<byte>, last: Option<bool>): (r: Delivered<()>)
    ensures r.outcome.Ok? ==> if srcs == [] then last == Some(true) else srcs[|srcs| - 1] !in env.createFails
    decreases |srcs|
  {
    if srcs == [] then CheckLast(st, last)
    else if srcs[0] !in st.files || srcs[0] in env.readFails then Delivered(st, Thrown(IOCause(srcs[0])))
    else
      var buf := buffer + st.files[srcs[0]];
      var st1 := Call(DeleteLocal(st, srcs[0]), DriveCreateFile(StripPathPart(srcs[0]), mimeType, buf));
      var r := WriteAll(st1, srcs[1..], mimeType, env, buf, Some(srcs[0] !in env.createFails));
      assert |srcs| > 1 ==> srcs[1..][|srcs[1..]| - 1] == srcs[|srcs| - 1];
      r
  }

  /**
   * moveExportToGoogleDrive: asks for new contents first and throws, touching
   * no file, when that fails; an empty file list yields no result and fails.
   */
  function MoveToGoogleDrive(st: Store, srcs: seq<string>, mimeType: string, env: Env): (r: Delivered<()>)
    ensures !env.contentsCreated ==> r.state.files == st.files && r.outcome == Thrown(Message(ContentsFailed))
    ensures env.contentsCreated && srcs == [] ==> r.state.files == st.files && r.outcome == Thrown(Message(NoResult))
    ensures |r.state.trace| > |st.trace| && r.state.trace[|st.trace|] == DriveNewContents
  {
    var st1 := Call(st, DriveNewContents);
    if !env.contentsCreated then Delivered(st1, Thrown(Message(ContentsFailed)))
    else
      WriteAllKeepsTrace(st1, srcs, mimeType, env, [], None);
      WriteAll(st1, srcs, mimeType, env, [], None)
  }

  /** The write loop only appends to the calls issued before it. */
  lemma {:induction false} WriteAllKeepsTrace(st: Store, srcs: seq<string>, mimeType: string, env: Env,
                                              buffer: seq<byte>, last: Option<bool>)
    ensures var t := WriteAll(st, srcs, mimeType, env, buffer, last).state.trace;
            |t| >= |st.trace| && t[..|st.trace|] == st.trace
    decreases |srcs|
  {
    if srcs != [] && srcs[0] in st.files && srcs[0] !in env.readFails {
      var buf := buffer + st.files[srcs[0]];
      var st1 := Call(DeleteLocal(st, srcs[0]), DriveCreateFile(StripPathPart(srcs[0]), mimeType, buf));
      WriteAllKeepsTrace(st1, srcs[1..], mimeType, env, buf, Some(srcs[0] !in env.createFails));
    }
  }

  /** After deleting the first file, the rest of a list of distinct readable files is still readable, with the same bytes. */
  lemma RestStillReadable(st: Store, st1: Store, srcs: seq<string>, env: Env)
    requires srcs != [] && Distinct(srcs) && Readable(st.files, srcs, env)
    requires st1.files == st.files - {srcs[0]}
    ensures Distinct(srcs[1..]) && Readable(st1.files, srcs[1..], env)
    ensures forall i :: 0 <= i < |srcs[1..]| ==> st1.files[srcs[1..][i]] == st.files[srcs[1..][i]]
  {
    var rest := srcs[1..];
    forall i | 0 <= i < |rest|
      ensures rest[i] in st1.files && rest[i] !in env.readFails && st1.files[rest[i]] == st.files[rest[i]]
    {
      assert rest[i] == srcs[i + 1] && srcs[i + 1] != srcs[0];
    }
    forall i, j | 0 <= i < j < |rest| ensures rest[i] != rest[j] {
      assert rest[i] == srcs[i + 1] && rest[j] == srcs[j + 1];
    }
  }

  /**
   * Only the last result decides: when every file can be read, the loop
   * succeeds exactly when the last createFile succeeds, whatever the earlier
   * calls reported.
   */
  lemma {:induction false} OnlyLastResultCounts(st: Store, srcs: seq<string>, mimeType: string, env: Env,
                                                buffer: seq<byte>, last: Option<bool>)
    requires srcs != [] && Distinct(srcs) && Readable(st.files, srcs, env)
    ensures WriteAll(st, srcs, mimeType, env, buffer, last).outcome.Ok? <==> srcs[|srcs| - 1] !in env.createFails
    decreases |srcs|
  {
    var buf := buffer + st.files[srcs[0]];
    var st1 := Call(DeleteLocal(st, srcs[0]), DriveCreateFile(StripPathPart(srcs[0]), mimeType, buf));
    if |srcs| > 1 {
      RestStillReadable(st, st1, srcs, env);
      OnlyLastResultCounts(st1, srcs[1..], mimeType, env, buf, Some(srcs[0] !in env.createFails));
    }
  }

  /** The bytes of a list of files, one after the other. */
  function Joined(files: Files, srcs: seq<string>): seq<byte>
    requires forall i :: 0 <= i < |srcs| ==> srcs[i] in files
    decreases |srcs|
  {
    if srcs == [] then [] else files[srcs[0]] + Joined(files, srcs[1..])
  }

  /** The calls of the write loop when every file can be read: delete each file, then create it from the grown buffer. */
  function DriveTrace(files: Files, srcs: seq<string>, mimeType: string, buffer: seq<byte>): (t: seq<Event>)
    requires forall i :: 0 <= i < |srcs| ==> srcs[i] in files
    ensures |t| == 2 * |srcs|
    decreases |srcs|
  {
    if srcs == [] then []
    else
      var buf := buffer + files[srcs[0]];
      [Deleted(srcs[0]), DriveCreateFile(StripPathPart(srcs[0]), mimeType, buf)] + DriveTrace(files, srcs[1..], mimeType, buf)
  }

  /** The calls of the loop depend only on the contents of the files it reads. */
  lemma {:induction false} DriveTraceFrame(f1: Files, f2: Files, srcs: seq<string>, mimeType: string, buffer: seq<byte>)
    requires forall i :: 0 <= i < |srcs| ==> srcs[i] in f1 && srcs[i] in f2 && f1[srcs[i]] == f2[srcs[i]]
    ensures DriveTrace(f1, srcs, mimeType, buffer) == DriveTrace(f2, srcs, mimeType, buffer)
    decreases |srcs|
  {
    if srcs != [] {
      DriveTraceFrame(f1, f2, srcs[1..], mimeType, buffer + f1[srcs[0]]);
    }
  }

  /** When every file can be read, the loop deletes every file and issues exactly the calls of DriveTrace. */
  lemma {:induction false} WritesEveryFile(st: Store, srcs: seq<string>, mimeType: string, env: Env,
                                           buffer: seq<byte>, last: Option<bool>)
    requires Distinct(srcs) && Readable(st.files, srcs, env)
    ensures WriteAll(st, srcs, mimeType, env, buffer, last).state
         == Store(st.files - Elements(srcs), st.trace + DriveTrace(st.files, srcs, mimeType, buffer))
    decreases |srcs|
  {
    if srcs == [] {
      assert Elements(srcs) == {} && st.files - {} == st.files;
    } else {
      var buf := buffer + st.files[srcs[0]];
      var st1 := Store(st.files - {srcs[0]}, st.trace + [Deleted(srcs[0]), DriveCreateFile(StripPathPart(srcs[0]), mimeType, buf)]);
      RestStillReadable(st, st1, srcs, env);
      CreatesFirst(st, srcs, mimeType, env, buffer, last);
      WritesEveryFile(st1, srcs[1..], mimeType, env, buf, Some(srcs[0] !in env.createFails));
      RemoveFirstThenRest(st.files, srcs);
      DriveShift(st.files, st.trace, srcs, mimeType, buffer);
    }
  }

  /** A first file that can be read is deleted and created before the rest. */
  lemma CreatesFirst(st: Store, srcs: seq<string>, mimeType: string, env: Env, buffer: seq<byte>, last: Option<bool>)
    requires srcs != [] && srcs[0] in st.files && srcs[0] !in env.readFails
    ensures var buf := buffer + st.files[srcs[0]];
      WriteAll(st, srcs, mimeType, env, buffer, last)
      == WriteAll(Store(st.files - {srcs[0]}, st.trace + [Deleted(srcs[0]), DriveCreateFile(StripPathPart(srcs[0]), mimeType, buf)]),
                  srcs[1..], mimeType, env, buf, Some(srcs[0] !in env.createFails))
  {
    var buf := buffer + st.files[srcs[0]];
    assert Call(DeleteLocal(st, srcs[0]), DriveCreateFile(StripPathPart(srcs[0]), mimeType, buf))
        == Store(st.files - {srcs[0]}, st.trace + [Deleted(srcs[0]), DriveCreateFile(StripPathPart(srcs[0]), mimeType, buf)]);
  }

  /** The calls of deleting and creating the first file, then the rest, are the calls of doing so for them all. */
  lemma DriveShift(files: Files, trace: seq<Event>, srcs: seq<string>, mimeType: string, buffer: seq<byte>)
    requires srcs != [] && Distinct(srcs)
    requires forall i :: 0 <= i < |srcs| ==> srcs[i] in files
    ensures var buf := buffer + files[srcs[0]];
      trace + [Deleted(srcs[0]), DriveCreateFile(StripPathPart(srcs[0]), mimeType, buf)]
        + DriveTrace(files - {srcs[0]}, srcs[1..], mimeType, buf)
      == trace + DriveTrace(files, srcs, mimeType, buffer)
  {
    var rest := srcs[1..];
    forall i | 0 <= i < |rest| ensures rest[i] in files - {srcs[0]} {
      assert rest[i] == srcs[i + 1] && srcs[i + 1] != srcs[0];
    }
    DriveTraceFrame(files - {srcs[0]}, files, rest, mimeType, buffer + files[srcs[0]]);
  }

  /**
   * The first file that cannot be read, file k, ends the loop with its
   * IOException: files 0..k-1 are already deleted and created remotely, file
   * k and the later ones stay on the device, nothing else is called, and no
   * createFile status is looked at.
   */
  lemma {:induction false} StopsAtUnreadableFile(st: Store, srcs: seq<string>, mimeType: string, env: Env,
                                                 buffer: seq<byte>, last: Option<bool>, k: nat)
    requires k < |srcs| && Distinct(srcs) && Readable(st.files, srcs[..k], env)
    requires srcs[k] !in st.files || srcs[k] in env.readFails
    ensures WriteAll(st, srcs, mimeType, env, buffer, last)
         == Delivered(Store(st.files - Elements(srcs[..k]), st.trace + DriveTrace(st.files, srcs[..k], mimeType, buffer)),
                      Thrown(IOCause(srcs[k])))
    decreases k
  {
    if k == 0 {
      assert srcs[..0] == [] && Elements(srcs[..0]) == {};
      assert st.files - {} == st.files;
    } else {
      var buf := buffer + st.files[srcs[0]];
      var st1 := Store(st.files - {srcs[0]}, st.trace + [Deleted(srcs[0]), DriveCreateFile(StripPathPart(srcs[0]), mimeType, buf)]);
      TailBeforeUnreadable(st, st1, srcs, env, k);
      CreatesFirst(st, srcs, mimeType, env, buffer, last);
      StopsAtUnreadableFile(st1, srcs[1..], mimeType, env, buf, Some(srcs[0] !in env.createFails), k - 1);
      assert srcs[..k][0] == srcs[0] && srcs[..k][1..] == srcs[1..][..k - 1];
      assert Distinct(srcs[..k]);
      RemoveFirstThenRest(st.files, srcs[..k]);
      DriveShift(st.files, st.trace, srcs[..k], mimeType, buffer);
    }
  }

  /** Once the first file is deleted, the rest of the list meets the conditions of StopsAtUnreadableFile at k-1. */
  lemma TailBeforeUnreadable(st: Store, st1: Store, srcs: seq<string>, env: Env, k: nat)
    requires 0 < k < |srcs| && Distinct(srcs) && Readable(st.files, srcs[..k], env)
    requires srcs[k] !in st.files || srcs[k] in env.readFails
    requires st1.files == st.files - {srcs[0]}
    ensures Distinct(srcs[1..]) && Readable(st1.files, srcs[1..][..k - 1], env)
    ensures srcs[1..][k - 1] !in st1.files || srcs[1..][k - 1] in env.readFails
  {
    var rest := srcs[1..];
    forall i, j | 0 <= i < j < |rest| ensures rest[i] != rest[j] {
      assert rest[i] == srcs[i + 1] && rest[j] == srcs[j + 1];
    }
    forall i | 0 <= i < k - 1 ensures rest[i] in st1.files && rest[i] !in env.readFails {
      assert rest[i] == srcs[..k][i + 1] && srcs[i + 1] != srcs[0];
    }
    assert rest[k - 1] == srcs[k];
  }

  /** Calls 2i and 2i+1 of the loop delete file i and create it from the bytes of files 0..i. */
  lemma {:induction false} CreatedFrom(files: Files, srcs: seq<string>, mimeType: string, buffer: seq<byte>, i: nat)
    requires forall j :: 0 <= j < |srcs| ==> srcs[j] in files
    requires i < |srcs|
    ensures DriveTrace(files, srcs, mimeType, buffer)[2 * i] == Deleted(srcs[i])
    ensures DriveTrace(files, srcs, mimeType, buffer)[2 * i + 1]
         == DriveCreateFile(StripPathPart(srcs[i]), mimeType, buffer + Joined(files, srcs[..i + 1]))
    decreases i
  {
    var buf := buffer + files[srcs[0]];
    if i == 0 {
      assert srcs[..1][1..] == [];
      assert Joined(files, srcs[..1]) == files[srcs[0]] + Joined(files, srcs[..1][1..]);
    } else {
      CreatedFrom(files, srcs[1..], mimeType, buf, i - 1);
      assert srcs[..i + 1][1..] == srcs[1..][..i];
      assert Joined(files, srcs[..i + 1]) == files[srcs[0]] + Joined(files, srcs[1..][..i]);
    }
  }

  /**
   * Ordering on Drive: when every file can be read, for every file i the loop
   * first deletes the local file and then creates the remote one, from a
   * buffer that holds the bytes of files 0..i one after the other.
   */
  lemma DeletesBeforeEachCreate(st: Store, srcs: seq<string>, mimeType: string, env: Env,
                                buffer: seq<byte>, last: Option<bool>)
    requires Distinct(srcs) && Readable(st.files, srcs, env)
    ensures var t := WriteAll(st, srcs, mimeType, env, buffer, last).state.trace;
      && |t| == |st.trace| + 2 * |srcs|
      && forall i :: 0 <= i < |srcs| ==>
           && t[|st.trace| + 2 * i] == Deleted(srcs[i])
           && t[|st.trace| + 2 * i + 1] == DriveCreateFile(StripPathPart(srcs[i]), mimeType, buffer + Joined(st.files, srcs[..i + 1]))
  {
    WritesEveryFile(st, srcs, mimeType, env, buffer, last);
    var d := DriveTrace(st.files, srcs, mimeType, buffer);
    var t := st.trace + d;
    forall i | 0 <= i < |srcs|
      ensures t[|st.trace| + 2 * i] == Deleted(srcs[i])
      ensures t[|st.trace| + 2 * i + 1] == DriveCreateFile(StripPathPart(srcs[i]), mimeType, buffer + Joined(st.files, srcs[..i + 1]))
    {
      CreatedFrom(st.files, srcs, mimeType, buffer, i);
      assert t[|st.trace| + 2 * i] == d[2 * i] && t[|st.trace| + 2 * i + 1] == d[2 * i + 1];
    }
  }
}
