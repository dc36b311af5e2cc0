/** Copying the exported files into the Dropbox app folder (moveExportToDropbox). */
module Dropbox {
  import opened ExportModel
  import opened Paths

  /**
   * What the Dropbox library does, given as inputs: whether the file system of
   * the linked account opens, and the local paths whose remote file cannot be
   * created or written (each an IOException).
   */
  datatype Env = Env(linked: bool, createFails: set<string>, writeFails: set<string>)

  /** The finally block: closes the one handle the method still refers to, if any. */
  function Finally(st: Store, open: Option<string>, out: Outcome<()>): Delivered<()>
  {
    Delivered(if open.Some? then Call(st, DbxClose(open.value)) else st, out)
  }

  /**
   * The copy loop: for each file, create the remote file named after it,
   * write the local bytes into it, delete the local file. `open` is the last
   * handle created, the only one the finally block closes; every IOException
   * becomes an ExporterException that carries only the parameters.
   */
  function WriteAll(st: Store, srcs: seq<string>, env: Env, open: Option<string>): (r: Delivered<()>)
    ensures r.outcome.Ok? ==> forall i :: 0 <= i < |srcs| ==> srcs[i] !in env.createFails && srcs[i] !in env.writeFails
    ensures r.outcome.Thrown? ==> r.outcome.detail == NoDetail
    decreases |srcs|
  {
    if srcs == [] then Finally(st, open, Ok(()))
    else
      var name := StripPathPart(srcs[0]);
      var created := Call(st, DbxCreate(name));
      if srcs[0] in env.createFails then Finally(created, open, Thrown(NoDetail))
      else if srcs[0] !in st.files || srcs[0] in env.writeFails then Finally(created, Some(name), Thrown(NoDetail))
      else
        var r := WriteAll(DeleteLocal(Call(created, DbxWrite(name, st.files[srcs[0]])), srcs[0]), srcs[1..], env, Some(name));
        assert forall i :: 1 <= i < |srcs| ==> srcs[i] == srcs[1..][i - 1];
        r
  }

  /** moveExportToDropbox: an account that cannot be opened ends the move before any file is touched. */
  function MoveToDropbox(st: Store, srcs: seq<string>, env: Env): (r: Delivered<()>)
    ensures !env.linked ==> r == Delivered(st, Thrown(NoDetail))
    ensures env.linked && srcs == [] ==> r == Delivered(st, Ok(()))
  {
    if !env.linked then Delivered(st, Thrown(NoDetail)) else WriteAll(st, srcs, env, None)
  }

  /** The calls of creating, writing and then deleting each file in turn, with no close among them. */
  function WrittenTrace(files: Files, srcs: seq<string>): (t: seq<Event>)
    requires forall i :: 0 <= i < |srcs| ==> srcs[i] in files
    ensures |t| == 3 * |srcs|
    ensures forall e :: e in t ==> !e.DbxClose?
    decreases |srcs|
  {
    if srcs == [] then []
    else
      var name := StripPathPart(srcs[0]);
      [DbxCreate(name), DbxWrite(name, files[srcs[0]]), Deleted(srcs[0])] + WrittenTrace(files, srcs[1..])
  }

  /** The calls of the loop depend only on the contents of the files it writes. */
  lemma {:induction false} WrittenTraceFrame(f1: Files, f2: Files, srcs: seq<string>)
    requires forall i :: 0 <= i < |srcs| ==> srcs[i] in f1 && srcs[i] in f2 && f1[srcs[i]] == f2[srcs[i]]
    ensures WrittenTrace(f1, srcs) == WrittenTrace(f2, srcs)
    decreases |srcs|
  {
    if srcs != [] {
      WrittenTraceFrame(f1, f2, srcs[1..]);
    }
  }

  /** The handle still open after the loop: the last file's, or the one before the loop when there are no files. */
  function LastHandle(srcs: seq<string>, open: Option<string>): Option<string>
  {
    if srcs == [] then open else Some(StripPathPart(srcs[|srcs| - 1]))
  }

  /**
   * When every file exists, no two are the same and every create and write
   * succeeds, each file is created, written with its bytes and deleted, in
   * order, and then only the last handle is closed.
   */
  lemma {:induction false} WritesEveryFile(st: Store, srcs: seq<string>, env: Env, open: Option<string>)
    requires Distinct(srcs)
    requires forall i :: 0 <= i < |srcs| ==> srcs[i] in st.files && srcs[i] !in env.createFails && srcs[i] !in env.writeFails
    ensures WriteAll(st, srcs, env, open)
         == Finally(Store(st.files - Elements(srcs), st.trace + WrittenTrace(st.files, srcs)), LastHandle(srcs, open), Ok(()))
    decreases |srcs|
  {
    if srcs == [] {
      assert Elements(srcs) == {} && st.files - {} == st.files;
    } else {
      var name := StripPathPart(srcs[0]);
      var st1 := Store(st.files - {srcs[0]}, st.trace + [DbxCreate(name), DbxWrite(name, st.files[srcs[0]]), Deleted(srcs[0])]);
      var rest := srcs[1..];
      forall i | 0 <= i < |rest|
        ensures rest[i] in st1.files && rest[i] !in env.createFails && rest[i] !in env.writeFails
        ensures st1.files[rest[i]] == st.files[rest[i]]
      {
        assert rest[i] == srcs[i + 1] && srcs[i + 1] != srcs[0];
      }
      assert Distinct(rest) by {
        forall i, j | 0 <= i < j < |rest| ensures rest[i] != rest[j] {
          assert rest[i] == srcs[i + 1] && rest[j] == srcs[j + 1];
        }
      }
      CopiesFirst(st, srcs, env, open);
      WritesEveryFile(st1, rest, env, Some(name));
      RemoveFirstThenRest(st.files, srcs);
      WrittenShift(st.files, st.trace, srcs);
      assert LastHandle(rest, Some(name)) == LastHandle(srcs, open);
    }
  }

  /** The calls of copying and deleting the first file, then the rest, are the calls of copying and deleting them all. */
  lemma WrittenShift(files: Files, trace: seq<Event>, srcs: seq<string>)
    requires srcs != [] && Distinct(srcs)
    requires forall i :: 0 <= i < |srcs| ==> srcs[i] in files
    ensures var name := StripPathPart(srcs[0]);
      trace + [DbxCreate(name), DbxWrite(name, files[srcs[0]]), Deleted(srcs[0])] + WrittenTrace(files - {srcs[0]}, srcs[1..])
      == trace + WrittenTrace(files, srcs)
  {
    var rest := srcs[1..];
    forall i | 0 <= i < |rest| ensures rest[i] in files - {srcs[0]} {
      assert rest[i] == srcs[i + 1] && srcs[i + 1] != srcs[0];
    }
    WrittenTraceFrame(files - {srcs[0]}, files, rest);
  }

  /**
   * Handle leak in the source: after a successful copy of two or more files,
   * the handle of every file whose name differs from the last file's is never
   * closed; the run issues exactly one close, for the last file.
   */
  lemma OnlyLastHandleClosed(st: Store, srcs: seq<string>, env: Env, i: nat)
    requires env.linked && Distinct(srcs)
    requires forall j :: 0 <= j < |srcs| ==> srcs[j] in st.files && srcs[j] !in env.createFails && srcs[j] !in env.writeFails
    requires i < |srcs| && StripPathPart(srcs[i]) != StripPathPart(srcs[|srcs| - 1])
    ensures var t := MoveToDropbox(st, srcs, env).state.trace;
      && |t| == |st.trace| + 3 * |srcs| + 1
      && t[|st.trace| + 3 * i] == DbxCreate(StripPathPart(srcs[i]))
      && DbxClose(StripPathPart(srcs[i])) !in t[|st.trace|..]
      && t[|t| - 1] == DbxClose(StripPathPart(srcs[|srcs| - 1]))
  {
    WritesEveryFile(st, srcs, env, None);
    var w := WrittenTrace(st.files, srcs);
    var t := MoveToDropbox(st, srcs, env).state.trace;
    assert t[|st.trace|..] == w + [DbxClose(StripPathPart(srcs[|srcs| - 1]))];
    CreatedAt(st.files, srcs, i);
  }

  /** Position 3i of the loop's calls creates the remote file of file i. */
  lemma {:induction false} CreatedAt(files: Files, srcs: seq<string>, i: nat)
    requires forall j :: 0 <= j < |srcs| ==> srcs[j] in files
    requires i < |srcs|
    ensures WrittenTrace(files, srcs)[3 * i] == DbxCreate(StripPathPart(srcs[i]))
    decreases i
  {
    if i > 0 {
      CreatedAt(files, srcs[1..], i - 1);
    }
  }
  /**
   * How the loop ends when file k is the first whose create or write fails:
   * files 0..k-1 are created, written and deleted, file k's remote file is
   * asked for, and the finally block closes the one handle then referred to:
   * file k's after a failed write, otherwise the one before it.
   */
  function StoppedAt(st: Store, srcs: seq<string>, env: Env, open: Option<string>, k: nat): Delivered<()>
    requires k < |srcs| && forall i :: 0 <= i < k ==> srcs[i] in st.files
  {
    Finally(Store(st.files - Elements(srcs[..k]), st.trace + WrittenTrace(st.files, srcs[..k]) + [DbxCreate(StripPathPart(srcs[k]))]),
            if srcs[k] in env.createFails then LastHandle(srcs[..k], open) else Some(StripPathPart(srcs[k])),
            Thrown(NoDetail))
  }

  /** The first file whose create or write fails, file k, ends the loop as StoppedAt says. */
  lemma {:induction false} WriteAllStopsAt(st: Store, srcs: seq<string>, env: Env, open: Option<string>, k: nat)
    requires k < |srcs| && Distinct(srcs)
    requires forall i :: 0 <= i < k ==> srcs[i] in st.files && srcs[i] !in env.createFails && srcs[i] !in env.writeFails
    requires srcs[k] in env.createFails || srcs[k] !in st.files || srcs[k] in env.writeFails
    ensures WriteAll(st, srcs, env, open) == StoppedAt(st, srcs, env, open, k)
    decreases k
  {
    if k == 0 {
      assert srcs[..0] == [] && Elements(srcs[..0]) == {};
      assert st.files - {} == st.files;
    } else {
      var name := StripPathPart(srcs[0]);
      var st1 := Store(st.files - {srcs[0]}, st.trace + [DbxCreate(name), DbxWrite(name, st.files[srcs[0]]), Deleted(srcs[0])]);
      TailBeforeFailure(st, st1, srcs, env, k);
      CopiesFirst(st, srcs, env, open);
      WriteAllStopsAt(st1, srcs[1..], env, Some(name), k - 1);
      StoppedAtShift(st, st1, srcs, env, open, k);
    }
  }

  /** Stopping at file k equals copying file 0 and then stopping at file k-1 of the rest. */
  lemma StoppedAtShift(st: Store, st1: Store, srcs: seq<string>, env: Env, open: Option<string>, k: nat)
    requires 0 < k < |srcs| && Distinct(srcs)
    requires forall i :: 0 <= i < k ==> srcs[i] in st.files
    requires st1 == Store(st.files - {srcs[0]}, st.trace + [DbxCreate(StripPathPart(srcs[0])), DbxWrite(StripPathPart(srcs[0]), st.files[srcs[0]]), Deleted(srcs[0])])
    requires forall i :: 0 <= i < k - 1 ==> srcs[1..][i] in st1.files && st1.files[srcs[1..][i]] == st.files[srcs[1..][i]]
    ensures StoppedAt(st1, srcs[1..], env, Some(StripPathPart(srcs[0])), k - 1) == StoppedAt(st, srcs, env, open, k)
  {
    var rest := srcs[1..];
    assert srcs[..k][0] == srcs[0] && srcs[..k][1..] == rest[..k - 1];
    assert Distinct(srcs[..k]);
    RemoveFirstThenRest(st.files, srcs[..k]);
    WrittenShift(st.files, st.trace, srcs[..k]);
    assert rest[k - 1] == srcs[k];
  }

  /** A first file that exists and whose create and write succeed is copied and deleted before the rest. */
  lemma CopiesFirst(st: Store, srcs: seq<string>, env: Env, open: Option<string>)
    requires srcs != [] && srcs[0] in st.files && srcs[0] !in env.createFails && srcs[0] !in env.writeFails
    ensures var name := StripPathPart(srcs[0]);
      WriteAll(st, srcs, env, open)
      == WriteAll(Store(st.files - {srcs[0]}, st.trace + [DbxCreate(name), DbxWrite(name, st.files[srcs[0]]), Deleted(srcs[0])]),
                  srcs[1..], env, Some(name))
  {
    var name := StripPathPart(srcs[0]);
    assert DeleteLocal(Call(Call(st, DbxCreate(name)), DbxWrite(name, st.files[srcs[0]])), srcs[0])
        == Store(st.files - {srcs[0]}, st.trace + [DbxCreate(name), DbxWrite(name, st.files[srcs[0]]), Deleted(srcs[0])]);
  }

  /** Once the first file is copied and deleted, the rest of the list meets the conditions of WriteAllStopsAt at k-1. */
  lemma TailBeforeFailure(st: Store, st1: Store, srcs: seq<string>, env: Env, k: nat)
    requires 0 < k < |srcs| && Distinct(srcs)
    requires forall i :: 0 <= i < k ==> srcs[i] in st.files && srcs[i] !in env.createFails && srcs[i] !in env.writeFails
    requires srcs[k] in env.createFails || srcs[k] !in st.files || srcs[k] in env.writeFails
    requires st1.files == st.files - {srcs[0]}
    ensures Distinct(srcs[1..])
    ensures forall i :: 0 <= i < k - 1 ==>
      srcs[1..][i] in st1.files && srcs[1..][i] !in env.createFails && srcs[1..][i] !in env.writeFails
      && st1.files[srcs[1..][i]] == st.files[srcs[1..][i]]
    ensures srcs[1..][k - 1] in env.createFails || srcs[1..][k - 1] !in st1.files || srcs[1..][k - 1] in env.writeFails
  {
    var rest := srcs[1..];
    forall i | 0 <= i < k - 1
      ensures rest[i] in st1.files && st1.files[rest[i]] == st.files[rest[i]]
    {
      assert rest[i] == srcs[i + 1] && srcs[i + 1] != srcs[0];
    }
    forall i, j | 0 <= i < j < |rest| ensures rest[i] != rest[j] {
      assert rest[i] == srcs[i + 1] && rest[j] == srcs[j + 1];
    }
    assert rest[k - 1] == srcs[k] && srcs[k] != srcs[0];
  }

  /**
   * A failed create or write of file k fails the move with an exception that
   * carries no cause: files 0..k-1 are on Dropbox and gone from the device,
   * file k and every later file that existed are still on the device, and
   * exactly one handle is closed, last: file k's after a failed write, file
   * k-1's after a failed create, and none when the first create fails.
   */
  lemma StopsAtFirstFailure(st: Store, srcs: seq<string>, env: Env, k: nat)
    requires env.linked && k < |srcs| && Distinct(srcs)
    requires forall i :: 0 <= i < k ==> srcs[i] in st.files && srcs[i] !in env.createFails && srcs[i] !in env.writeFails
    requires srcs[k] in env.createFails || srcs[k] !in st.files || srcs[k] in env.writeFails
    ensures var r := MoveToDropbox(st, srcs, env);
            var closed :=
              if srcs[k] !in env.createFails then [DbxClose(StripPathPart(srcs[k]))]
              else if k == 0 then []
              else [DbxClose(StripPathPart(srcs[k - 1]))];
      && r.outcome == Thrown(NoDetail)
      && (forall i :: 0 <= i < k ==> srcs[i] !in r.state.files)
      && (forall j :: k <= j < |srcs| && srcs[j] in st.files ==> srcs[j] in r.state.files)
      && r.state.trace == st.trace + WrittenTrace(st.files, srcs[..k]) + [DbxCreate(StripPathPart(srcs[k]))] + closed
  {
    WriteAllStopsAt(st, srcs, env, None, k);
    var r := MoveToDropbox(st, srcs, env);
    assert k > 0 ==> srcs[..k][k - 1] == srcs[k - 1];
    forall j | k <= j < |srcs| && srcs[j] in st.files ensures srcs[j] in r.state.files {
      assert srcs[j] !in Elements(srcs[..k]);
    }
  }
}
