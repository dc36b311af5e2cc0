/**
 * The export task as the source runs it: an object whose fields the
 * background step fills in, with methods that change the device one step at
 * a time. Each method is proved to leave exactly the state, and return
 * exactly the outcome, of the function that specifies it.
 */
module Task {
  import opened ExportModel
  import opened Paths
  import SD = SdCard
  import OC = OwnCloud
  import Dbx = Dropbox
  import Drive = GoogleDrive
  import P = Purge
  import R = Reporting
  import C = Coordinator

  /** The device the task works on: local files, the calls issued so far, and the book's records. */
  class Device {
    var files: Files
    var trace: seq<Event>
    var transactions: seq<Transaction>

    constructor (files: Files, transactions: seq<Transaction>)
      ensures this.files == files && trace == [] && this.transactions == transactions
    {
      this.files := files;
      trace := [];
      this.transactions := transactions;
    }

    /** The local files and the calls issued so far. */
    function View(): Store
      reads this
    {
      Store(files, trace)
    }

    /** Issues a call into a collaborator that changes no local file. */
    method Record(e: Event)
      modifies this
      ensures View() == Call(old(View()), e)
      ensures transactions == old(transactions)
    {
      trace := trace + [e];
    }

    /** File.delete. */
    method Delete(path: string)
      modifies this
      ensures View() == DeleteLocal(old(View()), path)
      ensures transactions == old(transactions)
    {
      files := files - {path};
      trace := trace + [Deleted(path)];
    }

    /** deleteAllNonTemplateTransactions: only the template records remain. */
    method DeleteAllNonTemplateTransactions()
      modifies this
      ensures transactions == P.Templates(old(transactions))
      ensures View() == Call(old(View()), DeleteNonTemplateTransactions)
    {
      transactions := P.Templates(transactions);
      trace := trace + [DeleteNonTemplateTransactions];
    }

    /** bulkAddRecords with the insert method: the records are added after the existing ones. */
    method BulkAddRecords(records: seq<Transaction>)
      modifies this
      ensures transactions == old(transactions) + records
      ensures View() == Call(old(View()), BulkInsert(records))
    {
      transactions := transactions + records;
      trace := trace + [BulkInsert(records)];
    }
  }

  /** Where the task is in its life: created, background step done with its result, or finished. */
  datatype Phase = Created | Exported(success: bool) | Finished

  class ExportTask {
    const device: Device
    var params: Option<ExportParams>
    var exporter: Option<Exporter>
    var exportedFiles: seq<string>
    var phase: Phase

    /** Once the background step ran, the parameters are set and the exporter is the one for their format. */
    predicate Valid()
      reads this
    {
      phase != Created ==> params.Some? && exporter == Some(GetExporter(params.value.format))
    }

    constructor (device: Device)
      ensures this.device == device && params == None && exporter == None && exportedFiles == [] && phase == Created
      ensures Valid()
    {
      this.device := device;
      params := None;
      exporter := None;
      exportedFiles := [];
      phase := Created;
    }

    /** moveFile: copy, then delete the source; an IOException leaves the device as it was. */
    method MoveFile(src: string, dst: string, copyFails: set<string>) returns (out: Outcome<()>)
      modifies device
      ensures Delivered(device.View(), out) == SD.MoveFile(old(device.View()), src, dst, copyFails)
      ensures device.transactions == old(device.transactions)
    {
      if src !in device.files || src in copyFails {
        return Thrown(IOCause(src));
      }
      device.files := device.files[dst := device.files[src]];
      device.Record(Copied(src, dst));
      device.Delete(src);
      out := Ok(());
    }

    /** moveExportToSDCard: moves every exported file into the export folder and returns the destinations. */
    method MoveExportToSdCard(folder: string, copyFails: set<string>) returns (out: Outcome<seq<string>>)
      modifies device
      ensures Delivered(device.View(), out) == SD.MoveAll(old(device.View()), exportedFiles, folder, copyFails)
      ensures device.transactions == old(device.transactions)
    {
      var dstFiles: seq<string> := [];
      var i := 0;
      assert exportedFiles[0..] == exportedFiles;
      ghost var all := SD.MoveAll(device.View(), exportedFiles, folder, copyFails);
      assert all.outcome.Ok? ==> [] + all.outcome.value == all.outcome.value;
      while i < |exportedFiles|
        invariant 0 <= i <= |exportedFiles|
        invariant device.transactions == old(device.transactions)
        invariant SD.MoveAll(old(device.View()), exportedFiles, folder, copyFails)
               == SD.WithPrefix(dstFiles, SD.MoveAll(device.View(), exportedFiles[i..], folder, copyFails))
      {
        var src := exportedFiles[i];
        var dst := folder + StripPathPart(src);
        assert exportedFiles[i..][0] == src && exportedFiles[i..][1..] == exportedFiles[i + 1..];
        var moved := MoveFile(src, dst, copyFails);
        if moved.Thrown? {
          return Thrown(IOCause(src));
        }
        SD.WithPrefixTwice(dstFiles, dst, SD.MoveAll(device.View(), exportedFiles[i + 1..], folder, copyFails));
        dstFiles := dstFiles + [dst];
        i := i + 1;
      }
      assert dstFiles + [] == dstFiles;
      out := Ok(dstFiles);
    }

    /** shareFiles, reduced to the intent it builds: XML type, the given paths, the default recipient; the chooser is not modelled. */
    method ShareFiles(paths: seq<string>, defaultEmail: Option<string>)
      requires params.Some?
      modifies device
      ensures device.View() == R.ShareFiles(old(device.View()), paths, params.value.format, defaultEmail)
      ensures device.transactions == old(device.transactions)
    {
      var recipients: seq<string> := [];
      if defaultEmail.Some? && |R.Trim(defaultEmail.value)| > 0 {
        recipients := [defaultEmail.value];
      }
      device.Record(ShareOffered(paths, R.ShareMimeType, params.value.format, recipients));
    }

    /** moveExportToOwnCloud: connect, ask for the folder, then upload and delete file by file. */
    method MoveExportToOwnCloud(settings: OC.Settings, folderCreated: bool, mimeType: string,
                                results: OC.Results) returns (out: Outcome<()>)
      modifies device
      ensures Delivered(device.View(), out)
           == OC.MoveToOwnCloud(old(device.View()), exportedFiles, settings, folderCreated, mimeType, results)
      ensures device.transactions == old(device.transactions)
    {
      if !settings.sync {
        return Thrown(Message(OC.NotEnabled));
      }
      device.Record(OcConnect(settings.server, settings.username));
      if |settings.dir| != 0 {
        device.Record(OcCreateFolder(settings.dir, folderCreated));
      }
      ghost var prepared := device.View();
      var i := 0;
      while i < |exportedFiles|
        invariant 0 <= i <= |exportedFiles|
        invariant device.transactions == old(device.transactions)
        invariant OC.UploadAll(prepared, exportedFiles, settings.dir, mimeType, results)
               == OC.UploadAll(device.View(), exportedFiles[i..], settings.dir, mimeType, results)
      {
        var src := exportedFiles[i];
        var remotePath := settings.dir + [Separator] + StripPathPart(src);
        assert exportedFiles[i..][0] == src && exportedFiles[i..][1..] == exportedFiles[i + 1..];
        device.Record(OcUpload(src, remotePath, mimeType));
        if src !in device.files {
          return Thrown(Message(results.missingLocal));
        }
        if src in results.fails {
          return Thrown(Message(results.fails[src]));
        }
        device.Delete(src);
        i := i + 1;
      }
      out := Ok(());
    }

    /** moveExportToDropbox: create, write and delete file by file; the finally block closes the last handle. */
    method MoveExportToDropbox(env: Dbx.Env) returns (out: Outcome<()>)
      modifies device
      ensures Delivered(device.View(), out) == Dbx.MoveToDropbox(old(device.View()), exportedFiles, env)
      ensures device.transactions == old(device.transactions)
    {
      if !env.linked {
        return Thrown(NoDetail);
      }
      ghost var start := device.View();
      var dbExportFile: Option<string> := None;
      var failed := false;
      var i := 0;
      while i < |exportedFiles| && !failed
        invariant 0 <= i <= |exportedFiles|
        invariant device.transactions == old(device.transactions)
        invariant !failed ==>
                    Dbx.WriteAll(start, exportedFiles, env, None)
                    == Dbx.WriteAll(device.View(), exportedFiles[i..], env, dbExportFile)
        invariant failed ==>
                    Dbx.WriteAll(start, exportedFiles, env, None)
                    == Dbx.Finally(device.View(), dbExportFile, Thrown(NoDetail))
        decreases |exportedFiles| - i, if failed then 0 else 1
      {
        var src := exportedFiles[i];
        var name := StripPathPart(src);
        assert exportedFiles[i..][0] == src && exportedFiles[i..][1..] == exportedFiles[i + 1..];
        device.Record(DbxCreate(name));
        if src in env.createFails {
          failed := true;
        } else {
          dbExportFile := Some(name);
          if src !in device.files || src in env.writeFails {
            failed := true;
          } else {
            device.Record(DbxWrite(name, device.files[src]));
            device.Delete(src);
            i := i + 1;
          }
        }
      }
      out := if failed then Thrown(NoDetail) else Ok(());
      if dbExportFile.Some? {
        device.Record(DbxClose(dbExportFile.value));
      }
    }

    /** moveExportToGoogleDrive: one contents buffer for all files; only the last createFile result is checked. */
    method MoveExportToGoogleDrive(mimeType: string, env: Drive.Env) returns (out: Outcome<()>)
      modifies device
      ensures Delivered(device.View(), out) == Drive.MoveToGoogleDrive(old(device.View()), exportedFiles, mimeType, env)
      ensures device.transactions == old(device.transactions)
    {
      device.Record(DriveNewContents);
      if !env.contentsCreated {
        return Thrown(Message(Drive.ContentsFailed));
      }
      ghost var start := device.View();
      var contents: seq<byte> := [];
      var driveFileResult: Option<bool> := None;
      var i := 0;
      while i < |exportedFiles|
        invariant 0 <= i <= |exportedFiles|
        invariant device.transactions == old(device.transactions)
        invariant Drive.WriteAll(start, exportedFiles, mimeType, env, [], None)
               == Drive.WriteAll(device.View(), exportedFiles[i..], mimeType, env, contents, driveFileResult)
      {
        var src := exportedFiles[i];
        assert exportedFiles[i..][0] == src && exportedFiles[i..][1..] == exportedFiles[i + 1..];
        if src !in device.files || src in env.readFails {
          return Thrown(IOCause(src));
        }
        contents := contents + device.files[src];
        device.Delete(src);
        device.Record(DriveCreateFile(StripPathPart(src), mimeType, contents));
        driveFileResult := Some(src !in env.createFails);
        i := i + 1;
      }
      if driveFileResult.None? {
        return Thrown(Message(Drive.NoResult));
      }
      if !driveFileResult.value {
        return Thrown(Message(Drive.CreateFailed));
      }
      out := Ok(());
    }

    /** backupAndDeleteTransactions: back up, keep the opening balances if asked, delete, re-insert. */
    method BackupAndDeleteTransactions(preserve: bool, balances: seq<Transaction>)
      modifies device
      ensures device.transactions == P.Purged(old(device.transactions), preserve, balances)
      ensures device.View() == Store(old(device.files), old(device.trace) + P.PurgeCalls(old(device.transactions), preserve, balances))
    {
      device.Record(CreateBackup(device.transactions));
      var openingBalances: seq<Transaction> := [];
      if preserve {
        device.Record(FetchOpeningBalances);
        openingBalances := balances;
      }
      device.DeleteAllNonTemplateTransactions();
      if preserve {
        device.BulkAddRecords(openingBalances);
      }
    }

    /** moveToTarget: runs the delivery routine of the target; any other target is invalid. */
    method MoveToTarget(env: C.Collaborators) returns (out: Outcome<()>)
      requires params.Some?
      modifies device
      ensures Delivered(device.View(), out) == C.MoveToTarget(old(device.View()), exportedFiles, params.value, env)
      ensures device.transactions == old(device.transactions)
    {
      match params.value.target
      case Sharing =>
        var moved := MoveExportToSdCard(env.exportFolder, env.copyFails);
        if moved.Thrown? {
          return Thrown(moved.detail);
        }
        ShareFiles(moved.value, env.defaultEmail);
        out := Ok(());
      case Dropbox =>
        out := MoveExportToDropbox(env.dropbox);
      case GoogleDrive =>
        out := MoveExportToGoogleDrive(env.mimeType, env.drive);
      case OwnCloud =>
        out := MoveExportToOwnCloud(env.ownCloud, env.folderCreated, env.mimeType, env.uploads);
      case SdCard =>
        var moved := MoveExportToSdCard(env.exportFolder, env.copyFails);
        out := if moved.Ok? then Ok(()) else Thrown(moved.detail);
      case Unlisted(_) =>
        out := Thrown(Message(C.InvalidTarget));
    }

    /**
     * doInBackground: records the parameters and the exporter, generates the
     * export and dispatches it; returns whether both completed.
     */
    method DoInBackground(p: ExportParams, env: C.Collaborators) returns (success: bool)
      requires phase == Created
      modifies this, device
      ensures phase == Exported(success) && params == Some(p) && Valid()
      ensures env.generation.Generated? ==> exportedFiles == env.generation.paths
      ensures C.DoInBackground(old(device.View()), p, env) == C.Background(device.View(), success)
      ensures device.transactions == old(device.transactions)
    {
      params := Some(p);
      exporter := Some(GetExporter(p.format));
      if env.generation.GenerationFailed? {
        phase := Exported(false);
        return false;
      }
      device.files := device.files + env.generation.written;
      exportedFiles := env.generation.paths;
      var out := MoveToTarget(env);
      success := out.Ok?;
      phase := Exported(success);
    }

    /**
     * onPostExecute, decisions only: names the location or the error, and
     * purges the book after a successful export when the parameters ask for it.
     */
    method OnPostExecute(success: bool, env: C.Collaborators) returns (notice: C.Notice)
      requires phase == Exported(success) && Valid()
      modifies this, device
      ensures phase == Finished && params == old(params) && exporter == old(exporter) && exportedFiles == old(exportedFiles)
      ensures var r := C.OnPostExecute(C.Background(old(device.View()), success), old(device.transactions), old(params).value, env);
        device.View() == r.state && device.transactions == r.transactions && notice == r.notice
    {
      notice := C.NoNotice;
      if success {
        if env.isActivity {
          notice := C.ExportedTo(R.SuccessLocation(params.value.target, env.strings, env.ownCloud));
        }
        if params.value.deleteTransactionsAfterExport {
          BackupAndDeleteTransactions(env.preserveOpeningBalances, env.openingBalances);
        }
      } else if env.isActivity {
        notice := C.ExportError(params.value.format);
      }
      phase := Finished;
    }

    /** The two steps in the order the task framework runs them, with the result passed from one to the other. */
    method Execute(p: ExportParams, env: C.Collaborators) returns (notice: C.Notice)
      requires phase == Created
      modifies this, device
      ensures phase == Finished
      ensures var r := C.Export(old(device.View()), old(device.transactions), p, env);
        device.View() == r.state && device.transactions == r.transactions && notice == r.notice
    {
      var success := DoInBackground(p, env);
      notice := OnPostExecute(success, env);
    }
  }
}
