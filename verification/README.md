# GnuCash Android export task, modelled in Dafny

This project models the export-and-dispatch core of GnuCash for Android, the
class `ExportAsyncTask`. One export run does the following:

- It picks the exporter for the chosen format.
- It lets that exporter generate the export files.
- It moves the files to exactly one target: the SD card, a share intent, Dropbox, Google Drive or an ownCloud server.
- It returns whether generation and delivery both completed.
- Afterwards it reports where the files went. When the export succeeded and the parameters ask for it, it also backs up the book and purges its non-template transactions.

The model has two layers.

- **Spec functions on values.** Modules `Paths`, `ExportModel`, `SdCard`, `OwnCloud`, `Dropbox`, `GoogleDrive`, `Purge`, `Reporting` and `Coordinator` describe each step as a function of the device state `Store(files, trace)`.
  - `files` maps local paths to their bytes.
  - `trace` lists, in order, every local copy and delete and every call into a storage service or the database.
  - Ordering properties are statements about the trace: delete before create on Drive, backup before purge, the share offer after the SD move.
- **The imperative task.** Module `Task` holds two classes.
  - `Device` owns the files, the trace and the book's transaction records.
  - `ExportTask` has the fields of the Java class: `params`, `exporter`, `exportedFiles` and a `phase`.
  - Its methods walk `exportedFiles` with `while` loops, as the Java code does.
  - Each method is proved to leave exactly the state, and return exactly the outcome, of the spec function of the same step.
  - The lemmas about the spec functions therefore hold for the methods.

What the outside world answers is passed in as inputs, per local path where it matters:

- the exporter's output;
- which copy fails, which upload the ownCloud server rejects, and the log message of each rejected upload and of an upload whose local file is missing;
- whether Dropbox is linked;
- whether Drive contents could be created, and which local files raise an IOException while they are copied into them;
- the ownCloud preferences;
- the default e-mail address;
- the opening balances the database returns.

An `ExporterException` is the `Thrown(detail)` outcome. Its detail is the given message, the local file whose `IOException` was wrapped, or nothing.

Where the code departs from the design one would expect, the model follows the code as written:

- **Google Drive.** Each local file is deleted before the remote file is created from it. All files are written to the one `DriveContents` obtained before the loop. The model assumes that these contents stay usable after each `createFile` and keep every byte written to them, so file *i* is created from the bytes of files 0..*i*. Only the status of the last `createFile` call is checked. An empty file list fails with "No result received".
- **Dropbox.** Only the last created file handle is closed in the `finally` block. The handles of the earlier files stay open (`Dropbox.OnlyLastHandleClosed`).
- **Purge.** The result of the backup is never checked, so the deletion follows a failed backup too. The opening balances re-inserted are the records the database returned before the deletion. Nothing claims they are the deleted records themselves.
- **Result before purge.** The result of the run is fixed before the purge runs, and the purge cannot change it (`Coordinator.PurgeOnlyAfterSuccess`).

## Model

All source paths are relative to the repository root.

| member | source | states |
|---|---|---|
| Paths.TrimmedIsPrefix | app/src/main/java/org/gnucash/android/export/ExportAsyncTask.java:395-397 | TrimTrailingSeparators, the first step of taking a file's name, only drops trailing separators. The result is a prefix of the path, does not end in a separator, and everything dropped is a separator. |
| Paths.StripPathPart | app/src/main/java/org/gnucash/android/export/ExportAsyncTask.java:394-397 | Definition of the file name of a path. Its properties are in StripPathPartIsName, NameOfJoined and NameOfRemotePath. |
| Paths.AfterLastSeparatorIsLastName | app/src/main/java/org/gnucash/android/export/ExportAsyncTask.java:395-397 | The text after the last separator contains no separator and is a suffix of the path. When it is not the whole path, a separator comes right before it. |
| Paths.StripPathPartIsName | app/src/main/java/org/gnucash/android/export/ExportAsyncTask.java:394-397 | stripPathPart never returns a separator, and a path without separators is its own name. |
| Paths.NameOfJoined | app/src/main/java/org/gnucash/android/export/ExportAsyncTask.java:382 | A folder ending in a separator, followed by a plain name, has that name as its base name. |
| Paths.NameOfRemotePath | app/src/main/java/org/gnucash/android/export/ExportAsyncTask.java:358 | Directory + "/" + name has that name as its base name, whatever the directory. |
| ExportModel.GetExporter | app/src/main/java/org/gnucash/android/export/ExportAsyncTask.java:207-219 | The exporter chosen writes the requested format. The GnuCash XML exporter is chosen exactly for the formats other than QIF and OFX. |
| ExportModel.DeleteLocal | app/src/main/java/org/gnucash/android/export/ExportAsyncTask.java:495 | File.delete: the path is gone afterwards, every other file keeps its presence and bytes, and one delete is recorded. |
| SdCard.Destinations | app/src/main/java/org/gnucash/android/export/ExportAsyncTask.java:379-389 | The destination list has the length and order of the exported files. Entry *i* is the export folder followed by file *i*'s base name. |
| SdCard.DestinationKeepsName | app/src/main/java/org/gnucash/android/export/ExportAsyncTask.java:382 | A destination in a folder given with its trailing separator has the same file name as its source. |
| SdCard.MoveFile | app/src/main/java/org/gnucash/android/export/ExportAsyncTask.java:483-496 | moveFile succeeds exactly when the source exists and copies. On failure nothing changes and the outcome is IOCause(src), which records which move failed. On success the source is gone, the destination holds the source's bytes, every other file is unchanged, and the copy comes before the delete. |
| SdCard.MoveAll | app/src/main/java/org/gnucash/android/export/ExportAsyncTask.java:376-392 | A successful move returns exactly the destinations of the exported files, in their order. |
| SdCard.StopsAtFirstFailure | app/src/main/java/org/gnucash/android/export/ExportAsyncTask.java:381-389 | When files 0..k-1 move and file k fails, the move throws file k's IOException. It leaves exactly the state the first k moves left: no rollback, and no later file touched. |
| SdCard.SucceedsIffAllMovable | app/src/main/java/org/gnucash/android/export/ExportAsyncTask.java:381-389 | When the sources are distinct and none is the destination of an earlier file, the move succeeds exactly when every exported file exists and copies. |
| SdCard.SameNameOverwrites | app/src/main/java/org/gnucash/android/export/ExportAsyncTask.java:381-389 | Two exported files with the same name land on one destination: both moves succeed, the later file's bytes overwrite the earlier one's, and neither source remains. |
| SdCard.MovesEveryFile | app/src/main/java/org/gnucash/android/export/ExportAsyncTask.java:376-392 | Round trip: each destination holds exactly its source's bytes and every source is gone. Every path that is neither a source nor a destination is unchanged. |
| OwnCloud.MoveToOwnCloud | app/src/main/java/org/gnucash/android/export/ExportAsyncTask.java:332-347 | With sync off it throws "ownCloud not enabled." and changes nothing, issuing no call. With sync on, the first call is the connection with the configured server and user name. |
| OwnCloud.UploadAll | app/src/main/java/org/gnucash/android/export/ExportAsyncTask.java:357-368 | When the upload loop completes, every file was on the device when the loop started and the server accepted its upload. When it throws, the detail is a log message. A file no longer on the device when its turn comes fails its upload, so the loop throws. |
| OwnCloud.UploadsEveryFile | app/src/main/java/org/gnucash/android/export/ExportAsyncTask.java:357-368 | When the files are distinct, all on the device and all accepted by the server, each file is uploaded to its remote path and then deleted, in order, and the loop completes. With UploadAll: for distinct files, the loop completes exactly when every file is present and accepted. |
| OwnCloud.StopsAtFirstFailedUpload | app/src/main/java/org/gnucash/android/export/ExportAsyncTask.java:357-368 | In a list of distinct files, take file k, the first one that is missing from the device or rejected by the server. Its upload throws that failure's log message. Files before k are already uploaded and deleted. File k and later ones stay where they were, and no later upload is attempted. |
| OwnCloud.RepeatedPathFails | app/src/main/java/org/gnucash/android/export/ExportAsyncTask.java:357-368 | A path listed twice fails on its second upload with the missing-file message, even when the server accepts it, because the first upload deleted the local file. |
| OwnCloud.RemotePathNamesFile | app/src/main/java/org/gnucash/android/export/ExportAsyncTask.java:358 | The remote path dir + "/" + base name names the local file it came from. |
| OwnCloud.FolderResultOnlyLogged | app/src/main/java/org/gnucash/android/export/ExportAsyncTask.java:349-356 | Whether creating the remote folder succeeded changes neither the outcome nor the files. |
| Dropbox.MoveToDropbox | app/src/main/java/org/gnucash/android/export/ExportAsyncTask.java:303-325 | An account that cannot be opened throws before any file or call. A linked account with no files succeeds and changes nothing. |
| Dropbox.WriteAll | app/src/main/java/org/gnucash/android/export/ExportAsyncTask.java:310-324 | The copy loop completes only when no create or write failed. Every exception it throws carries no cause. Order and closes are in WritesEveryFile and StopsAtFirstFailure. |
| Dropbox.WritesEveryFile | app/src/main/java/org/gnucash/android/export/ExportAsyncTask.java:310-324 | With distinct present files and no failing create or write, each file is created remotely, written with its bytes and deleted locally, in order. Then exactly the last handle is closed. |
| Dropbox.StopsAtFirstFailure | app/src/main/java/org/gnucash/android/export/ExportAsyncTask.java:309-324 | When file k is the first whose create or write fails, the move throws with no cause. Files 0..k-1 are on Dropbox and gone from the device; file k and later ones stay. Exactly one close is issued, last: file k's after a failed write, file k-1's after a failed create, none when k is 0. |
| Dropbox.WriteAllStopsAt | app/src/main/java/org/gnucash/android/export/ExportAsyncTask.java:309-324 | The loop's form of StopsAtFirstFailure, for any handle open before it. |
| Dropbox.OnlyLastHandleClosed | app/src/main/java/org/gnucash/android/export/ExportAsyncTask.java:309-324 | After a successful copy, the run issues exactly one close, for the last file. The handle of any file whose name differs from the last one's is created and never closed. |
| GoogleDrive.WriteAll | app/src/main/java/org/gnucash/android/export/ExportAsyncTask.java:264-298 | The write loop succeeds only when the last createFile succeeded, or, with no files, when the status given was a success. Order and failures are in the lemmas below. |
| GoogleDrive.MoveToGoogleDrive | app/src/main/java/org/gnucash/android/export/ExportAsyncTask.java:254-298 | The first call asks for new contents. If that fails, it throws "Error while trying to create new file contents" with no file touched. With an empty file list it fails with "No result received". |
| GoogleDrive.OnlyLastResultCounts | app/src/main/java/org/gnucash/android/export/ExportAsyncTask.java:261-298 | With distinct files that all exist and copy into the contents without an IOException, the loop succeeds exactly when the last createFile succeeds, whatever the earlier ones reported. |
| GoogleDrive.WritesEveryFile | app/src/main/java/org/gnucash/android/export/ExportAsyncTask.java:264-289 | When every file exists and copies into the contents without an IOException, the loop deletes every exported file locally. It issues exactly one delete and one create per file, in order. |
| GoogleDrive.DeletesBeforeEachCreate | app/src/main/java/org/gnucash/android/export/ExportAsyncTask.java:264-289 | When every file exists and copies without an IOException, for every file *i* the local delete comes right before the remote create. The remote file is named after the local one and created from the bytes of files 0..*i* one after the other. |
| GoogleDrive.StopsAtUnreadableFile | app/src/main/java/org/gnucash/android/export/ExportAsyncTask.java:264-291 | When file k is the first that is missing or raises an IOException while copied, the loop throws that IOException. Files 0..k-1 are already deleted and created remotely; file k and later ones stay; no status is checked. |
| Purge.Templates | app/src/main/java/org/gnucash/android/export/ExportAsyncTask.java:412 | Deleting the non-template transactions keeps exactly the template ones: every kept record is a template from the book, and every template of the book is kept. |
| Purge.Purged | app/src/main/java/org/gnucash/android/export/ExportAsyncTask.java:403-417 | After the purge the book holds the templates of the book, plus the fetched opening balances when they are preserved, and nothing else. Without preservation only templates remain. |
| Purge.PurgeCalls | app/src/main/java/org/gnucash/android/export/ExportAsyncTask.java:403-417 | Definition of the calls of the purge. Their order is in BackupBeforeDeletion. |
| Purge.BackupBeforeDeletion | app/src/main/java/org/gnucash/android/export/ExportAsyncTask.java:403-417 | The backup of the whole book is the first call. The deletion comes after it. With preservation, the fetch of the balances comes before the deletion and their re-insertion is the only call after it. |
| Reporting.SuccessLocation | app/src/main/java/org/gnucash/android/export/ExportAsyncTask.java:498-525 | Definition of the location per target. Its properties are in LocationsAreTargetSpecific and OwnCloudLocationTellsSync. |
| Reporting.LocationsAreTargetSpecific | app/src/main/java/org/gnucash/android/export/ExportAsyncTask.java:498-525 | The SD card, Dropbox, Google Drive and ownCloud locations are non-empty and pairwise different, whatever the app name and directory. |
| Reporting.OwnCloudLocationTellsSync | app/src/main/java/org/gnucash/android/export/ExportAsyncTask.java:510-521 | The ownCloud location starts with "ownCloud -> " exactly when sync is on, and then the rest is the configured directory. |
| Reporting.TrimEmptyIffBlank | app/src/main/java/org/gnucash/android/export/ExportAsyncTask.java:437 | String.trim leaves nothing exactly when every character is at most U+0020. |
| Reporting.DefaultRecipients | app/src/main/java/org/gnucash/android/export/ExportAsyncTask.java:435-438 | The share intent gets one recipient exactly when a default address is stored and has a character above U+0020. That recipient is the stored address untrimmed. |
| Reporting.ShareFiles | app/src/main/java/org/gnucash/android/export/ExportAsyncTask.java:424-438 | Definition of the share offer. Its properties are in DefaultRecipients and Coordinator.SharingOffersDestinations. |
| Coordinator.MoveToTarget | app/src/main/java/org/gnucash/android/export/ExportAsyncTask.java:221-247 | Definition of the dispatch per target. Its properties are in InvalidTargetRunsNothing, SharingOffersDestinations and SharingSucceedsIffAllMovable. |
| Coordinator.DoInBackground | app/src/main/java/org/gnucash/android/export/ExportAsyncTask.java:142-174 | Definition of the background step. Its properties are in GenerationFailureStopsRun and SucceedsIffGeneratedAndDelivered. |
| Coordinator.OnPostExecute | app/src/main/java/org/gnucash/android/export/ExportAsyncTask.java:182-198 | Definition of the decisions after the background step. Its properties are in PurgeOnlyAfterSuccess and SuccessNamesLocation. |
| Coordinator.Export | app/src/main/java/org/gnucash/android/export/ExportAsyncTask.java:142-198 | Definition of a whole run. Its properties are in the Coordinator lemmas below. |
| Coordinator.GenerationFailureStopsRun | app/src/main/java/org/gnucash/android/export/ExportAsyncTask.java:142-165 | A failed generation returns false before moveToTarget. No file changes, no call is issued, the book is untouched, and an activity shows the export error. |
| Coordinator.SucceedsIffGeneratedAndDelivered | app/src/main/java/org/gnucash/android/export/ExportAsyncTask.java:142-174 | The run returns true exactly when generation completed and moveToTarget completed without an ExporterException. |
| Coordinator.InvalidTargetRunsNothing | app/src/main/java/org/gnucash/android/export/ExportAsyncTask.java:221-247 | A target outside the five handled ones throws "Invalid target" with the state unchanged. The run fails with no call issued and the book untouched. |
| Coordinator.SharingOffersDestinations | app/src/main/java/org/gnucash/android/export/ExportAsyncTask.java:223-226 | SHARING succeeds exactly when the SD card move does. It then leaves the moved files, and its one share offer, issued last, lists the SD card destinations in order, with type text/xml and the default recipient. When the move fails, nothing is offered. |
| Coordinator.SharingSucceedsIffAllMovable | app/src/main/java/org/gnucash/android/export/ExportAsyncTask.java:223-226 | When the sources are distinct and none is the destination of an earlier file, SHARING succeeds exactly when every exported file exists and copies. |
| Coordinator.PurgeOnlyAfterSuccess | app/src/main/java/org/gnucash/android/export/ExportAsyncTask.java:182-191 | The purge runs only when the export succeeded and the delete flag is set. It does not change the result or the files. Its calls come after every dispatch call, in the fixed purge order. Without it the book is unchanged. |
| Coordinator.SuccessNamesLocation | app/src/main/java/org/gnucash/android/export/ExportAsyncTask.java:183-185 | In an activity, the run names its target's location exactly when it succeeded. |
| Task.Device.Record | app/src/main/java/org/gnucash/android/export/ExportAsyncTask.java:254-255 | Records one service or database call, such as newDriveContents: appends it to the trace and changes nothing else. |
| Task.Device.Delete | app/src/main/java/org/gnucash/android/export/ExportAsyncTask.java:276 | File.delete: removes the path, appends the delete to the trace, and changes nothing else. |
| Task.Device.DeleteAllNonTemplateTransactions | app/src/main/java/org/gnucash/android/export/ExportAsyncTask.java:412 | The book keeps only its template records, and the deletion call is recorded. |
| Task.Device.BulkAddRecords | app/src/main/java/org/gnucash/android/export/ExportAsyncTask.java:415 | The records are inserted after the existing ones, and the insertion call is recorded. |
| Task.ExportTask.constructor | app/src/main/java/org/gnucash/android/export/ExportAsyncTask.java:114-117 | A new task is bound to its device, with no parameters, exporter or exported files yet. |
| Task.ExportTask.MoveFile | app/src/main/java/org/gnucash/android/export/ExportAsyncTask.java:483-496 | Leaves exactly the state and outcome of SdCard.MoveFile, and leaves the book alone. |
| Task.ExportTask.MoveExportToSdCard | app/src/main/java/org/gnucash/android/export/ExportAsyncTask.java:376-392 | The loop that appends to dstFiles leaves exactly the state and result of SdCard.MoveAll, so the destinations and no-rollback lemmas hold for it. |
| Task.ExportTask.ShareFiles | app/src/main/java/org/gnucash/android/export/ExportAsyncTask.java:424-438 | Offers the given paths as text/xml in the export format, with the recipients of the default-email rule. |
| Task.ExportTask.MoveExportToOwnCloud | app/src/main/java/org/gnucash/android/export/ExportAsyncTask.java:327-369 | Leaves exactly the state and outcome of OwnCloud.MoveToOwnCloud on the exported files. |
| Task.ExportTask.MoveExportToDropbox | app/src/main/java/org/gnucash/android/export/ExportAsyncTask.java:303-325 | The loop and its finally block leave exactly the state and outcome of Dropbox.MoveToDropbox. |
| Task.ExportTask.MoveExportToGoogleDrive | app/src/main/java/org/gnucash/android/export/ExportAsyncTask.java:249-301 | The loop with its shared buffer and last result leaves exactly the state and outcome of GoogleDrive.MoveToGoogleDrive. |
| Task.ExportTask.BackupAndDeleteTransactions | app/src/main/java/org/gnucash/android/export/ExportAsyncTask.java:403-417 | The book becomes Purge.Purged of its old records. The calls are exactly Purge.PurgeCalls, in that order. No local file changes. |
| Task.ExportTask.MoveToTarget | app/src/main/java/org/gnucash/android/export/ExportAsyncTask.java:221-247 | Runs the delivery of the parameters' target, leaving exactly the state and outcome of Coordinator.MoveToTarget. |
| Task.ExportTask.DoInBackground | app/src/main/java/org/gnucash/android/export/ExportAsyncTask.java:142-174 | Sets the parameters and the exporter for their format, and the exported files when generation succeeds. Returns, and leaves, exactly what Coordinator.DoInBackground gives. |
| Task.ExportTask.OnPostExecute | app/src/main/java/org/gnucash/android/export/ExportAsyncTask.java:182-198 | Given the background result, leaves exactly the device, book and message of Coordinator.OnPostExecute. That function reports the location or the error, and purges only after success with the delete flag set. |
| Task.ExportTask.Execute | app/src/main/java/org/gnucash/android/export/ExportAsyncTask.java:88 | The background step followed by onPostExecute with its result realises Coordinator.Export. |

## Left out

- **Android UI and lifecycle.** Left out: the progress dialog, toasts, `Activity.finish`, `refreshViews`, the intent chooser and its `queryIntentActivities` check, and `runOnUiThread`. A message is modelled only as which notice an activity would show.
- **Threading.** AsyncTask threading is out; a run is one sequential execution.
- **Storage SDK internals.** Left out: `blockingConnect`, `await` with its one-minute timeout, `DbxFileSystem`, `UploadRemoteFileOperation`, the Drive folder id and credentials. Only their results enter, as inputs.
- GoogleDrive.DeletesBeforeEachCreate: the growing buffer is an assumption about the Drive library, not something this model can check. It assumes one `DriveContents` stays open after `createFile` and keeps all bytes written to it. If the library closes or empties the contents, the later files would be created differently.
- Task.ExportTask.MoveExportToGoogleDrive: an IOException from opening, reading, writing or flushing is one per-file input. Partial writes into the contents before the exception are not modelled, since no file is created after them.
- **The exporters.** `QifExporter`, `OfxExporter` and `GncXmlExporter` are not part of this model. `generateExport` is an input that either returns paths (with the files it wrote) or fails. The exporter's MIME type and the export folder of the book are inputs too.
- **Database adapter internals.** Left out: `createBackup`, `getAllOpeningBalanceTransactions`, `deleteAllNonTemplateTransactions` and `bulkAddRecords`. Each is a recorded call with its effect on an abstract list of records. The opening balances are an input.
- **Logging and the share intent's extras.** Crashlytics and `Log` calls, the share subject and dated body text, the file-permission change and the `Uri` conversion of the shared paths are left out.
- OwnCloud.UploadAll: its contract alone does not say when the loop completes. The converse is proved for distinct files only (UploadsEveryFile). A repeated path fails on its second upload (RepeatedPathFails), because the first upload deleted the file. Whether the library notices the missing file before contacting the server is not modelled: the upload call is recorded either way.
- ExportModel.DeleteLocal: the boolean that `File.delete` returns is ignored by the source, and the model assumes every delete removes the path.
- SdCard.MoveFile: the byte count that `transferTo` returns is ignored by the source, and the model assumes a copy that does not throw is complete.
- SdCard.MoveFile: does not model the partly written or truncated destination that a copy failing midway leaves behind; a failed copy changes nothing.
- **Preferences read as null.** A missing ownCloud server or directory preference, which the source dereferences, is left out. Settings are always present.
- **The generation-error toast.** The toast that doInBackground shows on a generation error is out; only the `false` result is modelled.
- Task.ExportTask.Execute: AsyncTask's own scheduling is not modelled. The method only fixes the order (background step, then onPostExecute with its result) that the framework guarantees.
