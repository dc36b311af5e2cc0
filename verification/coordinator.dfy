/**
 * The export run as a whole, as functions on the device state: dispatching
 * to the chosen target (moveToTarget), the background step that generates
 * and dispatches (doInBackground), and the decisions taken afterwards
 * (onPostExecute).
 */
module Coordinator {
  import opened ExportModel
  import SD = SdCard
  import OC = OwnCloud
  import Dbx = Dropbox
  import Drive = GoogleDrive
  import P = Purge
  import R = Reporting

  /** What the exporter's generateExport does: writes files and returns their paths, or throws. */
  datatype Generation = Generated(paths: seq<string>, written: Files) | GenerationFailed(message: string)

  /**
   * Everything a run learns from outside this class: the exporter's output and
   * MIME type, the export folder of the book, the results of the storage
   * services, the preferences read, and the answers of the database.
   */
  datatype Collaborators = Collaborators(
    generation: Generation,
    mimeType: string,
    exportFolder: string,
    copyFails: set<string>,
    ownCloud: OC.Settings,
    folderCreated: bool,
    uploads: OC.Results,
    dropbox: Dbx.Env,
    drive: Drive.Env,
    defaultEmail: Option<string>,
    isActivity: bool,
    strings: R.Strings,
    preserveOpeningBalances: bool,
    openingBalances: seq<Transaction>)

  const InvalidTarget: string := "Invalid target"

  /** Forgets the value a delivery returned, keeping how it ended. */
  function Done<T>(d: Delivered<T>): Delivered<()>
  {
    Delivered(d.state, if d.outcome.Ok? then Ok(()) else Thrown(d.outcome.detail))
  }

  /** SHARING: move the files to the SD card, then offer exactly the destinations returned. */
  function MoveAndShare(st: Store, srcs: seq<string>, format: ExportFormat, env: Collaborators): Delivered<()>
  {
    var moved := SD.MoveAll(st, srcs, env.exportFolder, env.copyFails);
    if moved.outcome.Thrown? then Done(moved)
    else Delivered(R.ShareFiles(moved.state, moved.outcome.value, format, env.defaultEmail), Ok(()))
  }

  /** moveToTarget: one delivery routine per handled target; any other target is invalid. */
  function MoveToTarget(st: Store, srcs: seq<string>, params: ExportParams, env: Collaborators): Delivered<()>
  {
    match params.target
    case Sharing => MoveAndShare(st, srcs, params.format, env)
    case Dropbox => Dbx.MoveToDropbox(st, srcs, env.dropbox)
    case GoogleDrive => Drive.MoveToGoogleDrive(st, srcs, env.mimeType, env.drive)
    case OwnCloud => OC.MoveToOwnCloud(st, srcs, env.ownCloud, env.folderCreated, env.mimeType, env.uploads)
    case SdCard => Done(SD.MoveAll(st, srcs, env.exportFolder, env.copyFails))
    case Unlisted(_) => Delivered(st, Thrown(Message(InvalidTarget)))
  }

  /** The device state after the background step and the result it returned. */
  datatype Background = Background(state: Store, success: bool)

  /**
   * doInBackground: generate the export, then dispatch it; a generation
   * failure returns false before any dispatch, and an ExporterException from
   * the dispatch returns false.
   */
  function DoInBackground(st: Store, params: ExportParams, env: Collaborators): Background
  {
    match env.generation
    case GenerationFailed(_) => Background(st, false)
    case Generated(paths, written) =>
      var d := MoveToTarget(Store(st.files + written, st.trace), paths, params, env);
      Background(d.state, d.outcome.Ok?)
  }

  /** The message shown when the run was started from an activity. */
  datatype Notice = ExportedTo(location: string) | ExportError(format: ExportFormat) | NoNotice

  /** The whole run: the device state, the book's records, the result and the message shown. */
  datatype Run = Run(state: Store, transactions: seq<Transaction>, success: bool, notice: Notice)

  /**
   * onPostExecute, decisions only: report the location or the error when in
   * an activity, and purge the book when the export succeeded and the
   * parameters ask for it. The result was fixed before; the purge cannot
   * change it.
   */
  function OnPostExecute(b: Background, transactions: seq<Transaction>, params: ExportParams, env: Collaborators): Run
  {
    var notice :=
      if !env.isActivity then NoNotice
      else if b.success then ExportedTo(R.SuccessLocation(params.target, env.strings, env.ownCloud))
      else ExportError(params.format);
    if b.success && params.deleteTransactionsAfterExport then
      Run(Store(b.state.files, b.state.trace + P.PurgeCalls(transactions, env.preserveOpeningBalances, env.openingBalances)),
          P.Purged(transactions, env.preserveOpeningBalances, env.openingBalances), true, notice)
    else
      Run(b.state, transactions, b.success, notice)
  }

  /** An export from start to end. */
  function Export(st: Store, transactions: seq<Transaction>, params: ExportParams, env: Collaborators): Run
  {
    OnPostExecute(DoInBackground(st, params, env), transactions, params, env)
  }

  /**
   * A failed generation ends the run with false before any dispatch: no file
   * changes, no call is issued, the book is untouched, and an activity shows
   * the export error.
   */
  lemma GenerationFailureStopsRun(st: Store, transactions: seq<Transaction>, params: ExportParams, env: Collaborators)
    requires env.generation.GenerationFailed?
    ensures Export(st, transactions, params, env)
         == Run(st, transactions, false, if env.isActivity then ExportError(params.format) else NoNotice)
  {
  }

  /** The run returns true exactly when generation and the dispatch both complete without an exception. */
  lemma SucceedsIffGeneratedAndDelivered(st: Store, transactions: seq<Transaction>, params: ExportParams, env: Collaborators)
    ensures Export(st, transactions, params, env).success
        <==> env.generation.Generated?
             && MoveToTarget(Store(st.files + env.generation.written, st.trace), env.generation.paths, params, env).outcome.Ok?
  {
  }

  /**
   * A target outside the five handled ones fails the run with "Invalid
   * target" and no delivery routine runs: no call is issued and no exported
   * file is moved or deleted.
   */
  lemma InvalidTargetRunsNothing(st: Store, transactions: seq<Transaction>, srcs: seq<string>, params: ExportParams, env: Collaborators)
    requires params.target.Unlisted?
    ensures MoveToTarget(st, srcs, params, env) == Delivered(st, Thrown(Message(InvalidTarget)))
    ensures var r := Export(st, transactions, params, env);
      !r.success && r.state.trace == st.trace && r.transactions == transactions
  {
  }

  /**
   * SHARING offers exactly the SD card destinations: after a successful move
   * the one share offer, issued last, lists the destinations in the order of
   * the exported files; when the move fails nothing is offered.
   */
  lemma SharingOffersDestinations(st: Store, srcs: seq<string>, params: ExportParams, env: Collaborators)
    requires params.target == Sharing
    ensures var d := MoveToTarget(st, srcs, params, env);
            var moved := SD.MoveAll(st, srcs, env.exportFolder, env.copyFails);
      && (d.outcome.Ok? <==> moved.outcome.Ok?)
      && (d.outcome.Ok? ==> d.state.files == moved.state.files)
      && (d.outcome.Ok? ==>
            d.state.trace == moved.state.trace
              + [ShareOffered(SD.Destinations(env.exportFolder, srcs), R.ShareMimeType, params.format, R.DefaultRecipients(env.defaultEmail))])
      && (!d.outcome.Ok? ==> d.state == moved.state)
  {
  }

  /** When no move disturbs a later file, SHARING succeeds exactly when every exported file can be moved. */
  lemma SharingSucceedsIffAllMovable(st: Store, srcs: seq<string>, params: ExportParams, env: Collaborators)
    requires params.target == Sharing && SD.SourcesSurvive(srcs, env.exportFolder)
    ensures MoveToTarget(st, srcs, params, env).outcome.Ok?
        <==> forall i :: 0 <= i < |srcs| ==> srcs[i] in st.files && srcs[i] !in env.copyFails
  {
    SD.SucceedsIffAllMovable(st, srcs, env.exportFolder, env.copyFails);
  }

  /**
   * The purge runs only after the result is fixed, and only when the export
   * succeeded and the parameters ask for it: it leaves the result and the
   * files alone, its calls come after every call of the dispatch, and without
   * it the book is unchanged.
   */
  lemma PurgeOnlyAfterSuccess(st: Store, transactions: seq<Transaction>, params: ExportParams, env: Collaborators)
    ensures var b := DoInBackground(st, params, env);
            var r := Export(st, transactions, params, env);
            var purge := b.success && params.deleteTransactionsAfterExport;
      && r.success == b.success
      && r.state.files == b.state.files
      && r.state.trace == b.state.trace
           + (if purge then P.PurgeCalls(transactions, env.preserveOpeningBalances, env.openingBalances) else [])
      && r.transactions == (if purge then P.Purged(transactions, env.preserveOpeningBalances, env.openingBalances) else transactions)
  {
  }

  /** A successful run started from an activity names the location its target stands for. */
  lemma SuccessNamesLocation(st: Store, transactions: seq<Transaction>, params: ExportParams, env: Collaborators)
    requires env.isActivity
    ensures var r := Export(st, transactions, params, env);
      r.success <==> r.notice == ExportedTo(R.SuccessLocation(params.target, env.strings, env.ownCloud))
  {
  }
}
