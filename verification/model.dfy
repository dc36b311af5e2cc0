/**
 * The values an export run works with: its parameters, the exporter chosen
 * for a format, the exceptions a delivery raises, the transaction records of
 * the book, and the local state (files and the calls issued so far).
 */
module ExportModel {

  datatype Option<T> = None | Some(value: T)

  newtype byte = b: int | 0 <= b < 256

  /** Local files: path to contents. */
  type Files = map<string, seq<byte>>

  datatype ExportFormat = QIF | OFX | XML

  /**
   * Where the exported files go. `Unlisted` stands for any further value of the
   * target enumeration, which the dispatcher handles by its default branch.
   */
  datatype ExportTarget = SdCard | Sharing | Dropbox | GoogleDrive | OwnCloud | Unlisted(name: string)

  /** The parameters of one export (ExportParams); never changed during a run. */
  datatype ExportParams = ExportParams(format: ExportFormat, target: ExportTarget, deleteTransactionsAfterExport: bool)

  /** The exporter class that writes a format. */
  datatype Exporter = QifExporter | OfxExporter | GncXmlExporter

  /** The format an exporter writes. */
  function FormatOf(e: Exporter): ExportFormat
  {
    match e
    case QifExporter => QIF
    case OfxExporter => OFX
    case GncXmlExporter => XML
  }

  /**
   * getExporter: QIF and OFX have their own exporter; XML, and every other
   * format through the switch's default branch, gets the GnuCash XML exporter.
   */
  function GetExporter(f: ExportFormat): (e: Exporter)
    ensures FormatOf(e) == f
    ensures e == GncXmlExporter <==> f != QIF && f != OFX
  {
    match f
    case QIF => QifExporter
    case OFX => OfxExporter
    case XML => GncXmlExporter
  }

  /** What an ExporterException carries besides the export parameters. */
  datatype Detail =
    | Message(text: string)  // a message given when the exception is raised
    | IOCause(path: string)  // a wrapped IOException raised while reading or moving this local file
    | NoDetail               // only the parameters

  /** A delivery either completes with a value or raises an ExporterException. */
  datatype Outcome<T> = Ok(value: T) | Thrown(detail: Detail)

  /** A transaction record of the book; only whether it is a template matters here. */
  datatype Transaction = Transaction(uid: string, isTemplate: bool)

  /** Every change to local files and every call into a collaborator, in the order issued. */
  datatype Event =
    | Copied(src: string, dst: string)
    | Deleted(path: string)
      // The send-multiple intent as built, with its files, type and recipients;
      // whether a chooser is then shown to the user is not recorded.
    | ShareOffered(paths: seq<string>, mimeType: string, format: ExportFormat, recipients: seq<string>)
    | DbxCreate(name: string)
    | DbxWrite(name: string, data: seq<byte>)
    | DbxClose(name: string)
    | OcConnect(server: string, username: string)
    | OcCreateFolder(dir: string, created: bool)
    | OcUpload(local: string, remote: string, mimeType: string)
    | DriveNewContents
    | DriveCreateFile(title: string, mimeType: string, contents: seq<byte>)
    | CreateBackup(records: seq<Transaction>)
    | FetchOpeningBalances
    | DeleteNonTemplateTransactions
    | BulkInsert(records: seq<Transaction>)

  /** The local files and the calls issued so far. */
  datatype Store = Store(files: Files, trace: seq<Event>)

  /** The state a delivery leaves behind and how it ended. */
  datatype Delivered<T> = Delivered(state: Store, outcome: Outcome<T>)

  /** File.delete: the path is gone afterwards, whether or not it existed. */
  function DeleteLocal(st: Store, path: string): (r: Store)
    ensures path !in r.files
    ensures forall p :: p != path ==> (p in r.files <==> p in st.files)
    ensures forall p :: p in r.files ==> r.files[p] == st.files[p]
    ensures r.trace == st.trace + [Deleted(path)]
  {
    Store(st.files - {path}, st.trace + [Deleted(path)])
  }

  /** The paths a list of paths holds. */
  function Elements(s: seq<string>): set<string>
  {
    set p | p in s
  }

  /** Removing the first path and then the rest removes them all. */
  lemma RemoveFirstThenRest(files: Files, srcs: seq<string>)
    requires srcs != []
    ensures (files - {srcs[0]}) - Elements(srcs[1..]) == files - Elements(srcs)
  {
    assert Elements(srcs) == {srcs[0]} + Elements(srcs[1..]);
  }

  /** No path occurs twice. */
  ghost predicate Distinct(s: seq<string>)
  {
    forall i, j :: 0 <= i < j < |s| ==> s[i] != s[j]
  }

  /** Records a call that changes no local file. */
  function Call(st: Store, e: Event): Store
  {
    st.(trace := st.trace + [e])
  }
}
