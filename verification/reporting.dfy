/**
 * What the export tells the user: the location named after a successful
 * export (reportSuccess) and the share intent offered for SHARING
 * (shareFiles).
 */
module Reporting {
  import opened ExportModel
  import OC = OwnCloud

  /** The application strings the messages use. */
  datatype Strings = Strings(appName: string, externalServiceLabel: string)

  const SdCardLocation: string := "SD card"
  const DropboxLocation: string := "DropBox -> Apps -> GnuCash"
  const DrivePrefix: string := "Google Drive -> "
  const OwnCloudPrefix: string := "ownCloud -> "
  const OwnCloudDisabled: string := "ownCloud sync not enabled"

  /** reportSuccess: the location named in the success message, per target. */
  function SuccessLocation(target: ExportTarget, strings: Strings, settings: OC.Settings): (location: string)
  {
    match target
    case SdCard => SdCardLocation
    case Dropbox => DropboxLocation
    case GoogleDrive => DrivePrefix + strings.appName
    case OwnCloud => if settings.sync then OwnCloudPrefix + settings.dir else OwnCloudDisabled
    case _ => strings.externalServiceLabel
  }

  /**
   * The four storage targets name four different, non-empty locations:
   * SD card, Dropbox, Google Drive and ownCloud can be told apart from the
   * message alone, whatever the app name and the ownCloud directory.
   */
  lemma LocationsAreTargetSpecific(t1: ExportTarget, t2: ExportTarget, strings: Strings, settings: OC.Settings)
    requires t1 in {SdCard, Dropbox, GoogleDrive, OwnCloud} && t2 in {SdCard, Dropbox, GoogleDrive, OwnCloud}
    ensures SuccessLocation(t1, strings, settings) != []
    ensures t1 != t2 ==> SuccessLocation(t1, strings, settings) != SuccessLocation(t2, strings, settings)
  {
    var l1 := SuccessLocation(t1, strings, settings);
    var l2 := SuccessLocation(t2, strings, settings);
    assert l1[0] == FirstLetter(t1);
    assert l2[0] == FirstLetter(t2);
  }

  /**
   * The ownCloud location tells whether sync is on: only then does it start
   * with "ownCloud -> ", and what follows is the configured directory.
   */
  lemma OwnCloudLocationTellsSync(strings: Strings, settings: OC.Settings)
    ensures var l := SuccessLocation(OwnCloud, strings, settings);
      && (settings.sync <==> |l| >= |OwnCloudPrefix| && l[..|OwnCloudPrefix|] == OwnCloudPrefix)
      && (settings.sync ==> l[|OwnCloudPrefix|..] == settings.dir)
  {
    var l := SuccessLocation(OwnCloud, strings, settings);
    if !settings.sync {
      assert l[9] == 's' && OwnCloudPrefix[9] == '-';
    }
  }

  /** The first letter of each storage target's location. */
  function FirstLetter(t: ExportTarget): char
  {
    match t
    case SdCard => 'S'
    case Dropbox => 'D'
    case GoogleDrive => 'G'
    case _ => 'o'
  }

  /** The leading characters String.trim removes: everything up to U+0020. */
  function TrimStart(s: string): string
    decreases |s|
  {
    if s != [] && s[0] <= ' ' then TrimStart(s[1..]) else s
  }

  /** The trailing characters String.trim removes. */
  function TrimEnd(s: string): string
    decreases |s|
  {
    if s != [] && s[|s| - 1] <= ' ' then TrimEnd(s[..|s| - 1]) else s
  }

  /** String.trim. */
  function Trim(s: string): string
  {
    TrimEnd(TrimStart(s))
  }

  lemma {:induction false} TrimStartBlank(s: string)
    ensures TrimStart(s) == [] <==> forall i :: 0 <= i < |s| ==> s[i] <= ' '
    ensures TrimStart(s) != [] ==> TrimStart(s)[0] > ' '
    decreases |s|
  {
    if s != [] && s[0] <= ' ' {
      TrimStartBlank(s[1..]);
      assert forall i :: 1 <= i < |s| ==> s[i] == s[1..][i - 1];
    }
  }

  lemma {:induction false} TrimEndKeepsFirst(s: string)
    requires s != [] && s[0] > ' '
    ensures TrimEnd(s) != []
    decreases |s|
  {
    if s[|s| - 1] <= ' ' {
      TrimEndKeepsFirst(s[..|s| - 1]);
    }
  }

  /** Trimming leaves nothing exactly when every character is a control character or a space. */
  lemma TrimEmptyIffBlank(s: string)
    ensures Trim(s) == [] <==> forall i :: 0 <= i < |s| ==> s[i] <= ' '
  {
    TrimStartBlank(s);
    if TrimStart(s) != [] {
      TrimEndKeepsFirst(TrimStart(s));
    }
  }

  /**
   * The default-email rule of shareFiles: the stored address, untrimmed, is
   * the one recipient when it exists and is not blank; otherwise there is
   * none.
   */
  function DefaultRecipients(defaultEmail: Option<string>): (r: seq<string>)
    ensures r != [] <==> defaultEmail.Some? && exists i :: 0 <= i < |defaultEmail.value| && defaultEmail.value[i] > ' '
    ensures r != [] ==> r == [defaultEmail.value]
  {
    if defaultEmail.None? then []
    else
      TrimEmptyIffBlank(defaultEmail.value);
      if |Trim(defaultEmail.value)| > 0 then [defaultEmail.value] else []
  }

  const ShareMimeType: string := "text/xml"

  /**
   * shareFiles: records the send-multiple intent built for the moved files,
   * typed as XML, with the default recipient. The event is the intent, not
   * an offer the user sees: starting the chooser, which happens only from an
   * activity with an app that accepts the intent, is not modelled.
   */
  function ShareFiles(st: Store, paths: seq<string>, format: ExportFormat, defaultEmail: Option<string>): Store
  {
    Call(st, ShareOffered(paths, ShareMimeType, format, DefaultRecipients(defaultEmail)))
  }
}
