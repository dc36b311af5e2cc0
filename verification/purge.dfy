/** The post-export purge of the book (backupAndDeleteTransactions). */
module Purge {
  import opened ExportModel

  /** The records deleteAllNonTemplateTransactions keeps: the template ones, in their order. */
  function Templates(ts: seq<Transaction>): (r: seq<Transaction>)
    ensures |r| <= |ts|
    ensures forall t :: t in r ==> t.isTemplate && t in ts
    ensures forall t :: t in ts && t.isTemplate ==> t in r
    decreases |ts|
  {
    if ts == [] then []
    else (if ts[0].isTemplate then [ts[0]] else []) + Templates(ts[1..])
  }

  /**
   * The records after the purge: the template records, followed by the
   * opening balances fetched before the deletion when they are preserved.
   * The balances are whatever the accounts adapter returned; they are new
   * records, not the deleted ones.
   */
  function Purged(before: seq<Transaction>, preserve: bool, balances: seq<Transaction>): (after: seq<Transaction>)
    ensures forall t :: t in after ==> (t.isTemplate && t in before) || (preserve && t in balances)
    ensures forall t :: t in before && t.isTemplate ==> t in after
    ensures preserve ==> forall t :: t in balances ==> t in after
    ensures !preserve ==> forall t :: t in after ==> t.isTemplate
  {
    Templates(before) + (if preserve then balances else [])
  }

  /**
   * The calls of the purge, in their fixed order: back up the whole book,
   * fetch the opening balances when they are preserved, delete the
   * non-template records, and insert the fetched balances again. The result
   * of the backup is never looked at, so the deletion follows it either way.
   */
  function PurgeCalls(before: seq<Transaction>, preserve: bool, balances: seq<Transaction>): seq<Event>
  {
    [CreateBackup(before)]
      + (if preserve then [FetchOpeningBalances] else [])
      + [DeleteNonTemplateTransactions]
      + (if preserve then [BulkInsert(balances)] else [])
  }

  /**
   * The backup comes first and holds every record of the book, and the
   * deletion comes after it and after the opening balances were fetched.
   */
  lemma BackupBeforeDeletion(before: seq<Transaction>, preserve: bool, balances: seq<Transaction>)
    ensures var c := PurgeCalls(before, preserve, balances);
      && c[0] == CreateBackup(before)
      && exists k :: 0 < k < |c| && c[k] == DeleteNonTemplateTransactions && CreateBackup(before) !in c[k..]
                     && (preserve ==> FetchOpeningBalances in c[..k] && c[k + 1..] == [BulkInsert(balances)])
  {
    var c := PurgeCalls(before, preserve, balances);
    if preserve {
      assert c == [CreateBackup(before), FetchOpeningBalances, DeleteNonTemplateTransactions, BulkInsert(balances)];
      assert c[..2][1] == FetchOpeningBalances;
      assert c[2..] == [DeleteNonTemplateTransactions, BulkInsert(balances)];
      assert c[3..] == [BulkInsert(balances)];
    } else {
      assert c == [CreateBackup(before), DeleteNonTemplateTransactions];
      assert c[1..] == [DeleteNonTemplateTransactions];
    }
  }
}
