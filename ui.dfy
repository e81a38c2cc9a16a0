/** UIManager's decisions that do not touch the page: the notification icon
    for a severity and the value shown in the book-count badge. */
module Ui {
  import opened Loans

  /** Icon names by notification severity. */
  const AlertIcons: map<string, string> := map[
    "success" := "check-circle",
    "danger" := "exclamation-triangle",
    "warning" := "exclamation-circle",
    "info" := "info-circle"]

  /** The icon used for any severity outside the table. */
  const DefaultAlertIcon: string := "info-circle"

  /** getAlertIcon: the table's icon for a known severity, otherwise the default. */
  function AlertIcon(kind: string): (icon: string)
    ensures kind in AlertIcons ==> icon == AlertIcons[kind]
    ensures kind !in AlertIcons ==> icon == DefaultAlertIcon
  {
    if kind in AlertIcons && AlertIcons[kind] != "" then AlertIcons[kind] else DefaultAlertIcon
  }

  /** Every severity maps to one of the four icons, and an unknown one is
      shown exactly like "info". */
  lemma AlertIconRange(kind: string)
    ensures AlertIcon(kind) in AlertIcons.Values
    ensures kind !in AlertIcons ==> AlertIcon(kind) == AlertIcon("info")
  {
    assert AlertIcons["info"] == DefaultAlertIcon;
  }

  /** The four severities have four different icons. */
  lemma AlertIconsDistinct(a: string, b: string)
    requires a in AlertIcons && b in AlertIcons && a != b
    ensures AlertIcon(a) != AlertIcon(b)
  {
  }

  /** updateBookCount: the badge shows how many loans the registry holds. */
  method BookCount(books: BookManager) returns (count: nat)
    ensures count == |books.borrowedBooks|
  {
    var current := books.GetBorrowedBooks();
    count := |current|;
  }
}
