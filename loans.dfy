/** BookManager: the in-memory list of borrowed books, with renewal (due date
    moved 14 calendar days on) and return (entry removed), both by id. */
module Loans {
  import opened Wrappers
  import opened CivilDate

  /** One borrowed-book record. `category` holds a category's display name. */
  datatype Loan = Loan(
    id: int,
    title: string,
    author: string,
    category: string,
    cover: string,
    dueDate: Date,
    status: string)

  /** How far a renewal moves the due date, in calendar days. */
  const RenewalDays: nat := 14

  /** The status every loan carries; nothing sets another. */
  const Borrowed: string := "borrowed"

  predicate UniqueIds(s: seq<Loan>) {
    forall i, j :: 0 <= i < j < |s| ==> s[i].id != s[j].id
  }

  predicate AllDatesValid(s: seq<Loan>) {
    forall i :: 0 <= i < |s| ==> ValidDate(s[i].dueDate)
  }

  predicate AllBorrowed(s: seq<Loan>) {
    forall i :: 0 <= i < |s| ==> s[i].status == Borrowed
  }

  /** What every list the registry holds satisfies. */
  predicate WellFormed(s: seq<Loan>) {
    UniqueIds(s) && AllDatesValid(s) && AllBorrowed(s)
  }

  predicate HasId(s: seq<Loan>, id: int) {
    exists i :: 0 <= i < |s| && s[i].id == id
  }

  /** The list the page starts with. */
  function SeedLoans(): (r: seq<Loan>)
    ensures |r| == 3 && r[0].id == 1 && r[1].id == 2 && r[2].id == 3
    ensures WellFormed(r)
  {
    [ Loan(1, "تعلم البرمجة من الصفر", "أحمد محمد", "البرمجة", "fas fa-code",
           Date(2024, 12, 15), Borrowed),
      Loan(2, "فن التصميم الجرافيكي", "فاطمة علي", "الفنون", "fas fa-palette",
           Date(2024, 12, 20), Borrowed),
      Loan(3, "مبادئ الفيزياء الحديثة", "د. خالد حسن", "العلوم", "fas fa-microscope",
           Date(2024, 12, 25), Borrowed) ]
  }

  /** The index of the first loan with that id (find / findIndex), if any. */
  function FirstIndexOf(s: seq<Loan>, id: int): (r: Option<nat>)
    ensures r.Some? ==> r.value < |s| && s[r.value].id == id &&
                        forall j :: 0 <= j < r.value ==> s[j].id != id
    ensures r.None? <==> !HasId(s, id)
  {
    if s == [] then None
    else if s[0].id == id then Some(0)
    else
      match FirstIndexOf(s[1..], id)
      case None =>
        assert forall j :: 1 <= j < |s| ==> s[j] == s[1..][j - 1];
        None
      case Some(k) => Some(k + 1)
  }

  /** The list after renewing the first loan with that id. */
  function Renewed(s: seq<Loan>, id: int): (r: seq<Loan>)
    requires AllDatesValid(s)
    ensures |r| == |s| && AllDatesValid(r)
    ensures !HasId(s, id) ==> r == s
    ensures HasId(s, id) ==>
      var i := FirstIndexOf(s, id).value;
      && (forall j :: 0 <= j < |s| && j != i ==> r[j] == s[j])
      && r[i] == s[i].(dueDate := r[i].dueDate)
      && DayNumber(r[i].dueDate) == DayNumber(s[i].dueDate) + RenewalDays
  {
    match FirstIndexOf(s, id)
    case None => s
    case Some(i) =>
      var due := AddDays(s[i].dueDate, RenewalDays);
      var r := s[i := s[i].(dueDate := due)];
      assert forall j :: 0 <= j < |r| ==> r[j].dueDate == if j == i then due else s[j].dueDate;
      r
  }

  /** The list after returning the first loan with that id. */
  function Removed(s: seq<Loan>, id: int): (r: seq<Loan>)
    ensures !HasId(s, id) ==> r == s
    ensures HasId(s, id) ==>
      var i := FirstIndexOf(s, id).value;
      && |r| == |s| - 1
      && (forall j :: 0 <= j < i ==> r[j] == s[j])
      && (forall j :: i <= j < |r| ==> r[j] == s[j + 1])
      && multiset(r) + multiset{s[i]} == multiset(s)
  {
    match FirstIndexOf(s, id)
    case None => s
    case Some(i) =>
      assert s == s[..i] + [s[i]] + s[i + 1..];
      s[..i] + s[i + 1..]
  }

  /** Renewal keeps the list well formed: ids, statuses and validity of dates. */
  lemma RenewedWellFormed(s: seq<Loan>, id: int)
    requires WellFormed(s)
    ensures WellFormed(Renewed(s, id))
  {
    var r := Renewed(s, id);
    assert forall j :: 0 <= j < |s| ==> r[j].id == s[j].id && r[j].status == s[j].status;
  }

  /** Returning keeps the list well formed. */
  lemma RemovedWellFormed(s: seq<Loan>, id: int)
    requires WellFormed(s)
    ensures WellFormed(Removed(s, id))
  {
    if HasId(s, id) {
      var i := FirstIndexOf(s, id).value;
      var r := Removed(s, id);
      assert forall j :: 0 <= j < |r| ==> r[j] == s[if j < i then j else j + 1];
    }
  }

  /** With unique ids, a returned loan is gone: a second return of the same id fails. */
  lemma ReturnTwiceFails(s: seq<Loan>, id: int)
    requires UniqueIds(s) && HasId(s, id)
    ensures !HasId(Removed(s, id), id)
  {
    var i := FirstIndexOf(s, id).value;
    var r := Removed(s, id);
    forall j | 0 <= j < |r| ensures r[j].id != id {
      if j >= i {
        assert r[j] == s[j + 1];
      }
    }
  }

  /** A renewal does not change which ids are on loan, so renewing again succeeds. */
  lemma RenewKeepsIds(s: seq<Loan>, id: int, other: int)
    requires AllDatesValid(s)
    ensures HasId(Renewed(s, id), other) <==> HasId(s, other)
  {
    var r := Renewed(s, id);
    assert forall j :: 0 <= j < |s| ==> r[j].id == s[j].id;
    if HasId(s, other) {
      var k :| 0 <= k < |s| && s[k].id == other;
      assert r[k].id == other;
    }
  }

  /** Linear scan for the first loan with that id. */
  method FindIndex(s: seq<Loan>, id: int) returns (r: Option<nat>)
    ensures r == FirstIndexOf(s, id)
  {
    var i := 0;
    while i < |s|
      invariant 0 <= i <= |s|
      invariant forall j :: 0 <= j < i ==> s[j].id != id
    {
      if s[i].id == id {
        return Some(i);
      }
      i := i + 1;
    }
    return None;
  }

  /** The registry: its list is replaced by each renewal and return. */
  class BookManager {
    var borrowedBooks: seq<Loan>

    ghost predicate Valid()
      reads this
    {
      WellFormed(borrowedBooks)
    }

    constructor ()
      ensures Valid() && borrowedBooks == SeedLoans()
    {
      borrowedBooks := SeedLoans();
    }

    method GetBorrowedBooks() returns (books: seq<Loan>)
      ensures books == borrowedBooks
    {
      books := borrowedBooks;
    }

    /** Moves the first matching loan's due date 14 calendar days on. */
    method RenewBook(bookId: int) returns (ok: bool)
      requires Valid()
      modifies this
      ensures Valid()
      ensures ok <==> HasId(old(borrowedBooks), bookId)
      ensures borrowedBooks == Renewed(old(borrowedBooks), bookId)
    {
      RenewedWellFormed(borrowedBooks, bookId);
      var found := FindIndex(borrowedBooks, bookId);
      match found {
        case None =>
          ok := false;
        case Some(i) =>
          var book := borrowedBooks[i];
          borrowedBooks := borrowedBooks[i := book.(dueDate := AddDays(book.dueDate, RenewalDays))];
          ok := true;
      }
    }

    /** Removes the first matching loan; the others keep their order. */
    method ReturnBook(bookId: int) returns (ok: bool)
      requires Valid()
      modifies this
      ensures Valid()
      ensures ok <==> HasId(old(borrowedBooks), bookId)
      ensures borrowedBooks == Removed(old(borrowedBooks), bookId)
    {
      RemovedWellFormed(borrowedBooks, bookId);
      var found := FindIndex(borrowedBooks, bookId);
      match found {
        case None =>
          ok := false;
        case Some(i) =>
          borrowedBooks := borrowedBooks[..i] + borrowedBooks[i + 1..];
          ok := true;
      }
    }
  }

  /** The seeded walk-through: renew 1, renew an unknown id, return 1 twice. */
  method SeededRegistryWalkthrough()
  {
    var m := new BookManager();
    var seed := m.borrowedBooks;
    assert FirstIndexOf(seed, 1) == Some(0);
    var ok := m.RenewBook(1);
    assert ok;
    FourteenDaysWithinMonth();
    assert m.borrowedBooks[0].dueDate == Date(2024, 12, 29);
    var renewed := m.borrowedBooks;
    assert !HasId(renewed, 99);
    ok := m.RenewBook(99);
    assert !ok && m.borrowedBooks == renewed;
    assert FirstIndexOf(renewed, 1) == Some(0);
    ok := m.ReturnBook(1);
    assert ok && |m.borrowedBooks| == 2;
    assert m.borrowedBooks[0].id == 2 && m.borrowedBooks[1].id == 3;
    ok := m.ReturnBook(1);
    assert !ok;
  }
}
