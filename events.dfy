/** EventManager's decisions: the login-form guard and the category filter. */
module Events {
  import opened Wrappers
  import opened CivilDate
  import opened Catalog
  import opened Loans
  import opened Session

  /** The id of the catch-all category, which shows every loan. */
  const AllId: string := "all"

  /** r is s with some elements dropped, the rest in their original order. */
  predicate IsSubsequence(r: seq<Loan>, s: seq<Loan>)
    decreases |s|
  {
    if r == [] then true
    else if s == [] then false
    else if r[0] == s[0] then IsSubsequence(r[1..], s[1..])
    else IsSubsequence(r, s[1..])
  }

  /** The loans whose `category` string is exactly `category`, in list order. */
  function KeepCategory(s: seq<Loan>, category: string): (r: seq<Loan>)
    ensures IsSubsequence(r, s)
    ensures forall x :: multiset(r)[x] == if x.category == category then multiset(s)[x] else 0
  {
    if s == [] then []
    else
      var rest := KeepCategory(s[1..], category);
      assert s == [s[0]] + s[1..];
      if s[0].category == category then
        assert ([s[0]] + rest)[1..] == rest;
        [s[0]] + rest
      else rest
  }

  /** filterBooksByCategory as written: "all" keeps everything, any other
      argument is compared with each loan's `category` field as it is. */
  function FilterByCategory(books: seq<Loan>, categoryId: string): (r: seq<Loan>)
    ensures categoryId == AllId ==> r == books
    ensures categoryId != AllId ==>
      && IsSubsequence(r, books)
      && forall x :: multiset(r)[x] == if x.category == categoryId then multiset(books)[x] else 0
  {
    if categoryId == AllId then books else KeepCategory(books, categoryId)
  }

  /** The filter with the selected category's display name looked up first:
      "all" keeps everything, a known category keeps the loans carrying its
      name, an unknown id keeps nothing. */
  function FilterByCategoryName(books: seq<Loan>, categoryId: string): (r: seq<Loan>)
    ensures categoryId == AllId ==> r == books
    ensures categoryId != AllId && GetCategoryById(categoryId).None? ==> r == []
    ensures categoryId != AllId && GetCategoryById(categoryId).Some? ==>
      var name := GetCategoryById(categoryId).value.name;
      && IsSubsequence(r, books)
      && forall x :: multiset(r)[x] == if x.category == name then multiset(books)[x] else 0
  {
    if categoryId == AllId then books
    else
      match GetCategoryById(categoryId)
      case None => []
      case Some(c) => KeepCategory(books, c.name)
  }

  /** An element of a subsequence is an element of the sequence. */
  lemma {:induction false} SubsequenceMembers(r: seq<Loan>, s: seq<Loan>, x: Loan)
    requires IsSubsequence(r, s) && x in r
    ensures x in s
    decreases |s|
  {
    if r[0] == s[0] {
      if x != r[0] {
        assert x in r[1..];
        SubsequenceMembers(r[1..], s[1..], x);
      }
    } else {
      SubsequenceMembers(r, s[1..], x);
    }
  }

  /** A category that no loan carries selects nothing. */
  lemma {:induction false} KeepCategoryNone(s: seq<Loan>, category: string)
    requires forall i :: 0 <= i < |s| ==> s[i].category != category
    ensures KeepCategory(s, category) == []
  {
    if s != [] {
      KeepCategoryNone(s[1..], category);
    }
  }

  /** Category ids are Latin slugs; the seeded loans carry Arabic names. */
  lemma SeededCategoriesAreNotIds(c: Category, i: nat)
    requires c in Categories && i < |SeedLoans()|
    ensures SeedLoans()[i].category != c.id
  {
    var seed := SeedLoans();
    assert seed[i].category[0] == 'ا';
    assert c.id[0] <= 'z';
  }

  /** As written, the filter never matches the seeded loans by a category id,
      although the first seeded loan belongs to "programming" by name. */
  lemma SeededFilterFindsNothing(categoryId: string)
    requires categoryId != AllId && GetCategoryById(categoryId).Some?
    ensures FilterByCategory(SeedLoans(), categoryId) == []
    ensures SeedLoans()[0].category == GetCategoryById("programming").value.name
  {
    var c := GetCategoryById(categoryId).value;
    var seed := SeedLoans();
    forall i | 0 <= i < |seed| ensures seed[i].category != categoryId {
      SeededCategoriesAreNotIds(c, i);
    }
    KeepCategoryNone(seed, categoryId);
    assert Categories[1].id == "programming";
    LookupOwnId(Categories[1]);
  }

  /** Looking the name up first, "programming" shows the programming book. */
  lemma SeededFilterByNameFindsProgramming()
    ensures FilterByCategoryName(SeedLoans(), "programming") == [SeedLoans()[0]]
  {
    assert Categories[1].id == "programming";
    LookupOwnId(Categories[1]);
  }

  /** Category filter through the registry: what is rendered for a click. */
  method FilterBooksByCategory(books: BookManager, categoryId: string) returns (shown: seq<Loan>)
    ensures shown == FilterByCategory(books.borrowedBooks, categoryId)
  {
    var all := books.GetBorrowedBooks();
    shown := if categoryId == AllId then all else KeepCategory(all, categoryId);
  }

  /** The login form only proceeds when both fields are non-empty. */
  predicate LoginFieldsFilled(username: string, password: string) {
    username != "" && password != ""
  }

  /** Login form submission: logs in when both fields are filled, otherwise
      leaves the session exactly as it was. */
  method SubmitLogin(users: UserManager, username: string, password: string, joinDate: string)
    returns (accepted: bool)
    modifies users
    ensures accepted <==> username != "" && password != ""
    ensures accepted ==> users.currentUser == Some(FreshProfile(username, joinDate))
    ensures !accepted ==> users.currentUser == old(users.currentUser)
  {
    accepted := LoginFieldsFilled(username, password);
    if accepted {
      var _ := users.Login(username, password, joinDate);
    }
  }
}
