/** CategoryManager: the fixed table of book categories and lookup by id. */
module Catalog {
  import opened Wrappers

  /** A category descriptor: a stable slug `id`, the display `name` that
      loans carry in their `category` field, and an icon class. */
  datatype Category = Category(id: string, name: string, icon: string)

  /** The eight categories, in display order; the first is the catch-all. */
  const Categories: seq<Category> := [
    Category("all", "جميع الكتب", "fas fa-book"),
    Category("programming", "البرمجة", "fas fa-code"),
    Category("arts", "الفنون", "fas fa-palette"),
    Category("science", "العلوم", "fas fa-microscope"),
    Category("history", "التاريخ", "fas fa-history"),
    Category("literature", "الأدب", "fas fa-heart"),
    Category("economics", "الاقتصاد", "fas fa-chart-line"),
    Category("education", "التعليم", "fas fa-graduation-cap")
  ]

  predicate DistinctIds(cs: seq<Category>) {
    forall i, j :: 0 <= i < j < |cs| ==> cs[i].id != cs[j].id
  }

  /** The first category of cs whose id is `id` (Array.prototype.find). */
  function FindById(cs: seq<Category>, id: string): (r: Option<Category>)
    ensures r.Some? ==> exists i :: 0 <= i < |cs| && cs[i] == r.value && r.value.id == id &&
                          forall j :: 0 <= j < i ==> cs[j].id != id
    ensures r.None? <==> forall i :: 0 <= i < |cs| ==> cs[i].id != id
  {
    if cs == [] then None
    else if cs[0].id == id then Some(cs[0])
    else
      var r := FindById(cs[1..], id);
      assert forall i :: 1 <= i < |cs| ==> cs[i] == cs[1..][i - 1];
      r
  }

  /** getCategories: the whole table, in order. */
  function GetCategories(): (r: seq<Category>)
    ensures |r| == 8 && r[0].id == "all" && DistinctIds(r)
  {
    Categories
  }

  /** getCategoryById: the first table entry with that id, or nothing. */
  function GetCategoryById(id: string): (r: Option<Category>)
    ensures r.Some? ==> r.value in Categories && r.value.id == id
    ensures r.None? <==> forall c :: c in Categories ==> c.id != id
  {
    FindById(Categories, id)
  }

  /** With distinct ids, the first match at index k is the entry at k. */
  lemma {:induction false} FindByIdAt(cs: seq<Category>, k: nat)
    requires DistinctIds(cs) && k < |cs|
    ensures FindById(cs, cs[k].id) == Some(cs[k])
  {
    if k > 0 {
      assert cs[1..][k - 1] == cs[k];
      FindByIdAt(cs[1..], k - 1);
    }
  }

  /** Every table entry is found again by its own id. */
  lemma LookupOwnId(c: Category)
    requires c in Categories
    ensures GetCategoryById(c.id) == Some(c)
  {
    var k :| 0 <= k < |Categories| && Categories[k] == c;
    FindByIdAt(Categories, k);
  }
}
