/**
 * The shared category tree and the flat registry of document types: their
 * name-ordered listings, the parent normalisation, and the reference counts
 * that guard deletion.
 */
module Catalog {
  import opened Optionals
  import opened Tables
  import opened Records
  import opened NameOrder

  const NameRequiredMessage := "Name is required"
  const CategoryNotFoundMessage := "Category not found"
  const CategoryInUseMessage := "Category is in use"
  const HasSubcategoriesMessage := "Category has subcategories"
  const TypeNotFoundMessage := "Document type not found"
  const TypeInUseMessage := "Document type is in use"

  /** The names seeded at startup. */
  const DefaultCategories: seq<string> := ["Contract", "Factura", "Raport financiar", "Cerere angajat", "Document legal"]
  const DefaultTypes: seq<string> := ["Intern", "Extern", "Administrativ", "Diverse"]

  /** `parentId || null`: a missing or zero parent is stored as null. */
  function StoredParent(parentId: Option<int>): Option<int>
  {
    match parentId
    case Some(v) => if v == 0 then None else parentId
    case None => None
  }

  /** A category as listed, with its single parent resolved (`as: "parent"`). */
  datatype CategoryListing = CategoryListing(row: Row<Category>, parent: Option<Row<Category>>)

  function ParentRow(categories: Table<Category>, c: Category): Option<Row<Category>>
  {
    match c.parentId
    case None => None
    case Some(pid) =>
      match categories.Get(pid)
      case None => None
      case Some(parent) => Some(Row(pid, parent))
  }

  /** The foreign key `parentId` (`belongsTo(Category, { foreignKey: "parentId" })`),
      checked when the writing statement completes: a stored parent names a
      category row, possibly the written row itself (`selfId`). */
  predicate ParentResolves(categories: Table<Category>, parent: Option<int>, selfId: int)
  {
    parent.None? || parent.value == selfId || categories.Get(parent.value).Some?
  }

  /** Every stored parent names an existing category. */
  ghost predicate ParentsResolve(categories: Table<Category>)
  {
    forall x :: x in categories.rows && x.data.parentId.Some? ==> categories.Get(x.data.parentId.value).Some?
  }

  /** While every stored parent exists, the listing shows a parent for exactly
      the categories that have one, and it is the row their parentId names. */
  lemma ListedParentsResolve(categories: Table<Category>, l: CategoryListing)
    requires ParentsResolve(categories)
    requires l in ListCategories(categories)
    ensures l.parent.Some? <==> l.row.data.parentId.Some?
    ensures l.parent.Some? ==> l.parent.value.id == l.row.data.parentId.value
                               && categories.Get(l.parent.value.id) == Some(l.parent.value.data)
  {
  }

  function ListingName(l: CategoryListing): string
  {
    l.row.data.name
  }

  function TypeName(x: Row<DocumentType>): string
  {
    x.data.name
  }

  /** `GET /categories`: every category once, with its parent, by name. */
  function ListCategories(categories: Table<Category>): (r: seq<CategoryListing>)
    ensures |r| == |categories.rows|
    ensures forall l :: l in r <==> l.row in categories.rows && l.parent == ParentRow(categories, l.row.data)
    ensures SortedBy(r, ListingName)
  {
    var rows := categories.rows;
    var listed := seq(|rows|, i requires 0 <= i < |rows| => CategoryListing(rows[i], ParentRow(categories, rows[i].data)));
    var r := SortByName(listed, ListingName);
    assert |r| == |listed| by {
      assert |multiset(r)| == |multiset(listed)|;
    }
    assert forall l :: l in r <==> l in listed by {
      forall l ensures l in r <==> l in listed {
        assert l in r <==> l in multiset(r);
        assert l in listed <==> l in multiset(listed);
      }
    }
    assert forall l :: l in listed <==> l.row in rows && l.parent == ParentRow(categories, l.row.data) by {
      forall l ensures l in listed <==> l.row in rows && l.parent == ParentRow(categories, l.row.data) {
        if l.row in rows {
          var i :| 0 <= i < |rows| && rows[i] == l.row;
          if l.parent == ParentRow(categories, l.row.data) {
            assert listed[i] == l;
          }
        }
      }
    }
    r
  }

  /** `GET /document-types`: every type, by name. */
  function ListTypes(types: Table<DocumentType>): (r: seq<Row<DocumentType>>)
    ensures multiset(r) == multiset(types.rows)
    ensures SortedBy(r, TypeName)
  {
    SortByName(types.rows, TypeName)
  }

  // ---------------------------------------------------------------------------
  // Reference counts

  function UsesCategory(id: int): Row<Document> -> bool
  {
    (x: Row<Document>) => x.data.categoryId == id
  }

  function ChildOf(id: int): Row<Category> -> bool
  {
    (x: Row<Category>) => x.data.parentId == Some(id)
  }

  function UsesType(id: int): Row<Document> -> bool
  {
    (x: Row<Document>) => x.data.documentTypeId == Some(id)
  }

  /** `Document.count({ where: { categoryId: id } }) > 0`. */
  function CategoryInUse(docs: seq<Row<Document>>, id: int): (b: bool)
    ensures b <==> exists x :: x in docs && x.data.categoryId == id
  {
    Count(docs, UsesCategory(id)) > 0
  }

  /** `Category.count({ where: { parentId: id } }) > 0`. */
  function HasSubcategories(categories: seq<Row<Category>>, id: int): (b: bool)
    ensures b <==> exists x :: x in categories && x.data.parentId == Some(id)
  {
    Count(categories, ChildOf(id)) > 0
  }

  /** `Document.count({ where: { documentTypeId: id } }) > 0`. */
  function TypeInUse(docs: seq<Row<Document>>, id: int): (b: bool)
    ensures b <==> exists x :: x in docs && x.data.documentTypeId == Some(id)
  {
    Count(docs, UsesType(id)) > 0
  }

  // ---------------------------------------------------------------------------
  // Seeding

  function CategoryName(c: Category): string
  {
    c.name
  }

  function DocumentTypeName(t: DocumentType): string
  {
    t.name
  }

  /** The row `findOrCreate({ where: { name } })` creates: a category without parent. */
  function NewCategory(name: string): Category
  {
    Category(name, None)
  }

  function NewType(name: string): DocumentType
  {
    DocumentType(name)
  }

  /** Some row carries the name (`findOrCreate({ where: { name } })` finds it). */
  function HasName<T>(rows: seq<Row<T>>, nameOf: T -> string, name: string): (b: bool)
    ensures b <==> exists x :: x in rows && nameOf(x.data) == name
  {
    if rows == [] then false else nameOf(rows[0].data) == name || HasName(rows[1..], nameOf, name)
  }

  /** `findOrCreate({ where: { name } })` on a table. */
  function FindOrCreate<T(!new)>(t: Table<T>, nameOf: T -> string, make: string -> T, name: string): Table<T>
  {
    if HasName(t.rows, nameOf, name) then t else t.Insert(make(name))
  }

  /** The seeding loop: find-or-create each name in turn. */
  function SeedNames<T(!new)>(t: Table<T>, names: seq<string>, nameOf: T -> string, make: string -> T): Table<T>
    decreases |names|
  {
    if names == [] then t
    else FindOrCreate(SeedNames(t, names[..|names| - 1], nameOf, make), nameOf, make, names[|names| - 1])
  }

  /** `after` is `before` with rows appended, each created from one of
      `names` that no row of `before` carried, no name appended twice. */
  ghost predicate SeededFrom<T(!new)>(before: Table<T>, after: Table<T>, names: seq<string>,
                                      nameOf: T -> string, make: string -> T)
  {
    && before.nextId <= after.nextId
    && before.rows <= after.rows
    && (forall i :: |before.rows| <= i < |after.rows| ==>
          && nameOf(after.rows[i].data) in names
          && after.rows[i].data == make(nameOf(after.rows[i].data))
          && !HasName(before.rows, nameOf, nameOf(after.rows[i].data)))
    && (forall i, j :: |before.rows| <= i < j < |after.rows| ==>
          nameOf(after.rows[i].data) != nameOf(after.rows[j].data))
  }

  /** After seeding, every name is carried by some row. */
  lemma {:induction false} SeedCovers<T(!new)>(t: Table<T>, names: seq<string>, nameOf: T -> string, make: string -> T)
    requires forall n :: nameOf(make(n)) == n
    ensures forall n :: n in names ==> HasName(SeedNames(t, names, nameOf, make).rows, nameOf, n)
    decreases |names|
  {
    if names != [] {
      var init := names[..|names| - 1];
      var last := names[|names| - 1];
      var mid := SeedNames(t, init, nameOf, make);
      SeedCovers(t, init, nameOf, make);
      var after := SeedNames(t, names, nameOf, make);
      assert mid.rows <= after.rows;
      if !HasName(mid.rows, nameOf, last) {
        assert after.rows[|after.rows| - 1] == Row(mid.nextId, make(last));
      }
      forall n | n in names
        ensures HasName(after.rows, nameOf, n)
      {
        if n != last {
          assert n in init by {
            var k :| 0 <= k < |names| && names[k] == n;
            assert init[k] == n;
          }
          HasNameGrows(mid.rows, after.rows, nameOf, n);
        }
      }
    }
  }

  /** Seeding only appends rows built from names no row carried before,
      each name at most once; existing rows are untouched. */
  lemma {:induction false} SeedAppends<T(!new)>(t: Table<T>, names: seq<string>, nameOf: T -> string, make: string -> T)
    requires forall n :: nameOf(make(n)) == n
    ensures SeededFrom(t, SeedNames(t, names, nameOf, make), names, nameOf, make)
    decreases |names|
  {
    if names != [] {
      var init := names[..|names| - 1];
      var last := names[|names| - 1];
      var mid := SeedNames(t, init, nameOf, make);
      SeedAppends(t, init, nameOf, make);
      assert forall n :: n in init ==> n in names;
      if !HasName(mid.rows, nameOf, last) {
        SeedStep(t, mid, names, nameOf, make, last);
      }
    }
  }

  /** Seeding a table that already carries every name changes nothing. */
  lemma {:induction false} SeedIdempotent<T(!new)>(t: Table<T>, names: seq<string>, nameOf: T -> string, make: string -> T)
    requires forall n :: n in names ==> HasName(t.rows, nameOf, n)
    ensures SeedNames(t, names, nameOf, make) == t
    decreases |names|
  {
    if names != [] {
      var init := names[..|names| - 1];
      assert forall n :: n in init ==> n in names;
      SeedIdempotent(t, init, nameOf, make);
    }
  }

  /** Seeding twice adds nothing the first run did not. */
  lemma SeedTwice<T(!new)>(t: Table<T>, names: seq<string>, nameOf: T -> string, make: string -> T)
    requires forall n :: nameOf(make(n)) == n
    ensures var once := SeedNames(t, names, nameOf, make);
      SeedNames(once, names, nameOf, make) == once
  {
    SeedCovers(t, names, nameOf, make);
    SeedIdempotent(SeedNames(t, names, nameOf, make), names, nameOf, make);
  }

  /** After startup seeding every default category and type exists, only
      missing names were added, each once (a category without parent), and
      the rows already present are untouched. */
  lemma SeedDefaults(categories: Table<Category>, types: Table<DocumentType>)
    ensures var seeded := SeedNames(categories, DefaultCategories, CategoryName, NewCategory);
      && (forall n :: n in DefaultCategories ==> HasName(seeded.rows, CategoryName, n))
      && SeededFrom(categories, seeded, DefaultCategories, CategoryName, NewCategory)
    ensures var seeded := SeedNames(types, DefaultTypes, DocumentTypeName, NewType);
      && (forall n :: n in DefaultTypes ==> HasName(seeded.rows, DocumentTypeName, n))
      && SeededFrom(types, seeded, DefaultTypes, DocumentTypeName, NewType)
  {
    SeedCovers(categories, DefaultCategories, CategoryName, NewCategory);
    SeedAppends(categories, DefaultCategories, CategoryName, NewCategory);
    SeedCovers(types, DefaultTypes, DocumentTypeName, NewType);
    SeedAppends(types, DefaultTypes, DocumentTypeName, NewType);
  }

  /** One find-or-create that had to create keeps `SeededFrom`. */
  lemma SeedStep<T(!new)>(before: Table<T>, mid: Table<T>, names: seq<string>,
                          nameOf: T -> string, make: string -> T, name: string)
    requires SeededFrom(before, mid, names, nameOf, make)
    requires name in names && nameOf(make(name)) == name
    requires !HasName(mid.rows, nameOf, name)
    ensures SeededFrom(before, mid.Insert(make(name)), names, nameOf, make)
  {
    var after := mid.Insert(make(name));
    assert after.rows == mid.rows + [Row(mid.nextId, make(name))];
    forall i | |before.rows| <= i < |mid.rows|
      ensures nameOf(after.rows[i].data) != name
    {
      assert after.rows[i] == mid.rows[i] && mid.rows[i] in mid.rows;
    }
    assert !HasName(before.rows, nameOf, name) by {
      forall x | x in before.rows ensures x in mid.rows {
        var k :| 0 <= k < |before.rows| && before.rows[k] == x;
        assert mid.rows[k] == x;
      }
    }
  }

  /** A name carried by a prefix is carried by the whole. */
  lemma HasNameGrows<T>(rows: seq<Row<T>>, more: seq<Row<T>>, nameOf: T -> string, name: string)
    requires rows <= more && HasName(rows, nameOf, name)
    ensures HasName(more, nameOf, name)
  {
    var x :| x in rows && nameOf(x.data) == name;
    var k :| 0 <= k < |rows| && rows[k] == x;
    assert more[k] == x;
  }
}
