/**
 * The database as one value, the consistency the route guards keep, and
 * one lemma per kind of write showing the guard that precedes it is enough
 * to keep it: unique emails, unique assigned registration numbers, no
 * document pointing at a missing owner, category or type, no registration
 * or version pointing at a missing document, and dense version numbers.
 */
module Integrity {
  import opened Optionals
  import opened Tables
  import opened Records
  import opened Accounts
  import opened DocumentRules
  import opened Catalog

  datatype Db = Db(
    users: Table<User>,
    categories: Table<Category>,
    types: Table<DocumentType>,
    documents: Table<Document>,
    registrations: Table<Registration>,
    files: Table<DocumentFile>)

  /** A freshly created database. */
  function EmptyDb(): (db: Db)
    ensures db.documents.rows == [] && db.files.rows == []
  {
    Db(Empty(), Empty(), Empty(), Empty(), Empty(), Empty())
  }

  ghost predicate TablesValid(db: Db)
  {
    && db.users.Valid() && db.categories.Valid() && db.types.Valid()
    && db.documents.Valid() && db.registrations.Valid() && db.files.Valid()
  }

  /** Every document has an existing owner, category and type. */
  ghost predicate DocumentsResolve(db: Db)
  {
    forall x :: x in db.documents.rows ==>
      && db.users.Get(x.data.ownerId).Some?
      && db.categories.Get(x.data.categoryId).Some?
      && x.data.documentTypeId.Some?
      && db.types.Get(x.data.documentTypeId.value).Some?
  }

  /** Every registration and every file version belongs to an existing document. */
  ghost predicate ChildrenResolve(db: Db)
  {
    && (forall r :: r in db.registrations.rows ==> db.documents.Get(r.data.documentId).Some?)
    && (forall f :: f in db.files.rows ==> db.documents.Get(f.data.documentId).Some?)
  }

  ghost predicate Consistent(db: Db)
  {
    && TablesValid(db)
    && EmailsUnique(db.users.rows)
    && NumbersUnique(db.documents.rows)
    && DocumentsResolve(db)
    && ChildrenResolve(db)
    && ParentsResolve(db.categories)
    && VersionsDense(db.files.rows)
  }

  lemma EmptyConsistent()
    ensures Consistent(EmptyDb())
  {
  }

  // ---------------------------------------------------------------------------
  // Cascade filters

  /** Keeps the rows whose id `keep` accepts. */
  function IdKept<T>(keep: int -> bool): Row<T> -> bool
  {
    (x: Row<T>) => keep(x.id)
  }

  /** Keeps the registrations of the documents `keep` accepts. */
  function RegistrationsKept(keep: int -> bool): Row<Registration> -> bool
  {
    (x: Row<Registration>) => keep(x.data.documentId)
  }

  /** Every document but one. */
  function Except(id: int): int -> bool
  {
    (d: int) => d != id
  }

  /** The documents not owned by `owner`. */
  function NotOwnedBy(docs: Table<Document>, owner: int): int -> bool
  {
    (d: int) => !(docs.Get(d).Some? && docs.Get(d).value.ownerId == owner)
  }

  /** Deletes the documents `keep` rejects together with their registrations
      and versions (`onDelete: "CASCADE"`). */
  function DeleteDocuments(db: Db, keep: int -> bool): Db
  {
    db.(documents := db.documents.Retain(IdKept(keep)),
        registrations := db.registrations.Retain(RegistrationsKept(keep)),
        files := db.files.Retain(KeepDocuments(keep)))
  }

  // ---------------------------------------------------------------------------
  // Users

  /** Registering an email no user holds keeps the store consistent. */
  lemma UserAddedKeeps(db: Db, u: User)
    requires Consistent(db)
    requires UserByEmail(db.users.rows, u.email).None?
    ensures Consistent(db.(users := db.users.Insert(u)))
  {
    InsertFacts(db.users, u);
    var after := db.(users := db.users.Insert(u));
    forall x, y | x in after.users.rows && y in after.users.rows && x.id != y.id
      ensures x.data.email != y.data.email
    {
      assert after.users.rows == db.users.rows + [Row(db.users.nextId, u)];
    }
  }

  /** Deleting a user deletes their documents and, through them, those
      documents' registrations and versions; the store stays consistent. */
  lemma UserRemovedKeeps(db: Db, uid: int)
    requires Consistent(db)
    ensures Consistent(DeleteDocuments(db, NotOwnedBy(db.documents, uid)).(users := db.users.Remove(uid)))
  {
    var keep := NotOwnedBy(db.documents, uid);
    DocumentsDeletedKeeps(db, keep);
    var mid := DeleteDocuments(db, keep);
    RemoveFacts(db.users, uid);
    RetainFacts(db.documents, IdKept(keep));
    var after := mid.(users := db.users.Remove(uid));
    forall x | x in after.documents.rows
      ensures after.users.Get(x.data.ownerId).Some?
    {
      assert db.documents.Get(x.id) == Some(x.data) by {
        GetIff(db.documents, x.id, x.data);
      }
    }
    forall x, y | x in after.users.rows && y in after.users.rows && x.id != y.id
      ensures x.data.email != y.data.email
    {
    }
  }

  /** Removing a set of documents with all their registrations and versions
      keeps the store consistent. */
  lemma DocumentsDeletedKeeps(db: Db, keep: int -> bool)
    requires Consistent(db)
    ensures Consistent(DeleteDocuments(db, keep))
  {
    var after := DeleteDocuments(db, keep);
    RetainFacts(db.documents, IdKept(keep));
    RetainFacts(db.registrations, RegistrationsKept(keep));
    RetainFacts(db.files, KeepDocuments(keep));
    CascadeKeepsDense(db.files.rows, keep);
    forall r | r in after.registrations.rows
      ensures after.documents.Get(r.data.documentId).Some?
    {
      assert IdKept(keep)(Row(r.data.documentId, db.documents.Get(r.data.documentId).value));
    }
    forall f | f in after.files.rows
      ensures after.documents.Get(f.data.documentId).Some?
    {
      assert IdKept(keep)(Row(f.data.documentId, db.documents.Get(f.data.documentId).value));
    }
  }

  /** Deleting one document (and what cascades from it) keeps the store consistent. */
  lemma DocumentRemovedKeeps(db: Db, id: int)
    requires Consistent(db)
    ensures Consistent(DeleteDocuments(db, Except(id)))
  {
    DocumentsDeletedKeeps(db, Except(id));
  }

  // ---------------------------------------------------------------------------
  // Categories and types

  /** Adding a category whose parent exists, or is the new row itself,
      keeps the store consistent. */
  lemma CategoryAddedKeeps(db: Db, c: Category)
    requires Consistent(db)
    requires ParentResolves(db.categories, c.parentId, db.categories.nextId)
    ensures Consistent(db.(categories := db.categories.Insert(c)))
  {
    InsertFacts(db.categories, c);
    var after := db.categories.Insert(c);
    forall x | x in after.rows && x.data.parentId.Some?
      ensures after.Get(x.data.parentId.value).Some?
    {
      var p := x.data.parentId.value;
      if p != db.categories.nextId && x != Row(db.categories.nextId, c) {
        assert x in db.categories.rows;
      }
    }
  }

  /** Rewriting an existing category with a parent that exists keeps the
      store consistent. */
  lemma CategoryRevisedKeeps(db: Db, id: int, c: Category)
    requires Consistent(db) && db.categories.Get(id).Some?
    requires ParentResolves(db.categories, c.parentId, id)
    ensures Consistent(db.(categories := db.categories.Put(id, c)))
  {
    PutFacts(db.categories, id, c);
    var after := db.categories.Put(id, c);
    forall x | x in after.rows && x.data.parentId.Some?
      ensures after.Get(x.data.parentId.value).Some?
    {
      if x != Row(id, c) {
        assert x in db.categories.rows;
      }
    }
  }

  /** Deleting a category no document uses and no category has as parent
      keeps the store consistent. */
  lemma CategoryRemovedKeeps(db: Db, id: int)
    requires Consistent(db) && !CategoryInUse(db.documents.rows, id)
    requires !HasSubcategories(db.categories.rows, id)
    ensures Consistent(db.(categories := db.categories.Remove(id)))
  {
    RemoveFacts(db.categories, id);
    var after := db.categories.Remove(id);
    forall x | x in after.rows && x.data.parentId.Some?
      ensures after.Get(x.data.parentId.value).Some?
    {
      assert x in db.categories.rows && x.data.parentId != Some(id);
    }
  }

  /** Adding a type keeps the store consistent. */
  lemma TypeAddedKeeps(db: Db, t: DocumentType)
    requires Consistent(db)
    ensures Consistent(db.(types := db.types.Insert(t)))
  {
    InsertFacts(db.types, t);
  }

  /** Rewriting an existing type keeps the store consistent. */
  lemma TypeRevisedKeeps(db: Db, id: int, t: DocumentType)
    requires Consistent(db) && db.types.Get(id).Some?
    ensures Consistent(db.(types := db.types.Put(id, t)))
  {
    PutFacts(db.types, id, t);
  }

  /** Deleting a type no document uses keeps the store consistent. */
  lemma TypeRemovedKeeps(db: Db, id: int)
    requires Consistent(db) && !TypeInUse(db.documents.rows, id)
    ensures Consistent(db.(types := db.types.Remove(id)))
  {
    RemoveFacts(db.types, id);
  }

  // ---------------------------------------------------------------------------
  // Documents

  /** The references a written document must hold. */
  ghost predicate Resolves(db: Db, d: Document)
  {
    && db.users.Get(d.ownerId).Some?
    && db.categories.Get(d.categoryId).Some?
    && d.documentTypeId.Some?
    && db.types.Get(d.documentTypeId.value).Some?
  }

  /** Adding a document whose references resolve and whose assigned number no
      document holds keeps the store consistent. */
  lemma DocumentAddedKeeps(db: Db, d: Document)
    requires Consistent(db) && Resolves(db, d)
    requires HasNumber(d) ==> !NumberTaken(db.documents.rows, d.registrationNumber.value)
    ensures Consistent(db.(documents := db.documents.Insert(d)))
  {
    InsertFacts(db.documents, d);
    InsertKeepsNumbersUnique(db.documents, d);
    InsertKeepsResolved(db, d);
  }

  /** The reference half of `DocumentAddedKeeps`. */
  lemma InsertKeepsResolved(db: Db, d: Document)
    requires db.documents.Valid() && DocumentsResolve(db) && ChildrenResolve(db) && Resolves(db, d)
    ensures DocumentsResolve(db.(documents := db.documents.Insert(d)))
    ensures ChildrenResolve(db.(documents := db.documents.Insert(d)))
  {
    var after := db.(documents := db.documents.Insert(d));
    InsertFacts(db.documents, d);
    assert after.documents.rows == db.documents.rows + [Row(db.documents.nextId, d)];
    forall x | x in after.documents.rows
      ensures Resolves(db, x.data)
    {
      if x != Row(db.documents.nextId, d) {
        assert x in db.documents.rows;
      }
    }
  }

  /** The number half of `DocumentAddedKeeps`. */
  lemma InsertKeepsNumbersUnique(t: Table<Document>, d: Document)
    requires t.Valid() && NumbersUnique(t.rows)
    requires HasNumber(d) ==> !NumberTaken(t.rows, d.registrationNumber.value)
    ensures NumbersUnique(t.Insert(d).rows)
  {
    var added := Row(t.nextId, d);
    var rows := t.Insert(d).rows;
    assert rows == t.rows + [added];
    forall x, y | x in rows && y in rows && x.id != y.id && HasNumber(x.data)
      ensures x.data.registrationNumber != y.data.registrationNumber
    {
      if x == added {
        assert y in t.rows;
      } else if y == added {
        assert x in t.rows;
      } else {
        assert x in t.rows && y in t.rows;
      }
    }
  }

  /** Rewriting a document keeps the store consistent when its references
      resolve and its number is unchanged, unassigned, or held by no document. */
  lemma DocumentRevisedKeeps(db: Db, id: int, d: Document)
    requires Consistent(db) && db.documents.Get(id).Some? && Resolves(db, d)
    requires d.registrationNumber == db.documents.Get(id).value.registrationNumber
          || !HasNumber(d) || !NumberTaken(db.documents.rows, d.registrationNumber.value)
    ensures Consistent(db.(documents := db.documents.Put(id, d)))
  {
    var after := db.(documents := db.documents.Put(id, d));
    PutFacts(db.documents, id, d);
    PutKeepsNumbersUnique(db.documents, id, d);
    assert DocumentsResolve(after) by {
      forall x | x in after.documents.rows
        ensures Resolves(db, x.data)
      {
        if x.id != id {
          assert x in db.documents.rows;
        }
      }
    }
    assert ChildrenResolve(after) by {
      forall k | db.documents.Get(k).Some?
        ensures after.documents.Get(k).Some?
      {
      }
    }
  }

  /** Every update `ReviseDocument` accepts for one of the caller's documents
      keeps the store consistent: the ids it writes resolve, and a changed
      assigned number was checked against every document. */
  lemma RevisionKeeps(db: Db, id: int, caller: int, b: UpdateBody)
    requires Consistent(db)
    requires OwnedDocument(db.documents, id, caller).Some?
    requires ReviseDocument(OwnedDocument(db.documents, id, caller).value, b, db.categories, db.types, db.documents.rows).Success?
    ensures Consistent(db.(documents := db.documents.Put(id,
      ReviseDocument(OwnedDocument(db.documents, id, caller).value, b, db.categories, db.types, db.documents.rows).value)))
  {
    var current := OwnedDocument(db.documents, id, caller).value;
    var d := ReviseDocument(current, b, db.categories, db.types, db.documents.rows).value;
    GetIff(db.documents, id, current);
    assert Resolves(db, current);
    assert Resolves(db, d);
    assert d.registrationNumber == current.registrationNumber || !HasNumber(d)
        || !NumberTaken(db.documents.rows, d.registrationNumber.value) by {
      match b.registrationNumber
      case Omitted =>
      case SetNull =>
      case Given(s) =>
    }
    DocumentRevisedKeeps(db, id, d);
  }

  /** The number half of `DocumentRevisedKeeps`. */
  lemma PutKeepsNumbersUnique(t: Table<Document>, id: int, d: Document)
    requires t.Valid() && NumbersUnique(t.rows) && t.Get(id).Some?
    requires d.registrationNumber == t.Get(id).value.registrationNumber
          || !HasNumber(d) || !NumberTaken(t.rows, d.registrationNumber.value)
    ensures NumbersUnique(t.Put(id, d).rows)
  {
    PutFacts(t, id, d);
    var before := Row(id, t.Get(id).value);
    GetIff(t, id, before.data);
    var rows := t.Put(id, d).rows;
    forall x, y | x in rows && y in rows && x.id != y.id && HasNumber(x.data)
      ensures x.data.registrationNumber != y.data.registrationNumber
    {
      if x.id == id {
        assert x.data == d && y in t.rows;
        if d.registrationNumber == before.data.registrationNumber {
          assert before.id != y.id;
        }
      } else if y.id == id {
        assert y.data == d && x in t.rows;
        if d.registrationNumber == before.data.registrationNumber {
          assert x.id != before.id;
        }
      }
    }
  }

  // ---------------------------------------------------------------------------
  // Registrations and versions

  /** Adding a registration to an existing document keeps the store consistent. */
  lemma RegistrationAddedKeeps(db: Db, r: Registration)
    requires Consistent(db) && db.documents.Get(r.documentId).Some?
    ensures Consistent(db.(registrations := db.registrations.Insert(r)))
  {
    InsertFacts(db.registrations, r);
  }

  /** Rewriting a registration within an existing document keeps the store consistent. */
  lemma RegistrationRevisedKeeps(db: Db, id: int, r: Registration)
    requires Consistent(db) && db.registrations.Get(id).Some? && db.documents.Get(r.documentId).Some?
    ensures Consistent(db.(registrations := db.registrations.Put(id, r)))
  {
    PutFacts(db.registrations, id, r);
  }

  /** Deleting a registration keeps the store consistent. */
  lemma RegistrationRemovedKeeps(db: Db, id: int)
    requires Consistent(db)
    ensures Consistent(db.(registrations := db.registrations.Remove(id)))
  {
    RemoveFacts(db.registrations, id);
  }

  /** Appending version count + 1 of an existing document keeps the store
      consistent, in particular every history dense. */
  lemma VersionAddedKeeps(db: Db, f: DocumentFile)
    requires Consistent(db) && db.documents.Get(f.documentId).Some?
    requires f.version == NextVersion(db.files.rows, f.documentId)
    ensures Consistent(db.(files := db.files.Insert(f)))
  {
    InsertFacts(db.files, f);
    UploadKeepsDense(db.files.rows, Row(db.files.nextId, f));
  }
}
