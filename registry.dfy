/**
 * The store behind the routes: six tables that the handlers update in place.
 * Each handler validates its input, runs its guards and then writes; every
 * refusal leaves all six tables as they were, and every handler keeps the
 * store `Consistent`.
 */
module Registry {
  import opened Optionals
  import opened Tables
  import opened Records
  import opened JsValues
  import opened Responses
  import opened StorageGateway
  import opened RegistrationNumbers
  import opened Accounts
  import opened DocumentRules
  import opened Catalog
  import opened Integrity
  import opened Queries

  const RegistrationRequiredMessage := "registrationNumber is required"
  const FileRequiredMessage := "file is required"

  class Store {
    var users: Table<User>
    var categories: Table<Category>
    var types: Table<DocumentType>
    var documents: Table<Document>
    var registrations: Table<Registration>
    var files: Table<DocumentFile>

    /** The six tables as one value. */
    function State(): Db
      reads this
    {
      Db(users, categories, types, documents, registrations, files)
    }

    ghost predicate Valid()
      reads this
    {
      Consistent(State())
    }

    /** A fresh database. */
    constructor ()
      ensures Valid() && State() == EmptyDb()
    {
      users := Empty();
      categories := Empty();
      types := Empty();
      documents := Empty();
      registrations := Empty();
      files := Empty();
      EmptyConsistent();
    }

    /** Replaces all six tables. */
    method Commit(db: Db)
      modifies this
      ensures State() == db
    {
      users, categories, types := db.users, db.categories, db.types;
      documents, registrations, files := db.documents, db.registrations, db.files;
    }

    // -------------------------------------------------------------------------
    // Accounts

    /** `POST /auth/register`. `hash` stands for `bcrypt.hash`. */
    method Register(name: Field, email: Field, password: Field, hash: string -> string, sign: Signer)
      returns (r: Outcome<Session>)
      requires Valid()
      modifies this
      ensures Valid()
      ensures !(FieldTruthy(name) && FieldTruthy(email) && FieldTruthy(password)) ==>
        r == Failure(BadRequest(RegisterRequiredMessage)) && State() == old(State())
      ensures FieldTruthy(name) && FieldTruthy(email) && FieldTruthy(password)
              && UserByEmail(old(users).rows, email.s).Some? ==>
        r == Failure(Conflict(EmailInUseMessage)) && State() == old(State())
      ensures r.Success? <==>
        FieldTruthy(name) && FieldTruthy(email) && FieldTruthy(password)
        && UserByEmail(old(users).rows, email.s).None?
      ensures r.Success? ==>
        var u := User(name.s, email.s, hash(password.s), None, None);
        && State() == old(State()).(users := old(users).Insert(u))
        && r.value == SessionFor(Row(old(users).nextId, u), sign)
    {
      if !(FieldTruthy(name) && FieldTruthy(email) && FieldTruthy(password)) {
        return Failure(BadRequest(RegisterRequiredMessage));
      }
      if UserByEmail(users.rows, email.s).Some? {
        return Failure(Conflict(EmailInUseMessage));
      }
      var u := User(name.s, email.s, hash(password.s), None, None);
      UserAddedKeeps(State(), u);
      var id := users.nextId;
      Commit(State().(users := users.Insert(u)));
      r := Success(SessionFor(Row(id, u), sign));
    }

    /** Deleting a user (no route does this): the declared cascade removes
        their documents and, from those, registrations and versions. */
    method DestroyUser(uid: int)
      requires Valid()
      modifies this
      ensures Valid()
      ensures State() == DeleteDocuments(old(State()), NotOwnedBy(old(documents), uid)).(users := old(users).Remove(uid))
    {
      var next := DeleteDocuments(State(), NotOwnedBy(documents, uid)).(users := users.Remove(uid));
      UserRemovedKeeps(State(), uid);
      Commit(next);
    }

    // -------------------------------------------------------------------------
    // Categories

    /** `POST /categories`: a parent naming no category, other than the new
        row itself, breaks the foreign key and the insert throws. */
    method CreateCategory(name: Field, parentId: Option<int>) returns (r: Outcome<Row<Category>>)
      requires Valid()
      modifies this
      ensures Valid()
      ensures !FieldTruthy(name) ==> r == Failure(BadRequest(NameRequiredMessage)) && State() == old(State())
      ensures FieldTruthy(name) && !ParentResolves(old(categories), StoredParent(parentId), old(categories).nextId) ==>
        r == Failure(ForeignKeyError) && State() == old(State())
      ensures r.Success? <==> FieldTruthy(name) && ParentResolves(old(categories), StoredParent(parentId), old(categories).nextId)
      ensures r.Success? ==>
        var c := Category(name.s, StoredParent(parentId));
        && r.value == Row(old(categories).nextId, c)
        && State() == old(State()).(categories := old(categories).Insert(c))
    {
      if !FieldTruthy(name) {
        return Failure(BadRequest(NameRequiredMessage));
      }
      if !ParentResolves(categories, StoredParent(parentId), categories.nextId) {
        return Failure(ForeignKeyError);
      }
      var c := Category(name.s, StoredParent(parentId));
      CategoryAddedKeeps(State(), c);
      r := Success(Row(categories.nextId, c));
      Commit(State().(categories := categories.Insert(c)));
    }

    /** `PUT /categories/:id`: the name is kept when omitted, the parent is
        always rewritten, to null when omitted; a parent naming no category
        breaks the foreign key and the update throws. */
    method UpdateCategory(id: int, name: Field, parentId: Option<int>) returns (r: Outcome<Row<Category>>)
      requires Valid()
      modifies this
      ensures Valid()
      ensures old(categories).Get(id).None? ==>
        r == Failure(NotFound(CategoryNotFoundMessage)) && State() == old(State())
      ensures old(categories).Get(id).Some? && name.SetNull? ==>
        r == Failure(ValidationError) && State() == old(State())
      ensures old(categories).Get(id).Some? && !name.SetNull? && !ParentResolves(old(categories), StoredParent(parentId), id) ==>
        r == Failure(ForeignKeyError) && State() == old(State())
      ensures r.Success? <==>
        old(categories).Get(id).Some? && !name.SetNull? && ParentResolves(old(categories), StoredParent(parentId), id)
      ensures r.Success? ==>
        var c := Category(if name.Given? then name.s else old(categories).Get(id).value.name, StoredParent(parentId));
        && r.value == Row(id, c)
        && State() == old(State()).(categories := old(categories).Put(id, c))
    {
      var current := categories.Get(id);
      if current.None? {
        return Failure(NotFound(CategoryNotFoundMessage));
      }
      if name.SetNull? {
        return Failure(ValidationError);
      }
      if !ParentResolves(categories, StoredParent(parentId), id) {
        return Failure(ForeignKeyError);
      }
      var c := Category(if name.Given? then name.s else current.value.name, StoredParent(parentId));
      CategoryRevisedKeeps(State(), id, c);
      Commit(State().(categories := categories.Put(id, c)));
      r := Success(Row(id, c));
    }

    /** `DELETE /categories/:id`: refused while a document uses the category,
        then while a category names it as parent. */
    method DeleteCategory(id: int) returns (r: Outcome<()>)
      requires Valid()
      modifies this
      ensures Valid()
      ensures old(categories).Get(id).None? ==>
        r == Failure(NotFound(CategoryNotFoundMessage)) && State() == old(State())
      ensures old(categories).Get(id).Some? && CategoryInUse(old(documents).rows, id) ==>
        r == Failure(Conflict(CategoryInUseMessage)) && State() == old(State())
      ensures old(categories).Get(id).Some? && !CategoryInUse(old(documents).rows, id)
              && HasSubcategories(old(categories).rows, id) ==>
        r == Failure(Conflict(HasSubcategoriesMessage)) && State() == old(State())
      ensures r.Success? <==>
        old(categories).Get(id).Some? && !CategoryInUse(old(documents).rows, id)
        && !HasSubcategories(old(categories).rows, id)
      ensures r.Success? ==> State() == old(State()).(categories := old(categories).Remove(id))
    {
      if categories.Get(id).None? {
        return Failure(NotFound(CategoryNotFoundMessage));
      }
      if CategoryInUse(documents.rows, id) {
        return Failure(Conflict(CategoryInUseMessage));
      }
      if HasSubcategories(categories.rows, id) {
        return Failure(Conflict(HasSubcategoriesMessage));
      }
      CategoryRemovedKeeps(State(), id);
      Commit(State().(categories := categories.Remove(id)));
      r := Success(());
    }

    // -------------------------------------------------------------------------
    // Document types

    /** `POST /document-types`. */
    method CreateType(name: Field) returns (r: Outcome<Row<DocumentType>>)
      requires Valid()
      modifies this
      ensures Valid()
      ensures !FieldTruthy(name) ==> r == Failure(BadRequest(NameRequiredMessage)) && State() == old(State())
      ensures FieldTruthy(name) ==>
        && r == Success(Row(old(types).nextId, DocumentType(name.s)))
        && State() == old(State()).(types := old(types).Insert(DocumentType(name.s)))
    {
      if !FieldTruthy(name) {
        return Failure(BadRequest(NameRequiredMessage));
      }
      TypeAddedKeeps(State(), DocumentType(name.s));
      r := Success(Row(types.nextId, DocumentType(name.s)));
      Commit(State().(types := types.Insert(DocumentType(name.s))));
    }

    /** `PUT /document-types/:id`: only the name changes. */
    method UpdateType(id: int, name: Field) returns (r: Outcome<Row<DocumentType>>)
      requires Valid()
      modifies this
      ensures Valid()
      ensures old(types).Get(id).None? ==> r == Failure(NotFound(TypeNotFoundMessage)) && State() == old(State())
      ensures old(types).Get(id).Some? && name.SetNull? ==> r == Failure(ValidationError) && State() == old(State())
      ensures old(types).Get(id).Some? && !name.SetNull? ==>
        var t := DocumentType(if name.Given? then name.s else old(types).Get(id).value.name);
        && r == Success(Row(id, t))
        && State() == old(State()).(types := old(types).Put(id, t))
    {
      var current := types.Get(id);
      if current.None? {
        return Failure(NotFound(TypeNotFoundMessage));
      }
      if name.SetNull? {
        return Failure(ValidationError);
      }
      var t := DocumentType(if name.Given? then name.s else current.value.name);
      TypeRevisedKeeps(State(), id, t);
      Commit(State().(types := types.Put(id, t)));
      r := Success(Row(id, t));
    }

    /** `DELETE /document-types/:id`: refused while a document uses the type. */
    method DeleteType(id: int) returns (r: Outcome<()>)
      requires Valid()
      modifies this
      ensures Valid()
      ensures old(types).Get(id).None? ==> r == Failure(NotFound(TypeNotFoundMessage)) && State() == old(State())
      ensures old(types).Get(id).Some? && TypeInUse(old(documents).rows, id) ==>
        r == Failure(Conflict(TypeInUseMessage)) && State() == old(State())
      ensures r.Success? <==> old(types).Get(id).Some? && !TypeInUse(old(documents).rows, id)
      ensures r.Success? ==> State() == old(State()).(types := old(types).Remove(id))
    {
      if types.Get(id).None? {
        return Failure(NotFound(TypeNotFoundMessage));
      }
      if TypeInUse(documents.rows, id) {
        return Failure(Conflict(TypeInUseMessage));
      }
      TypeRemovedKeeps(State(), id);
      Commit(State().(types := types.Remove(id)));
      r := Success(());
    }

    // -------------------------------------------------------------------------
    // Seeding

    /** `Category.findOrCreate({ where: { name } })`. */
    method FindOrCreateCategory(name: string)
      requires Valid()
      modifies this
      ensures Valid()
      ensures State() == old(State()).(categories := FindOrCreate(old(categories), CategoryName, NewCategory, name))
    {
      if !HasName(categories.rows, CategoryName, name) {
        CategoryAddedKeeps(State(), NewCategory(name));
        Commit(State().(categories := categories.Insert(NewCategory(name))));
      }
    }

    /** `DocumentType.findOrCreate({ where: { name } })`. */
    method FindOrCreateType(name: string)
      requires Valid()
      modifies this
      ensures Valid()
      ensures State() == old(State()).(types := FindOrCreate(old(types), DocumentTypeName, NewType, name))
    {
      if !HasName(types.rows, DocumentTypeName, name) {
        TypeAddedKeeps(State(), NewType(name));
        Commit(State().(types := types.Insert(NewType(name))));
      }
    }

    /** One seeding loop over categories: each name found or created in turn. */
    method SeedCategories(names: seq<string>)
      requires Valid()
      modifies this
      ensures Valid()
      ensures State() == old(State()).(categories := SeedNames(old(categories), names, CategoryName, NewCategory))
    {
      var i := 0;
      while i < |names|
        invariant 0 <= i <= |names|
        invariant Valid()
        invariant State() == old(State()).(categories := SeedNames(old(categories), names[..i], CategoryName, NewCategory))
      {
        assert names[..i + 1][..i] == names[..i];
        FindOrCreateCategory(names[i]);
        i := i + 1;
      }
      assert names[..i] == names;
    }

    /** One seeding loop over document types. */
    method SeedTypes(names: seq<string>)
      requires Valid()
      modifies this
      ensures Valid()
      ensures State() == old(State()).(types := SeedNames(old(types), names, DocumentTypeName, NewType))
    {
      var i := 0;
      while i < |names|
        invariant 0 <= i <= |names|
        invariant Valid()
        invariant State() == old(State()).(types := SeedNames(old(types), names[..i], DocumentTypeName, NewType))
      {
        assert names[..i + 1][..i] == names[..i];
        FindOrCreateType(names[i]);
        i := i + 1;
      }
      assert names[..i] == names;
    }

    /** Startup seeding: the default categories, then the default types.
        What this guarantees is proved of `SeedNames` in `Catalog.SeedDefaults`
        and `Catalog.SeedTwice`. */
    method Seed()
      requires Valid()
      modifies this
      ensures Valid()
      ensures State() == old(State()).(
        categories := SeedNames(old(categories), DefaultCategories, CategoryName, NewCategory),
        types := SeedNames(old(types), DefaultTypes, DocumentTypeName, NewType))
    {
      SeedCategories(DefaultCategories);
      SeedTypes(DefaultTypes);
    }

    // -------------------------------------------------------------------------
    // Documents

    /** The retry loop of `POST /documents`: draw candidates until one is
        held by no document. */
    method FreshNumber(draws: seq<Draw>) returns (n: string)
      requires AllWellFormed(draws) && SomeFresh(documents.rows, Candidates(draws))
      ensures n == Candidates(draws)[FirstFresh(documents.rows, Candidates(draws))]
    {
      ghost var candidates := Candidates(draws);
      ghost var stop := FirstFresh(documents.rows, candidates);
      var k := 0;
      n := Build(draws[k]);
      var taken := NumberTaken(documents.rows, n);
      while taken
        invariant 0 <= k <= stop
        invariant n == candidates[k]
        invariant taken == NumberTaken(documents.rows, n)
        decreases stop - k
      {
        assert k < stop;
        k := k + 1;
        n := Build(draws[k]);
        taken := NumberTaken(documents.rows, n);
      }
      assert k < stop ==> NumberTaken(documents.rows, candidates[k]);
    }

    /** `POST /documents`: validation, then the number (a supplied one must be
        free, else candidates are drawn until one is), then the insert. The
        caller is the user the auth middleware admitted. */
    method CreateDocument(caller: int, b: CreateBody, draws: seq<Draw>) returns (r: Outcome<Row<Document>>)
      requires Valid() && users.Get(caller).Some?
      requires AllWellFormed(draws)
      requires ValidateCreate(b, categories, types).Success? && !FieldTruthy(b.registrationNumber) ==>
        SomeFresh(documents.rows, Candidates(draws))
      modifies this
      ensures Valid()
      ensures ValidateCreate(b, old(categories), old(types)).Failure? ==>
        r == Failure(ValidateCreate(b, old(categories), old(types)).status) && State() == old(State())
      ensures ValidateCreate(b, old(categories), old(types)).Success? && FieldTruthy(b.registrationNumber)
              && NumberTaken(old(documents).rows, b.registrationNumber.s) ==>
        r == Failure(Conflict(NumberInUseMessage)) && State() == old(State())
      ensures r.Success? <==>
        ValidateCreate(b, old(categories), old(types)).Success?
        && !(FieldTruthy(b.registrationNumber) && NumberTaken(old(documents).rows, b.registrationNumber.s))
      ensures r.Success? ==>
        var d := NewDocument(b, ValidateCreate(b, old(categories), old(types)).value,
                             CreatedNumber(b, old(documents).rows, Candidates(draws)), caller);
        && r.value == Row(old(documents).nextId, d)
        && State() == old(State()).(documents := old(documents).Insert(d))
    {
      var v := ValidateCreate(b, categories, types);
      if v.Failure? {
        return Failure(v.status);
      }
      var number: string;
      if FieldTruthy(b.registrationNumber) {
        if NumberTaken(documents.rows, b.registrationNumber.s) {
          return Failure(Conflict(NumberInUseMessage));
        }
        number := b.registrationNumber.s;
      } else {
        number := FreshNumber(draws);
      }
      CandidatesAssigned(draws);
      CreatedNumberIsFresh(b, documents.rows, Candidates(draws));
      var d := NewDocument(b, v.value, number, caller);
      DocumentAddedKeeps(State(), d);
      r := Success(Row(documents.nextId, d));
      Commit(State().(documents := documents.Insert(d)));
    }

    /** `PUT /documents/:id`: 404 for a document the caller does not own, then
        the checks and the single write of `ReviseDocument`. */
    method UpdateDocument(caller: int, id: int, b: UpdateBody) returns (r: Outcome<Row<Document>>)
      requires Valid()
      modifies this
      ensures Valid()
      ensures OwnedDocument(old(documents), id, caller).None? ==>
        r == Failure(NotFound(DocumentNotFoundMessage)) && State() == old(State())
      ensures OwnedDocument(old(documents), id, caller).Some? ==>
        var revised := ReviseDocument(OwnedDocument(old(documents), id, caller).value, b,
                                      old(categories), old(types), old(documents).rows);
        && (revised.Failure? ==> r == Failure(revised.status) && State() == old(State()))
        && (revised.Success? ==>
              && r == Success(Row(id, revised.value))
              && State() == old(State()).(documents := old(documents).Put(id, revised.value)))
    {
      var current := OwnedDocument(documents, id, caller);
      if current.None? {
        return Failure(NotFound(DocumentNotFoundMessage));
      }
      var revised := ReviseDocument(current.value, b, categories, types, documents.rows);
      if revised.Failure? {
        return Failure(revised.status);
      }
      RevisionKeeps(State(), id, caller, b);
      Commit(State().(documents := documents.Put(id, revised.value)));
      r := Success(Row(id, revised.value));
    }

    /** `DELETE /documents/:id`: the document goes, and with it its
        registrations and versions. */
    method DeleteDocument(caller: int, id: int) returns (r: Outcome<()>)
      requires Valid()
      modifies this
      ensures Valid()
      ensures OwnedDocument(old(documents), id, caller).None? ==>
        r == Failure(NotFound(DocumentNotFoundMessage)) && State() == old(State())
      ensures OwnedDocument(old(documents), id, caller).Some? ==>
        r == Success(()) && State() == DeleteDocuments(old(State()), Except(id))
    {
      if OwnedDocument(documents, id, caller).None? {
        return Failure(NotFound(DocumentNotFoundMessage));
      }
      DocumentRemovedKeeps(State(), id);
      Commit(DeleteDocuments(State(), Except(id)));
      r := Success(());
    }

    // -------------------------------------------------------------------------
    // Registrations

    /** `POST /documents/:id/registrations`: the number is checked before the
        document is looked up; the status defaults to "active". */
    method AddRegistration(caller: int, id: int, number: Field, status: Field) returns (r: Outcome<Row<Registration>>)
      requires Valid()
      modifies this
      ensures Valid()
      ensures !FieldTruthy(number) ==>
        r == Failure(BadRequest(RegistrationRequiredMessage)) && State() == old(State())
      ensures FieldTruthy(number) && OwnedDocument(old(documents), id, caller).None? ==>
        r == Failure(NotFound(DocumentNotFoundMessage)) && State() == old(State())
      ensures FieldTruthy(number) && OwnedDocument(old(documents), id, caller).Some? ==>
        var reg := Registration(id, number.s, if FieldTruthy(status) then status.s else DefaultStatus);
        && r == Success(Row(old(registrations).nextId, reg))
        && State() == old(State()).(registrations := old(registrations).Insert(reg))
    {
      if !FieldTruthy(number) {
        return Failure(BadRequest(RegistrationRequiredMessage));
      }
      if OwnedDocument(documents, id, caller).None? {
        return Failure(NotFound(DocumentNotFoundMessage));
      }
      var reg := Registration(id, number.s, if FieldTruthy(status) then status.s else DefaultStatus);
      RegistrationAddedKeeps(State(), reg);
      r := Success(Row(registrations.nextId, reg));
      Commit(State().(registrations := registrations.Insert(reg)));
    }

    /** `PUT /registrations/:id`: omitted fields are kept, a null one is
        refused by the NOT NULL columns; the document link never changes. */
    method UpdateRegistration(caller: int, id: int, number: Field, status: Field) returns (r: Outcome<Row<Registration>>)
      requires Valid()
      modifies this
      ensures Valid()
      ensures OwnedRegistration(old(State()), id, caller).None? ==>
        r == Failure(NotFound(RegistrationNotFoundMessage)) && State() == old(State())
      ensures OwnedRegistration(old(State()), id, caller).Some? && (number.SetNull? || status.SetNull?) ==>
        r == Failure(ValidationError) && State() == old(State())
      ensures OwnedRegistration(old(State()), id, caller).Some? && !number.SetNull? && !status.SetNull? ==>
        var current := old(registrations).Get(id).value;
        var reg := Registration(current.documentId,
                                if number.Given? then number.s else current.registrationNumber,
                                if status.Given? then status.s else current.status);
        && r == Success(Row(id, reg))
        && State() == old(State()).(registrations := old(registrations).Put(id, reg))
    {
      var found := OwnedRegistration(State(), id, caller);
      if found.None? {
        return Failure(NotFound(RegistrationNotFoundMessage));
      }
      if number.SetNull? || status.SetNull? {
        return Failure(ValidationError);
      }
      var current := found.value.registration.data;
      var reg := Registration(current.documentId,
                              if number.Given? then number.s else current.registrationNumber,
                              if status.Given? then status.s else current.status);
      RegistrationRevisedKeeps(State(), id, reg);
      Commit(State().(registrations := registrations.Put(id, reg)));
      r := Success(Row(id, reg));
    }

    /** `DELETE /registrations/:id`. */
    method DeleteRegistration(caller: int, id: int) returns (r: Outcome<()>)
      requires Valid()
      modifies this
      ensures Valid()
      ensures OwnedRegistration(old(State()), id, caller).None? ==>
        r == Failure(NotFound(RegistrationNotFoundMessage)) && State() == old(State())
      ensures OwnedRegistration(old(State()), id, caller).Some? ==>
        r == Success(()) && State() == old(State()).(registrations := old(registrations).Remove(id))
    {
      if OwnedRegistration(State(), id, caller).None? {
        return Failure(NotFound(RegistrationNotFoundMessage));
      }
      RegistrationRemovedKeeps(State(), id);
      Commit(State().(registrations := registrations.Remove(id)));
      r := Success(());
    }

    // -------------------------------------------------------------------------
    // Upload

    /** `POST /documents/:id/upload` of a file named `file`: the provider
        stores it under `/documents/<id>/<name>` (overwriting), then the
        document points at it and a version numbered count + 1 is logged.
        A failed provider call writes nothing. */
    method Upload(caller: int, id: int, file: Option<string>, processToken: Option<string>, provider: Provider)
      returns (r: Outcome<string>)
      requires Valid()
      modifies this
      ensures Valid()
      ensures file.None? ==> r == Failure(BadRequest(FileRequiredMessage)) && State() == old(State())
      ensures file.Some? && OwnedDocument(old(documents), id, caller).None? ==>
        r == Failure(NotFound(DocumentNotFoundMessage)) && State() == old(State())
      ensures file.Some? && OwnedDocument(old(documents), id, caller).Some?
              && TokenFor(old(State()), caller, processToken).None? ==>
        r == Failure(BadRequest(NotConnectedMessage)) && State() == old(State())
      ensures file.Some? && OwnedDocument(old(documents), id, caller).Some?
              && TokenFor(old(State()), caller, processToken).Some? ==>
        && id >= 1
        && var path := DocumentPath(id, file.value);
           var reply := provider(TokenFor(old(State()), caller, processToken).value, path);
           && (reply.Failed? ==>
                 r == Failure(FailureResponse(reply.status, reply.summary)) && State() == old(State()))
           && (reply.Done? ==>
                 var d := OwnedDocument(old(documents), id, caller).value;
                 && r == Success(path)
                 && State() == old(State()).(
                      documents := old(documents).Put(id, d.(dropboxPath := Some(path), dropboxFileName := Some(file.value))),
                      files := old(files).Insert(DocumentFile(id, NextVersion(old(files).rows, id), file.value, path))))
    {
      if file.None? {
        return Failure(BadRequest(FileRequiredMessage));
      }
      var current := OwnedDocument(documents, id, caller);
      if current.None? {
        return Failure(NotFound(DocumentNotFoundMessage));
      }
      var token := TokenFor(State(), caller, processToken);
      if token.None? {
        return Failure(BadRequest(NotConnectedMessage));
      }
      GetIff(documents, id, current.value);
      var path := DocumentPath(id, file.value);
      match provider(token.value, path)
      case Failed(status, summary) =>
        return Failure(FailureResponse(status, summary));
      case Done(_) =>
      var d := current.value.(dropboxPath := Some(path), dropboxFileName := Some(file.value));
      var f := DocumentFile(id, NextVersion(files.rows, id), file.value, path);
      ghost var db := State();
      assert Resolves(db, d);
      DocumentRevisedKeeps(db, id, d);
      ghost var pointed := db.(documents := db.documents.Put(id, d));
      PutFacts(db.documents, id, d);
      VersionAddedKeeps(pointed, f);
      Commit(State().(documents := documents.Put(id, d), files := files.Insert(f)));
      r := Success(path);
    }
  }
}
