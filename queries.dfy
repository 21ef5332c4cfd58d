/**
 * The read-only handlers of the document and registration routes, as
 * functions of the database: they answer from the tables and change
 * nothing. Every lookup is scoped to the caller's documents.
 */
module Queries {
  import opened Optionals
  import opened Tables
  import opened Records
  import opened Responses
  import opened StorageGateway
  import opened DocumentRules
  import opened Catalog
  import opened Integrity

  const DocumentNotFoundMessage := "Document not found"
  const FileNotFoundMessage := "File not found"
  const RegistrationNotFoundMessage := "Registration not found"
  const NotConnectedMessage := "Dropbox not connected"

  /** A document with what the list route includes: its registrations, its
      category with that category's parent, and its type. */
  datatype ListedDocument = ListedDocument(
    row: Row<Document>,
    registrations: seq<Row<Registration>>,
    category: Option<CategoryListing>,
    documentType: Option<Row<DocumentType>>)

  /** The detail view adds the version history, oldest first. */
  datatype DocumentDetail = DocumentDetail(listed: ListedDocument, files: seq<Row<DocumentFile>>)

  /** A registration with its document (`include: [{ model: Document }]`). */
  datatype RegistrationView = RegistrationView(registration: Row<Registration>, document: Row<Document>)

  function RegistrationOf(documentId: int): Row<Registration> -> bool
  {
    (x: Row<Registration>) => x.data.documentId == documentId
  }

  /** The registrations of one document. */
  function RegistrationsOf(db: Db, documentId: int): (r: seq<Row<Registration>>)
    ensures forall x :: x in r <==> x in db.registrations.rows && x.data.documentId == documentId
  {
    Where(db.registrations.rows, RegistrationOf(documentId))
  }

  /** A document joined with its registrations, category (and parent) and type. */
  function Listed(db: Db, row: Row<Document>): (l: ListedDocument)
    ensures l.row == row && l.registrations == RegistrationsOf(db, row.id)
    ensures l.category.Some? <==> db.categories.Get(row.data.categoryId).Some?
    ensures l.category.Some? ==>
      l.category.value.row == Row(row.data.categoryId, db.categories.Get(row.data.categoryId).value)
      && l.category.value.parent == ParentRow(db.categories, l.category.value.row.data)
    ensures l.documentType.Some? <==>
      row.data.documentTypeId.Some? && db.types.Get(row.data.documentTypeId.value).Some?
    ensures l.documentType.Some? ==>
      l.documentType.value == Row(row.data.documentTypeId.value, db.types.Get(row.data.documentTypeId.value).value)
  {
    var category :=
      match db.categories.Get(row.data.categoryId)
      case None => None
      case Some(c) => Some(CategoryListing(Row(row.data.categoryId, c), ParentRow(db.categories, c)));
    var documentType :=
      match row.data.documentTypeId
      case None => None
      case Some(t) =>
        match db.types.Get(t)
        case None => None
        case Some(v) => Some(Row(t, v));
    ListedDocument(row, RegistrationsOf(db, row.id), category, documentType)
  }

  /** `GET /documents`: the caller's matching documents, newest first, joined. */
  function ListDocuments(db: Db, caller: int, q: ListQuery): (r: seq<ListedDocument>)
    requires db.documents.Valid()
    ensures forall l :: l in r ==> l.row in db.documents.rows && l.row.data.ownerId == caller && MatchesQuery(l.row.data, q)
    ensures forall x :: x in db.documents.rows && x.data.ownerId == caller && MatchesQuery(x.data, q) ==>
      Listed(db, x) in r
    ensures forall i, j :: 0 <= i < j < |r| ==> r[i].row.id > r[j].row.id
  {
    var rows := ListedRows(db.documents, caller, q);
    JoinFacts(db, rows);
    Join(db, rows)
  }

  /** Each row joined, in order. */
  function Join(db: Db, rows: seq<Row<Document>>): seq<ListedDocument>
  {
    seq(|rows|, i requires 0 <= i < |rows| => Listed(db, rows[i]))
  }

  lemma JoinFacts(db: Db, rows: seq<Row<Document>>)
    ensures |Join(db, rows)| == |rows|
    ensures forall i :: 0 <= i < |rows| ==> Join(db, rows)[i].row == rows[i]
    ensures forall l :: l in Join(db, rows) ==> l.row in rows
    ensures forall x :: x in rows ==> Listed(db, x) in Join(db, rows)
  {
    var r := Join(db, rows);
    forall l | l in r ensures l.row in rows {
      var i :| 0 <= i < |r| && r[i] == l;
    }
    forall x | x in rows ensures Listed(db, x) in r {
      var i :| 0 <= i < |rows| && rows[i] == x;
      assert r[i] == Listed(db, x);
    }
  }

  /** `GET /documents/:id`: the caller's document with its history; any other
      document is 404. */
  function GetDocument(db: Db, caller: int, id: int): (r: Outcome<DocumentDetail>)
    ensures OwnedDocument(db.documents, id, caller).None? ==> r == Failure(NotFound(DocumentNotFoundMessage))
    ensures r.Success? <==> OwnedDocument(db.documents, id, caller).Some?
    ensures r.Success? ==>
      && r.value.listed == Listed(db, Row(id, OwnedDocument(db.documents, id, caller).value))
      && r.value.files == History(db.files.rows, id)
  {
    match OwnedDocument(db.documents, id, caller)
    case None => Failure(NotFound(DocumentNotFoundMessage))
    case Some(d) => Success(DocumentDetail(Listed(db, Row(id, d)), History(db.files.rows, id)))
  }

  /** In a consistent store the detail of a document shows its versions
      numbered 1, 2, 3, ... */
  lemma DetailHistoryIsDense(db: Db, caller: int, id: int)
    requires Consistent(db)
    requires GetDocument(db, caller, id).Success?
    ensures forall i :: 0 <= i < |GetDocument(db, caller, id).value.files| ==>
      GetDocument(db, caller, id).value.files[i].data.version == i + 1
  {
    assert Dense(History(db.files.rows, id));
  }

  /** `GET /documents/:id/registrations`. */
  function ListRegistrations(db: Db, caller: int, id: int): (r: Outcome<seq<Row<Registration>>>)
    ensures r.Success? <==> OwnedDocument(db.documents, id, caller).Some?
    ensures r.Failure? ==> r == Failure(NotFound(DocumentNotFoundMessage))
    ensures r.Success? ==> forall x :: x in r.value <==> x in db.registrations.rows && x.data.documentId == id
  {
    if OwnedDocument(db.documents, id, caller).None? then Failure(NotFound(DocumentNotFoundMessage))
    else Success(RegistrationsOf(db, id))
  }

  /** `Registration.findByPk(id, { include: Document })` kept only when the
      caller owns the document. */
  function OwnedRegistration(db: Db, id: int, caller: int): (r: Option<RegistrationView>)
    ensures r.Some? <==>
      && db.registrations.Get(id).Some?
      && OwnedDocument(db.documents, db.registrations.Get(id).value.documentId, caller).Some?
    ensures r.Some? ==>
      && r.value.registration == Row(id, db.registrations.Get(id).value)
      && r.value.document.id == r.value.registration.data.documentId
      && db.documents.Get(r.value.document.id) == Some(r.value.document.data)
      && r.value.document.data.ownerId == caller
  {
    match db.registrations.Get(id)
    case None => None
    case Some(reg) =>
      match OwnedDocument(db.documents, reg.documentId, caller)
      case None => None
      case Some(d) => Some(RegistrationView(Row(id, reg), Row(reg.documentId, d)))
  }

  /** `GET /registrations/:id`. */
  function GetRegistration(db: Db, caller: int, id: int): (r: Outcome<RegistrationView>)
    ensures r.Success? <==> OwnedRegistration(db, id, caller).Some?
    ensures r.Failure? ==> r == Failure(NotFound(RegistrationNotFoundMessage))
    ensures r.Success? ==> r.value == OwnedRegistration(db, id, caller).value
  {
    match OwnedRegistration(db, id, caller)
    case None => Failure(NotFound(RegistrationNotFoundMessage))
    case Some(v) => Success(v)
  }

  /** The caller's storage token (`resolveDropboxToken(User.findByPk(caller))`). */
  function TokenFor(db: Db, caller: int, processToken: Option<string>): Option<string>
  {
    ResolveDropboxToken(db.users.Get(caller), processToken)
  }

  /** Asks the provider for a temporary link to `path`. */
  function LinkFor(token: string, path: string, provider: Provider): (r: Outcome<string>)
    ensures r.Success? <==> provider(token, path).Done?
    ensures r.Success? ==> r.value == provider(token, path).link
    ensures r.Failure? ==> r.status == FailureResponse(provider(token, path).status, provider(token, path).summary)
  {
    match provider(token, path)
    case Done(link) => Success(link)
    case Failed(status, summary) => Failure(FailureResponse(status, summary))
  }

  /** `GET /documents/:id/download`: 404 when the caller has no such document
      or it has no stored path, 400 without a token, else the provider's link. */
  function Download(db: Db, caller: int, id: int, processToken: Option<string>, provider: Provider): (r: Outcome<string>)
    ensures var d := OwnedDocument(db.documents, id, caller);
      d.None? || !Present(d.value.dropboxPath) ==> r == Failure(NotFound(FileNotFoundMessage))
    ensures var d := OwnedDocument(db.documents, id, caller);
      d.Some? && Present(d.value.dropboxPath) && TokenFor(db, caller, processToken).None? ==>
        r == Failure(BadRequest(NotConnectedMessage))
    ensures var d := OwnedDocument(db.documents, id, caller);
      d.Some? && Present(d.value.dropboxPath) && TokenFor(db, caller, processToken).Some? ==>
        r == LinkFor(TokenFor(db, caller, processToken).value, d.value.dropboxPath.value, provider)
  {
    match OwnedDocument(db.documents, id, caller)
    case None => Failure(NotFound(FileNotFoundMessage))
    case Some(d) =>
      if !Present(d.dropboxPath) then Failure(NotFound(FileNotFoundMessage))
      else match TokenFor(db, caller, processToken)
        case None => Failure(BadRequest(NotConnectedMessage))
        case Some(token) => LinkFor(token, d.dropboxPath.value, provider)
  }

  /** `DocumentFile.findOne({ where: { id: fileId, documentId } })`. */
  function VersionOfDocument(db: Db, fileId: int, documentId: int): (r: Option<DocumentFile>)
    ensures r.Some? <==> db.files.Get(fileId).Some? && db.files.Get(fileId).value.documentId == documentId
    ensures r.Some? ==> db.files.Get(fileId) == r
  {
    match db.files.Get(fileId)
    case None => None
    case Some(f) => if f.documentId == documentId then Some(f) else None
  }

  /** `GET /documents/:id/files/:fileId/download`: a version of another
      document, or of another user's document, is 404. */
  function DownloadVersion(db: Db, caller: int, id: int, fileId: int, processToken: Option<string>, provider: Provider): (r: Outcome<string>)
    ensures OwnedDocument(db.documents, id, caller).None? ==> r == Failure(NotFound(DocumentNotFoundMessage))
    ensures OwnedDocument(db.documents, id, caller).Some? && VersionOfDocument(db, fileId, id).None? ==>
      r == Failure(NotFound(FileNotFoundMessage))
    ensures OwnedDocument(db.documents, id, caller).Some? && VersionOfDocument(db, fileId, id).Some? ==>
      r == match TokenFor(db, caller, processToken)
           case None => Failure(BadRequest(NotConnectedMessage))
           case Some(token) => LinkFor(token, VersionOfDocument(db, fileId, id).value.dropboxPath, provider)
  {
    if OwnedDocument(db.documents, id, caller).None? then Failure(NotFound(DocumentNotFoundMessage))
    else match VersionOfDocument(db, fileId, id)
      case None => Failure(NotFound(FileNotFoundMessage))
      case Some(f) =>
        match TokenFor(db, caller, processToken)
        case None => Failure(BadRequest(NotConnectedMessage))
        case Some(token) => LinkFor(token, f.dropboxPath, provider)
  }

  /** A successful version download names a version of the caller's own
      document, and the link is the provider's answer for that version's path. */
  lemma DownloadVersionIsOwnVersion(db: Db, caller: int, id: int, fileId: int, processToken: Option<string>, provider: Provider)
    requires DownloadVersion(db, caller, id, fileId, processToken, provider).Success?
    ensures db.documents.Get(id).Some? && db.documents.Get(id).value.ownerId == caller
    ensures db.files.Get(fileId).Some? && db.files.Get(fileId).value.documentId == id
    ensures TokenFor(db, caller, processToken).Some?
    ensures provider(TokenFor(db, caller, processToken).value, db.files.Get(fileId).value.dropboxPath)
         == Done(DownloadVersion(db, caller, id, fileId, processToken, provider).value)
  {
  }
}
