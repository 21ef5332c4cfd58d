/**
 * The pure decisions of the document routes: the owner-scoped lookup, the
 * registration-number lookup, the version history of a document, the list
 * filters, and the validation that create and update run before writing.
 */
module DocumentRules {
  import opened Optionals
  import opened Tables
  import opened Records
  import opened JsValues
  import opened Responses
  import Strings
  import Radix

  // ---------------------------------------------------------------------------
  // Owner scoping

  /** `Document.findOne({ where: { id, ownerId: caller } })`. */
  function OwnedDocument(docs: Table<Document>, id: int, caller: int): (r: Option<Document>)
    ensures r.Some? <==> docs.Get(id).Some? && docs.Get(id).value.ownerId == caller
    ensures r.Some? ==> docs.Get(id) == r
  {
    match docs.Get(id)
    case Some(d) => if d.ownerId == caller then Some(d) else None
    case None => None
  }

  /** Another user's document is answered exactly like a missing one. */
  lemma ForeignDocumentLooksMissing(docs: Table<Document>, id: int, caller: int)
    requires docs.Get(id).Some? && docs.Get(id).value.ownerId != caller
    ensures OwnedDocument(docs, id, caller) == OwnedDocument(docs.Remove(id), id, caller)
  {
  }

  // ---------------------------------------------------------------------------
  // Registration numbers

  /** `Document.findOne({ where: { registrationNumber: n } })` finds a row,
      whoever owns it. */
  function NumberTaken(rows: seq<Row<Document>>, n: string): (b: bool)
    ensures b <==> exists x :: x in rows && x.data.registrationNumber == Some(n)
  {
    if rows == [] then false
    else rows[0].data.registrationNumber == Some(n) || NumberTaken(rows[1..], n)
  }

  /** No two documents share an assigned (non-empty) registration number. */
  ghost predicate NumbersUnique(rows: seq<Row<Document>>)
  {
    forall x, y :: x in rows && y in rows && x.id != y.id && HasNumber(x.data) ==>
      x.data.registrationNumber != y.data.registrationNumber
  }

  // ---------------------------------------------------------------------------
  // File versions

  /** The filter `{ where: { documentId } }` on the version table. */
  function VersionOf(documentId: int): Row<DocumentFile> -> bool
  {
    (f: Row<DocumentFile>) => f.data.documentId == documentId
  }

  /** The versions of one document, oldest first (`createdAt ASC`). */
  function History(files: seq<Row<DocumentFile>>, documentId: int): (h: seq<Row<DocumentFile>>)
    ensures forall f :: f in h <==> f in files && f.data.documentId == documentId
  {
    Where(files, VersionOf(documentId))
  }

  /** A history numbered 1, 2, 3, ... in order. */
  ghost predicate Dense(h: seq<Row<DocumentFile>>)
  {
    forall i :: 0 <= i < |h| ==> h[i].data.version == i + 1
  }

  /** Every document's history is dense. */
  ghost predicate VersionsDense(files: seq<Row<DocumentFile>>)
  {
    forall d :: Dense(History(files, d))
  }

  /** The version an upload appends: the count of existing versions, plus one. */
  function NextVersion(files: seq<Row<DocumentFile>>, documentId: int): (v: int)
    ensures v >= 1
  {
    |History(files, documentId)| + 1
  }

  /** Appending a row extends only its own document's history. */
  lemma HistoryAppend(files: seq<Row<DocumentFile>>, r: Row<DocumentFile>, d: int)
    ensures History(files + [r], d) == History(files, d) + if r.data.documentId == d then [r] else []
  {
    WhereAppend(files, r, VersionOf(d));
  }

  /** Appending a version numbered count + 1 keeps every history dense, and
      the appended row is the last of its document's history. */
  lemma UploadKeepsDense(files: seq<Row<DocumentFile>>, r: Row<DocumentFile>)
    requires VersionsDense(files)
    requires r.data.version == NextVersion(files, r.data.documentId)
    ensures VersionsDense(files + [r])
    ensures History(files + [r], r.data.documentId) == History(files, r.data.documentId) + [r]
  {
    forall d
      ensures Dense(History(files + [r], d))
    {
      HistoryAppend(files, r, d);
      assert Dense(History(files, d));
    }
    HistoryAppend(files, r, r.data.documentId);
  }

  /** Successive uploads to one document are numbered 1, 2, 3, ...: under
      dense histories the next version is one more than the last. */
  lemma NextVersionFollowsLast(files: seq<Row<DocumentFile>>, d: int)
    requires VersionsDense(files)
    ensures var h := History(files, d);
      NextVersion(files, d) == if h == [] then 1 else h[|h| - 1].data.version + 1
  {
    assert Dense(History(files, d));
  }

  /** The filter of a cascade that keeps or drops whole documents' versions. */
  function KeepDocuments(keep: int -> bool): Row<DocumentFile> -> bool
  {
    (f: Row<DocumentFile>) => keep(f.data.documentId)
  }

  /** Deleting all versions of some documents leaves each other document's
      history as it was, and the deleted documents with none. */
  lemma CascadeHistory(files: seq<Row<DocumentFile>>, keep: int -> bool, d: int)
    ensures History(Where(files, KeepDocuments(keep)), d) == if keep(d) then History(files, d) else []
  {
    if keep(d) {
      WhereWhereSwap(files, KeepDocuments(keep), VersionOf(d));
    } else {
      forall x | x in Where(files, KeepDocuments(keep))
        ensures !VersionOf(d)(x)
      {
      }
      WhereNone(Where(files, KeepDocuments(keep)), VersionOf(d));
    }
  }

  /** Filtering by a weaker filter first changes nothing. */
  lemma WhereWhereSwap(files: seq<Row<DocumentFile>>, weak: Row<DocumentFile> -> bool, strong: Row<DocumentFile> -> bool)
    requires forall x :: x in files && strong(x) ==> weak(x)
    ensures Where(Where(files, weak), strong) == Where(files, strong)
  {
    WhereWhere(files, weak, strong);
  }

  /** Cascading deletes keep every remaining history dense. */
  lemma CascadeKeepsDense(files: seq<Row<DocumentFile>>, keep: int -> bool)
    requires VersionsDense(files)
    ensures VersionsDense(Where(files, KeepDocuments(keep)))
  {
    forall d
      ensures Dense(History(Where(files, KeepDocuments(keep)), d))
    {
      CascadeHistory(files, keep, d);
      assert Dense(History(files, d));
    }
  }

  // ---------------------------------------------------------------------------
  // Storage paths

  /** The upload path `/documents/<id>/<originalname>`. */
  function DocumentPath(id: nat, fileName: string): (p: string)
    ensures |p| > 11 && p[..11] == "/documents/"
  {
    "/documents/" + Radix.ToString(id, 10) + "/" + fileName
  }

  /** Distinct (document, file name) pairs get distinct paths, so one
      document's upload never overwrites another document's file. */
  lemma DocumentPathInjective(a: nat, n: string, b: nat, m: string)
    requires DocumentPath(a, n) == DocumentPath(b, m)
    ensures a == b && n == m
  {
    var sa := Radix.ToString(a, 10);
    var sb := Radix.ToString(b, 10);
    assert DocumentPath(a, n) == "/documents/" + (sa + ['/'] + n);
    assert DocumentPath(b, m) == "/documents/" + (sb + ['/'] + m);
    assert sa + ['/'] + n == DocumentPath(a, n)[11..];
    assert sb + ['/'] + m == DocumentPath(b, m)[11..];
    assert '/' !in sa by {
      forall k | 0 <= k < |sa| ensures sa[k] != '/' { }
    }
    assert '/' !in sb by {
      forall k | 0 <= k < |sb| ensures sb[k] != '/' { }
    }
    Strings.SeparatorSplitsUniquely(sa, n, sb, m, '/');
    Radix.ToStringInjective(a, b, 10);
  }

  // ---------------------------------------------------------------------------
  // Listing

  /** The list query string; the empty string stands for an absent parameter. */
  datatype ListQuery = ListQuery(categoryId: string, registrationNumber: string, title: string)

  /** The `where` clause of the list route beyond the owner: an exact
      category id and substring matches on number and title. */
  predicate MatchesQuery(d: Document, q: ListQuery)
  {
    && (q.categoryId == "" || IntegerOf(Str(q.categoryId)) == Some(d.categoryId))
    && (q.registrationNumber == "" ||
        (d.registrationNumber.Some? && Strings.Includes(d.registrationNumber.value, q.registrationNumber)))
    && (q.title == "" || Strings.Includes(d.title, q.title))
  }

  function Visible(caller: int, q: ListQuery): Row<Document> -> bool
  {
    (x: Row<Document>) => x.data.ownerId == caller && MatchesQuery(x.data, q)
  }

  /** The caller's documents matching the query, newest first. */
  function ListedRows(docs: Table<Document>, caller: int, q: ListQuery): (r: seq<Row<Document>>)
    requires docs.Valid()
    ensures forall x :: x in r <==> x in docs.rows && x.data.ownerId == caller && MatchesQuery(x.data, q)
    ensures forall i, j :: 0 <= i < j < |r| ==> r[i].id > r[j].id
  {
    var kept := Where(docs.rows, Visible(caller, q));
    WhereIncreasing(docs.rows, Visible(caller, q));
    NewestFirstFacts(kept);
    NewestFirst(kept)
  }

  /** An empty query lists all of the caller's documents and nobody else's. */
  lemma EmptyQueryListsOwnDocuments(docs: Table<Document>, caller: int, x: Row<Document>)
    requires docs.Valid()
    ensures x in ListedRows(docs, caller, ListQuery("", "", "")) <==> x in docs.rows && x.data.ownerId == caller
  {
  }

  /** A document with no registration number never matches a number filter. */
  lemma NullNumberNeverMatches(d: Document, q: ListQuery)
    requires d.registrationNumber.None? && q.registrationNumber != ""
    ensures !MatchesQuery(d, q)
  {
  }

  // ---------------------------------------------------------------------------
  // Create

  const RequiredMessage := "Title, categoryId and documentTypeId are required"
  const InvalidCategoryMessage := "Invalid categoryId"
  const InvalidTypeMessage := "Invalid documentTypeId"
  const NumberInUseMessage := "Registration number already in use"

  /** The body of `POST /documents`. */
  datatype CreateBody = CreateBody(
    title: Field,
    categoryId: Value,
    description: Field,
    registrationNumber: Field,
    documentTypeId: Value)

  /** What validation looked up: the parsed ids and the rows they name. */
  datatype Resolved = Resolved(categoryId: int, category: Category, typeId: int, documentType: DocumentType)

  /** The three required fields are truthy. */
  predicate HasRequired(b: CreateBody)
  {
    FieldTruthy(b.title) && Truthy(b.categoryId) && Truthy(b.documentTypeId)
  }

  /** Both ids parse as integers naming existing rows. */
  predicate IdsResolve(b: CreateBody, categories: Table<Category>, types: Table<DocumentType>)
  {
    && IntegerOf(b.categoryId).Some?
    && IntegerOf(b.documentTypeId).Some?
    && categories.Get(IntegerOf(b.categoryId).value).Some?
    && types.Get(IntegerOf(b.documentTypeId).value).Some?
  }

  /** The checks of `POST /documents` before the registration number: required
      fields, integer ids, then existing rows, each failure a 400. */
  function ValidateCreate(b: CreateBody, categories: Table<Category>, types: Table<DocumentType>): (r: Outcome<Resolved>)
    ensures r.Success? <==> HasRequired(b) && IdsResolve(b, categories, types)
    ensures r.Success? ==>
      && r.value.categoryId == IntegerOf(b.categoryId).value
      && categories.Get(r.value.categoryId) == Some(r.value.category)
      && r.value.typeId == IntegerOf(b.documentTypeId).value
      && types.Get(r.value.typeId) == Some(r.value.documentType)
    ensures !HasRequired(b) ==> r == Failure(BadRequest(RequiredMessage))
    ensures HasRequired(b) && r.Failure? ==>
      r.status in {BadRequest(InvalidCategoryMessage), BadRequest(InvalidTypeMessage)}
    ensures HasRequired(b) && IntegerOf(b.categoryId).None? ==> r == Failure(BadRequest(InvalidCategoryMessage))
  {
    if !HasRequired(b) then Failure(BadRequest(RequiredMessage))
    else match IntegerOf(b.categoryId)
      case None => Failure(BadRequest(InvalidCategoryMessage))
      case Some(c) =>
        match IntegerOf(b.documentTypeId)
        case None => Failure(BadRequest(InvalidTypeMessage))
        case Some(t) =>
          match categories.Get(c)
          case None => Failure(BadRequest(InvalidCategoryMessage))
          case Some(category) =>
            match types.Get(t)
            case None => Failure(BadRequest(InvalidTypeMessage))
            case Some(documentType) => Success(Resolved(c, category, t, documentType))
  }

  /** A missing category is a 400, not a 404. */
  lemma MissingCategoryIsBadRequest(b: CreateBody, categories: Table<Category>, types: Table<DocumentType>)
    requires HasRequired(b) && IntegerOf(b.categoryId).Some? && IntegerOf(b.documentTypeId).Some?
    requires categories.Get(IntegerOf(b.categoryId).value).None?
    ensures ValidateCreate(b, categories, types) == Failure(BadRequest(InvalidCategoryMessage))
  {
  }

  /** The row `Document.create` stores: the caller as owner, the looked-up
      names as snapshots, no file pointer. */
  function NewDocument(b: CreateBody, v: Resolved, number: string, owner: int): (d: Document)
    requires b.title.Given?
    ensures d.ownerId == owner && d.title == b.title.s && d.registrationNumber == Some(number)
    ensures d.categoryId == v.categoryId && d.category == Some(v.category.name)
    ensures d.documentTypeId == Some(v.typeId) && d.documentType == Some(v.documentType.name)
    ensures d.description == CreateValue(b.description)
    ensures d.dropboxPath.None? && d.dropboxFileName.None?
  {
    Document(b.title.s, Some(v.category.name), v.categoryId, CreateValue(b.description), Some(number),
             Some(v.documentType.name), Some(v.typeId), None, None, owner)
  }

  /** Some candidate is held by no document, so the retry loop ends. */
  predicate SomeFresh(rows: seq<Row<Document>>, candidates: seq<string>)
  {
    exists k :: 0 <= k < |candidates| && !NumberTaken(rows, candidates[k])
  }

  /** The candidate the retry loop of `POST /documents` stops at: the first
      no document holds. */
  function FirstFresh(rows: seq<Row<Document>>, candidates: seq<string>): (k: nat)
    requires SomeFresh(rows, candidates)
    ensures k < |candidates| && !NumberTaken(rows, candidates[k])
    ensures forall j :: 0 <= j < k ==> NumberTaken(rows, candidates[j])
  {
    if !NumberTaken(rows, candidates[0]) then 0
    else
      assert SomeFresh(rows, candidates[1..]) by {
        var k :| 0 <= k < |candidates| && !NumberTaken(rows, candidates[k]);
        assert candidates[1..][k - 1] == candidates[k];
      }
      1 + FirstFresh(rows, candidates[1..])
  }

  /** The number a created document receives: the truthy number supplied,
      else the first fresh candidate. */
  function CreatedNumber(b: CreateBody, rows: seq<Row<Document>>, candidates: seq<string>): string
    requires !FieldTruthy(b.registrationNumber) ==> SomeFresh(rows, candidates)
  {
    if FieldTruthy(b.registrationNumber) then b.registrationNumber.s
    else candidates[FirstFresh(rows, candidates)]
  }

  /** A created document's number is assigned and held by no other document,
      provided a supplied number was checked and candidates are never empty. */
  lemma CreatedNumberIsFresh(b: CreateBody, rows: seq<Row<Document>>, candidates: seq<string>)
    requires !FieldTruthy(b.registrationNumber) ==> SomeFresh(rows, candidates)
    requires FieldTruthy(b.registrationNumber) ==> !NumberTaken(rows, b.registrationNumber.s)
    requires forall k :: 0 <= k < |candidates| ==> candidates[k] != ""
    ensures CreatedNumber(b, rows, candidates) != ""
    ensures !NumberTaken(rows, CreatedNumber(b, rows, candidates))
  {
  }

  // ---------------------------------------------------------------------------
  // Update

  /** The body of `PUT /documents/:id`. */
  datatype UpdateBody = UpdateBody(
    title: Field,
    categoryId: Value,
    description: Field,
    registrationNumber: Field,
    documentTypeId: Value)

  /** A truthy id that does not parse or names no row; an absent (falsy)
      id is no problem: the update keeps the current one. */
  predicate IdProblem<T(!new)>(v: Value, t: Table<T>)
  {
    Truthy(v) && (IntegerOf(v).None? || t.Get(IntegerOf(v).value).None?)
  }

  /** A truthy, changed number that some document already holds. */
  predicate NumberClash(current: Document, b: UpdateBody, docs: seq<Row<Document>>)
  {
    FieldTruthy(b.registrationNumber) && Some(b.registrationNumber.s) != current.registrationNumber
    && NumberTaken(docs, b.registrationNumber.s)
  }

  /** Every check of `PUT /documents/:id` runs before the single write; the
      result is the document as written, with omitted ids keeping both id and
      name snapshot and omitted text fields keeping their values. */
  function ReviseDocument(current: Document, b: UpdateBody, categories: Table<Category>,
                          types: Table<DocumentType>, docs: seq<Row<Document>>): (r: Outcome<Document>)
    ensures IdProblem(b.categoryId, categories) ==> r == Failure(BadRequest(InvalidCategoryMessage))
    ensures !IdProblem(b.categoryId, categories) && IdProblem(b.documentTypeId, types) ==>
      r == Failure(BadRequest(InvalidTypeMessage))
    ensures !IdProblem(b.categoryId, categories) && !IdProblem(b.documentTypeId, types) ==>
      (r == Failure(Conflict(NumberInUseMessage)) <==> NumberClash(current, b, docs))
    ensures r == Failure(ValidationError) <==>
      !IdProblem(b.categoryId, categories) && !IdProblem(b.documentTypeId, types)
      && !NumberClash(current, b, docs) && b.title.SetNull?
    ensures r.Success? <==>
      !IdProblem(b.categoryId, categories) && !IdProblem(b.documentTypeId, types)
      && !NumberClash(current, b, docs) && !b.title.SetNull?
    ensures r.Success? ==>
      var d := r.value;
      && d.title == (if b.title.Given? then b.title.s else current.title)
      && (Truthy(b.categoryId) ==>
            d.categoryId == IntegerOf(b.categoryId).value
            && d.category == Some(categories.Get(d.categoryId).value.name))
      && (!Truthy(b.categoryId) ==> d.categoryId == current.categoryId && d.category == current.category)
      && (Truthy(b.documentTypeId) ==>
            d.documentTypeId == Some(IntegerOf(b.documentTypeId).value)
            && d.documentType == Some(types.Get(d.documentTypeId.value).value.name))
      && (!Truthy(b.documentTypeId) ==>
            d.documentTypeId == current.documentTypeId && d.documentType == current.documentType)
      && d.description == UpdateValue(b.description, current.description)
      && d.registrationNumber == UpdateValue(b.registrationNumber, current.registrationNumber)
      && d.dropboxPath == current.dropboxPath && d.dropboxFileName == current.dropboxFileName
      && d.ownerId == current.ownerId
  {
    if IdProblem(b.categoryId, categories) then Failure(BadRequest(InvalidCategoryMessage))
    else if IdProblem(b.documentTypeId, types) then Failure(BadRequest(InvalidTypeMessage))
    else if NumberClash(current, b, docs) then Failure(Conflict(NumberInUseMessage))
    else if b.title.SetNull? then Failure(ValidationError)
    else
      var (categoryId, category) :=
        if Truthy(b.categoryId) then
          var c := IntegerOf(b.categoryId).value;
          (c, Some(categories.Get(c).value.name))
        else (current.categoryId, current.category);
      var (typeId, typeName) :=
        if Truthy(b.documentTypeId) then
          var t := IntegerOf(b.documentTypeId).value;
          (Some(t), Some(types.Get(t).value.name))
        else (current.documentTypeId, current.documentType);
      Success(current.(
        title := if b.title.Given? then b.title.s else current.title,
        categoryId := categoryId,
        category := category,
        documentTypeId := typeId,
        documentType := typeName,
        description := UpdateValue(b.description, current.description),
        registrationNumber := UpdateValue(b.registrationNumber, current.registrationNumber)))
  }

  /** A `PUT` with an empty body writes the document back unchanged: every
      omitted field keeps its value, ids and name snapshots included. */
  lemma EmptyUpdateKeepsDocument(current: Document, categories: Table<Category>,
                                 types: Table<DocumentType>, docs: seq<Row<Document>>)
    ensures ReviseDocument(current, UpdateBody(Omitted, Undefined, Omitted, Omitted, Undefined),
                           categories, types, docs) == Success(current)
  {
  }

  /** An update setting the number to "" skips the uniqueness check and
      clears the number to the empty string. */
  lemma EmptyNumberWrittenUnchecked(current: Document, b: UpdateBody, categories: Table<Category>,
                                    types: Table<DocumentType>, docs: seq<Row<Document>>)
    requires b.registrationNumber == Given("") && !b.title.SetNull?
    requires !IdProblem(b.categoryId, categories) && !IdProblem(b.documentTypeId, types)
    ensures ReviseDocument(current, b, categories, types, docs).Success?
    ensures ReviseDocument(current, b, categories, types, docs).value.registrationNumber == Some("")
  {
  }
}
