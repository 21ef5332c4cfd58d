/**
 * The rows of the six tables, field for field as the Sequelize models declare
 * them (`allowNull: true` columns are `Option`s). Ids live in `Tables.Row`.
 * Timestamps are not stored: insertion order stands for `createdAt`.
 */
module Records {
  import opened Optionals

  /** A user. The model file is not part of this model; the fields are those
      the auth and Dropbox routes read and write. */
  datatype User = User(
    name: string,
    email: string,
    passwordHash: string,
    dropboxAccessToken: Option<string>,
    dropboxAccountEmail: Option<string>)

  /** A category; `parentId` is its single parent, if any. */
  datatype Category = Category(name: string, parentId: Option<int>)

  /** A document type: a flat name, with no parent. */
  datatype DocumentType = DocumentType(name: string)

  /** A document. `category` and `documentType` are name snapshots taken when
      the referenced rows were looked up for a write. */
  datatype Document = Document(
    title: string,
    category: Option<string>,
    categoryId: int,
    description: Option<string>,
    registrationNumber: Option<string>,
    documentType: Option<string>,
    documentTypeId: Option<int>,
    dropboxPath: Option<string>,
    dropboxFileName: Option<string>,
    ownerId: int)

  /** A registration sub-record logged against a document. */
  datatype Registration = Registration(documentId: int, registrationNumber: string, status: string)

  /** One uploaded version of a document's file. */
  datatype DocumentFile = DocumentFile(documentId: int, version: int, fileName: string, dropboxPath: string)

  /** The default of the registration `status` column. */
  const DefaultStatus := "active"

  /** A registration number that counts as assigned: non-null and non-empty. */
  predicate HasNumber(d: Document)
  {
    d.registrationNumber.Some? && d.registrationNumber.value != ""
  }
}
