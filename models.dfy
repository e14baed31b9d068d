/** The entities the store and the handlers exchange, with the fields the
    Postgres store and the handlers use, and the error codes of the JSON error
    responses (as labels only). */
module Models {

  datatype Language = Language(id: string, name: string, code: string)

  datatype Pack = Pack(id: string, name: string, langId: string, userId: string, public: bool)

  datatype Vocab = Vocab(id: string, image: string, name: string, translation: string, packId: string)

  datatype ErrorCode =
    | EmptyBody | JsonSyntax | JsonType | UnknownField | InvalidJson | MultipleObjects
    | MissingFields | InvalidLanguage | DuplicatePack | InvalidPack
    | DuplicateVocab | InvalidVocab | InvalidPacks | InvalidFileType | FileTooLarge | Internal

  /** An HTTP reply: an error with its status, code and the field names or ids a
      message lists, or a success status with its data. */
  datatype Reply<+T> =
    | Fail(status: int, code: ErrorCode, fields: seq<string>)
    | Done(status: int, data: T)

  const StatusOK := 200
  const StatusCreated := 201
  const StatusBadRequest := 400
  const StatusNotFound := 404
  const StatusConflict := 409
  const StatusRequestEntityTooLarge := 413
  const StatusUnsupportedMediaType := 415
  const StatusInternalServerError := 500
}
