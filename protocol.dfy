/**
 * Keys and markers of the GNS command protocol (GNSProtocol and
 * GNSCommandProtocol). Those classes are not part of this model: the
 * spellings below stand for their constants. The proofs rely on the facts
 * the code itself relies on: the keys are distinct, the markers are not
 * empty, and each error code can be told from the others by the prefix
 * test the client applies (the characters at positions 1 and beyond that
 * set one code apart from another).
 */
module Protocol {
  const GUID := "guid"
  const QUERY := "query"
  const FIELDS := "fields"
  const SELECT_NOTIFICATION := "selectNotification"
  const SIGNATURE := "signature"
  const SIGNATUREFULLMESSAGE := "signatureFullMessage"
  const COMMANDNAME := "command"

  /** The single-element projection that stands for the whole record. */
  const ENTIRE_RECORD := "+ALL+"
  /** The field name that stands for every field of a record. */
  const ALL_FIELDS := "+ALL+"

  /** Response markers. */
  const OK_RESPONSE := "+OK+"
  const BAD_RESPONSE := "+NO+"
  const NULL_RESPONSE := "+NULL+"

  /** Error codes, each carried as the second token of a bad response. */
  const BAD_SIGNATURE := "+BAD_SIGNATURE+"
  const BAD_GUID := "+BADGUID+"
  const BAD_ACCESSOR_GUID := "+BADACCESSORGUID+"
  const DUPLICATE_GUID := "+DUPLICATEGUID+"
  const BAD_ACCOUNT := "+BADACCOUNT+"
  const DUPLICATE_FIELD := "+DUPLICATEFIELD+"
  const BAD_FIELD := "+BADFIELD+"
  const FIELD_NOT_FOUND := "+FIELDNOTFOUND+"
  const BAD_USER := "+BADUSER+"
  const DUPLICATE_USER := "+DUPLICATEUSER+"
  const BAD_GROUP := "+BADGROUP+"
  const DUPLICATE_GROUP := "+DUPLICATEGROUP+"
  const ACCESS_DENIED := "+ACCESS_DENIED+"
  const DUPLICATE_NAME := "+DUPLICATENAME+"
  const VERIFICATION_ERROR := "+VERIFICATIONERROR+"
  const STALE_COMMAND := "+STALE_COMMAND+"
  const UNSPECIFIED_ERROR := "+UNSPECIFIED+"
  const JSON_PARSE_ERROR := "+JSONPARSEERROR+"

  /** The action of the client's connectivity probe. */
  const CONNECTION_CHECK := "connectionCheck"
}
