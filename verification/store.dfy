/** The relational store as the handlers see it: they hand it a query with bound parameters and
    get back rows or an error. What the SQL means is the database's business and is not modelled. */
module Store {

  import opened Wrappers
  import opened Json
  import opened HttpStatus

  /** A result row, column name to value */
  type Row = map<string, Value>

  /** The statements the member handlers issue, each with the parameters it binds */
  datatype Query =
    | InsertMember(params: seq<Value>)          // INSERT ... VALUES($1, ..., $11) RETURNING id
    | SelectMembers(search: Option<string>)     // all members, optionally filtered, newest first
    | SelectMemberById(id: string)              // the fixed projection of one member
    | SelectMemberId(id: string)                // only the id column, as an existence check
    | UpdateMember(sql: string, params: seq<Value>)  // the generated UPDATE
    | DeleteMemberCascade(id: string)           // contacts, then the member, RETURNING id

  /** What a query gives back: its rows and row count, or an error that may carry a status code */
  datatype Answer =
    | Rows(rows: seq<Row>, rowCount: nat)
    | Failed(statusCode: Option<ErrorCode>)

  /** The store: an arbitrary answer for every query */
  type Executor = Query -> Answer
}
