/** The messages of the SBWP protocol as the Go driver sees them after parsing. */
module Messages {
  import opened Wrappers

  type byte = x: int | 0 <= x < 256

  const UINT64_LIMIT := 0x1_0000_0000_0000_0000

  datatype ColumnInfo = ColumnInfo(
    name: seq<byte>, tableOid: nat, columnIndex: nat, typeOid: nat,
    typeSize: int, typeModifier: int, format: byte, nullable: bool)

  datatype Cell = NullCell | DataCell(data: seq<byte>)

  datatype Completion = Completion(tag: string, rows: nat, lastId: nat)

  /** A server message. `None` is a body that the parser of that message type rejects.
      `Notification` stands for the asynchronous messages that touch no modelled state, and
      `Other` for the synchronous ones that every modelled loop skips. */
  datatype Message =
    | ParameterStatus(currentTxnId: Option<nat>)
    | TxnStatus(report: Option<(byte, nat)>)
    | Notification
    | ErrorResponse
    | RowDescription(columns: Option<seq<ColumnInfo>>)
    | DataRow(cells: Option<seq<Cell>>)
    | CommandComplete(completion: Option<Completion>)
    | PortalSuspended
    | Ready(report: Option<(byte, nat)>)
    | Other

  predicate IsAsync(m: Message) {
    m.ParameterStatus? || m.TxnStatus? || m.Notification?
  }

  /** Go's conversion of a uint64 to int64, and the wrap-around of its 64-bit int. */
  function ToInt64(x: int): (r: int)
    ensures -UINT64_LIMIT / 2 <= r < UINT64_LIMIT / 2 && (r - x) % UINT64_LIMIT == 0
  {
    var low := x % UINT64_LIMIT;
    if low < UINT64_LIMIT / 2 then low else low - UINT64_LIMIT
  }

  const STATUS_IN_TRANSACTION: byte := 'T' as int

  /** What the client writes. */
  datatype Request =
    | Execute(maxRows: nat)
    | TxnBegin(flags: nat, isolation: byte, readOnly: bool, readCommittedMode: byte)
    | TxnCommit
    | TxnRollback
    | Savepoint(name: string)
    | ReleaseSavepoint(name: string)
    | RollbackToSavepoint(name: string)
}
