/** The tables behind the alert board, as rows of the columns the board reads and writes.
    Times are integers (seconds); the stored ISO text sorts the same way (RFC 3339,
    section 5.1). */
module AlertTables {
  import opened Common

  /** One row of alert_history, stored under its id. */
  datatype HistoryRow = HistoryRow(
    account: int, alertType: string, vehicleId: string, subkey: string,
    vehicleName: string, lastDetail: string, location: Option<string>,
    status: string, severity: string,
    firstSeen: int, lastSeen: int, occurrences: nat,
    acknowledgedBy: Option<int>, acknowledgedAt: Option<int>)

  type History = map<int, HistoryRow>

  /** One row of alert_seen or alert_workers: a person against an alert. */
  datatype PersonRow = PersonRow(id: int, account: int, alert: int, user: int)

  datatype Ledgers = Ledgers(seen: set<PersonRow>, workers: set<PersonRow>)

  /** A row of users, as far as the board's join reads it. */
  datatype UserRow = UserRow(telegram: int, account: int)
}
