/** The column configuration of the encrypted database, as an arbitrary parameter. */
module Config {
  import opened Outcomes
  import opened Bytes

  datatype ColumnConfig = ColumnConfig(
    encrypted: bool, encryptionKey: ByteString, origDataType: int, origDataSize: int,
    blindIndex: bool, biName: string, biKey: ByteString,
    join: bool, joinKeyName: string)

  datatype DatabaseConfig = DatabaseConfig(
    columns: map<(string, string), ColumnConfig>,  // (table, column)
    tdeTables: set<string>,
    joinKeySize: nat)
  {
    /** getColumnConfig: nothing for a column that is not configured. */
    function Column(table: string, name: string): Option<ColumnConfig> {
      if (table, name) in columns then Some(columns[(table, name)]) else None
    }

    predicate Encrypted(table: string, name: string) {
      Column(table, name).Some? && Column(table, name).value.encrypted
    }

    predicate Indexed(table: string, name: string) {
      Column(table, name).Some? && Column(table, name).value.blindIndex
    }

    predicate Joinable(table: string, name: string) {
      Column(table, name).Some? && Column(table, name).value.join
    }
  }
}
