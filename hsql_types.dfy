/**
 * Values shared by the view-compilation model: qualified names, table
 * filters, column descriptors, the error codes the view code raises and
 * the Result/Outcome wrappers that stand for Java exceptions.
 */
module HsqlTypes {

  /** A schema is identified by its (resolved) name. */
  type SchemaName = string

  /** A schema-qualified catalog name (HsqlName with its schema). */
  datatype QualifiedName = QualifiedName(schema: SchemaName, name: string)

  /** A table filter of a select: the table it ranges over, by name. */
  datatype TableFilter = TableFilter(tableName: QualifiedName)

  /** One output column descriptor of the compiled select. */
  datatype ColumnDef = ColumnDef(name: string, sqlType: int)

  /** The text offset -> column-list map a select records for its asterisks;
      a `None` value is an asterisk that is not a wildcard (COUNT(*)). */
  type AsteriskMap = map<int, Option<string>>

  datatype Option<+T> = None | Some(value: T)

  /** The exceptions the modelled code can raise. */
  datatype ErrorCode =
    | InvalidSchemaNameNoSubclass      // Trace.INVALID_SCHEMA_NAME_NO_SUBCLASS
    | NotATable                        // Trace.NOT_A_TABLE
    | StringIndexOutOfBounds           // String.substring with bad bounds
    | TokenizerError(message: string)  // thrown by the tokenizer
    | ParseError(message: string)      // thrown by the parser / prepareResult

  datatype Result<+T> = Success(value: T) | Failure(error: ErrorCode)

  datatype Outcome = Pass | Fail(error: ErrorCode)
}
