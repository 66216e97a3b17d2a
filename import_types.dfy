/**
 * The data the simple import works on: the field-mapping configuration, the
 * job description, file rows, the input row under construction, and the
 * outside world (metadata and entity-store lookups) passed in as values.
 */
module ImportTypes {
  import opened Wrappers
  import opened Php

  /** One parsed file row: column key to cell text. A missing key is a missing cell. */
  type RawRow = map<string, string>

  /**
   * One configuration item: the target field `name`, the source `column`
   * (None when the field takes only its default), the `default` value and,
   * for relationship fields, the foreign attribute `field` used for lookup
   * ("" when the item has none).
   */
  datatype FieldMapping = FieldMapping(name: string, column: Option<string>, default: Value, field: string)

  /**
   * The job data handed to a handler: target entity type, import result id,
   * optional identity field, configuration, multi-value delimiter, action
   * mode and the offset of the first row in the file.
   */
  datatype Job = Job(
    entity: string,
    importResultId: string,
    idField: Option<string>,
    configuration: seq<FieldMapping>,
    delimiter: string,
    action: string,
    offset: int)

  /** A record returned by the identity lookup: its identity-field value and its id. */
  datatype Record = Record(key: string, id: string)

  /** The converter classes the metadata may register for a field type. */
  datatype Converter = LinkConverter | LinkMultipleConverter

  /**
   * Metadata and entity-store lookups. The lookups are oracles: the model
   * assumes nothing about the order or the content of what they return.
   *  - fieldTypes: (entity type, field name) to field type
   *  - converters: field type to the converter registered for it
   *  - linkEntities: (entity type, link name) to the related entity type
   *  - findExisting(entity type, field, keys): records whose field is among keys
   *  - findOneId(entity type, field, value): id of a record whose field equals value
   *  - findIds(entity type, field, values): ids of records whose field is among values
   */
  datatype Env = Env(
    fieldTypes: map<(string, string), string>,
    converters: map<string, Converter>,
    linkEntities: map<(string, string), string>,
    findExisting: (string, string, seq<string>) -> seq<Record>,
    findOneId: (string, string, string) -> Option<string>,
    findIds: (string, string, seq<string>) -> seq<string>)

  /** `empty($row[$column])`: a missing cell is empty too. */
  predicate CellEmpty(row: RawRow, column: string) {
    column !in row || EmptyString(row[column])
  }

  /** The column key PHP uses for `$row[$column]`: a null column indexes the key "". */
  function ColumnKey(column: Option<string>): string {
    if column.Some? then column.value else ""
  }

  /** `$row[$column]` used as an array key: a missing cell reads as null, i.e. the key "". */
  function KeyCell(row: RawRow, column: string): string {
    if column in row then row[column] else ""
  }

  /** `array_column($rows, $column)`: the cells of the rows that have the column, in row order. */
  function ArrayColumn(rows: seq<RawRow>, column: string): (r: seq<string>)
    ensures |r| <= |rows|
  {
    if rows == [] then []
    else
      var init := ArrayColumn(rows[..|rows| - 1], column);
      var last := rows[|rows| - 1];
      if column in last then init + [last[column]] else init
  }

  /** The related entity type of a link, when the metadata names a non-empty one. */
  function LinkedEntity(env: Env, entityType: string, linkName: string): Option<string> {
    if (entityType, linkName) in env.linkEntities && !EmptyString(env.linkEntities[(entityType, linkName)])
    then Some(env.linkEntities[(entityType, linkName)])
    else None
  }

  /** A property read on the input row: an unset property reads as null. */
  function Prop(props: map<string, Value>, key: string): Value {
    if key in props then props[key] else Null
  }

  /** The object a row is converted into; converters set its properties in place. */
  class InputRow {
    var props: map<string, Value>

    constructor (props: map<string, Value>)
      ensures this.props == props
    {
      this.props := props;
    }
  }
}
