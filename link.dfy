/** The single-relationship converter: writes the related record's id as `<name>Id`. */
module Link {
  import opened Wrappers
  import opened Php
  import opened ImportTypes

  /** The property the converter writes. */
  function OutputKey(name: string): string {
    name + "Id"
  }

  /** The value chosen for the link, before the final `(string)` cast. */
  function SelectValue(env: Env, entityType: string, config: FieldMapping, row: RawRow): Value {
    if config.column.None? || CellEmpty(row, config.column.value) then config.default
    else
      var cell := row[config.column.value];
      if config.field == "id" then Str(cell)
      else
        match LinkedEntity(env, entityType, config.name)
        case None => config.default
        case Some(related) =>
          match env.findOneId(related, config.field, cell)
          case None => config.default
          case Some(id) => Str(id)
  }

  /** The string written under `<name>Id`. */
  function OutputValue(env: Env, entityType: string, config: FieldMapping, row: RawRow): string {
    ToPhpString(SelectValue(env, entityType, config, row))
  }

  /** Sets `<name>Id` on the input row and nothing else. */
  method Convert(inputRow: InputRow, env: Env, entityType: string, config: FieldMapping, row: RawRow, delimiter: string)
    modifies inputRow
    ensures inputRow.props == old(inputRow.props)[OutputKey(config.name) := Str(OutputValue(env, entityType, config, row))]
  {
    var value := config.default;
    if config.column.Some? && !CellEmpty(row, config.column.value) {
      if config.field == "id" {
        value := Str(row[config.column.value]);
      } else {
        var related := LinkedEntity(env, entityType, config.name);
        if related.Some? {
          var found := env.findOneId(related.value, config.field, row[config.column.value]);
          if found.Some? {
            value := Str(found.value);
          }
        }
      }
    }
    inputRow.props := inputRow.props[OutputKey(config.name) := Str(ToPhpString(value))];
  }

  /**
   * What the converter writes: the default (cast to string) for a missing or
   * empty cell, the cell itself when the link is by id, otherwise the id the
   * lookup finds, or the default when there is no related entity type or no match.
   */
  lemma OutputValueCases(env: Env, entityType: string, config: FieldMapping, row: RawRow)
    ensures config.column.None? || CellEmpty(row, config.column.value)
      ==> OutputValue(env, entityType, config, row) == ToPhpString(config.default)
    ensures config.column.Some? && !CellEmpty(row, config.column.value) && config.field == "id"
      ==> OutputValue(env, entityType, config, row) == row[config.column.value]
    ensures config.column.Some? && !CellEmpty(row, config.column.value) && config.field != "id"
      ==> match LinkedEntity(env, entityType, config.name)
          case None => OutputValue(env, entityType, config, row) == ToPhpString(config.default)
          case Some(related) =>
            match env.findOneId(related, config.field, row[config.column.value])
            case None => OutputValue(env, entityType, config, row) == ToPhpString(config.default)
            case Some(id) => OutputValue(env, entityType, config, row) == id
  {
  }
}
