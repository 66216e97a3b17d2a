/** The multi-relationship converter: writes a list of related ids as `<name>Ids`. */
module LinkMultiple {
  import opened Wrappers
  import opened Php
  import opened ImportTypes

  /** The separator the default value is split on, whatever the job's delimiter. */
  const DefaultSeparator := ","

  /** PHP's name for the type of a value, as error messages give it. */
  function TypeName(v: Value): string {
    match v
    case Null => "null"
    case Str(_) => "string"
    case Int(_) => "int"
    case Bool(_) => "bool"
    case Strs(_) => "array"
  }

  /** The TypeError `explode` throws, under strict types, for a default that is not a string. */
  function DefaultTypeError(default: Value): string {
    "explode(): Argument #2 ($string) must be of type string, " + TypeName(default) + " given"
  }

  /** The property the converter writes. */
  function OutputKey(name: string): string {
    name + "Ids"
  }

  /**
   * The list written under `<name>Ids`. The default is exploded first, for
   * every row, so a default that is not a string throws even when the cell
   * has a value.
   */
  function SelectValues(env: Env, entityType: string, config: FieldMapping, row: RawRow, delimiter: string): Result<seq<string>>
    requires |delimiter| > 0
  {
    if !config.default.Str? then Err(DefaultTypeError(config.default))
    else if config.column.None? || CellEmpty(row, config.column.value) then Ok(Split(config.default.s, DefaultSeparator))
    else
      var pieces := Split(row[config.column.value], delimiter);
      if config.field == "id" then Ok(pieces)
      else
        match LinkedEntity(env, entityType, config.name)
        case None => Ok(pieces)
        case Some(related) =>
          var ids := env.findIds(related, config.field, pieces);
          if |ids| > 0 then Ok(ids) else Ok(pieces)
  }

  /** Sets `<name>Ids` on the input row and nothing else, or throws before writing anything. */
  method Convert(inputRow: InputRow, env: Env, entityType: string, config: FieldMapping, row: RawRow, delimiter: string)
    returns (o: Outcome)
    requires |delimiter| > 0
    modifies inputRow
    ensures match SelectValues(env, entityType, config, row, delimiter)
      case Ok(ids) => o == Pass && inputRow.props == old(inputRow.props)[OutputKey(config.name) := Strs(ids)]
      case Err(e) => o == Fail(e) && inputRow.props == old(inputRow.props)
  {
    if !config.default.Str? {
      return Fail(DefaultTypeError(config.default));
    }
    var value := Split(config.default.s, DefaultSeparator);
    if config.column.Some? && !CellEmpty(row, config.column.value) {
      value := Split(row[config.column.value], delimiter);
      if config.field != "id" {
        var related := LinkedEntity(env, entityType, config.name);
        if related.Some? {
          var ids := env.findIds(related.value, config.field, value);
          if |ids| > 0 {
            value := ids;
          }
        }
      }
    }
    inputRow.props := inputRow.props[OutputKey(config.name) := Strs(value)];
    o := Pass;
  }

  /**
   * What the converter writes, case by case. A non-empty cell is exploded on
   * the delimiter; whenever the output falls back to those pieces (link by id,
   * no related entity type, or nothing found), imploding them with the
   * delimiter gives back the raw cell: the fallback is the cell, never the default.
   */
  lemma {:induction false} SelectValuesCases(env: Env, entityType: string, config: FieldMapping, row: RawRow, delimiter: string)
    requires |delimiter| > 0
    ensures !config.default.Str? <==> SelectValues(env, entityType, config, row, delimiter).Err?
    ensures !config.default.Str? ==> SelectValues(env, entityType, config, row, delimiter) == Err(DefaultTypeError(config.default))
    ensures config.default.Str? && (config.column.None? || CellEmpty(row, config.column.value))
      ==> SelectValues(env, entityType, config, row, delimiter) == Ok(Split(config.default.s, DefaultSeparator))
    ensures config.default.Str? && config.column.Some? && !CellEmpty(row, config.column.value)
      ==> var cell := row[config.column.value];
          var r := SelectValues(env, entityType, config, row, delimiter);
          var looked := config.field != "id" && LinkedEntity(env, entityType, config.name).Some?;
          var ids := if looked then env.findIds(LinkedEntity(env, entityType, config.name).value, config.field, Split(cell, delimiter)) else [];
          if |ids| > 0 then r == Ok(ids)
          else r == Ok(Split(cell, delimiter)) && Join(r.value, delimiter) == cell
  {
    if config.default.Str? && config.column.Some? && !CellEmpty(row, config.column.value) {
      JoinSplit(row[config.column.value], delimiter);
    }
  }
}
