/**
 * The shared part of the simple import handlers: finding the identity item,
 * mapping existing records by identity value, converting one configuration
 * item onto the input row, and building a result-log record.
 */
module AbstractHandler {
  import opened Wrappers
  import opened Php
  import opened ImportTypes
  import Link
  import LinkMultiple

  /** The placeholder a default value may contain; each default gets one generated id for it. */
  const HashPlaceholder := "{{hash}}"

  /** The log type of a failed row. */
  const ErrorType := "error"

  // ---------------------------------------------------------------- identity item

  /** The first item of `items` whose name is `name`. */
  function FindNamed(items: seq<FieldMapping>, name: string): Option<FieldMapping> {
    if items == [] then None
    else if items[0].name == name then Some(items[0])
    else FindNamed(items[1..], name)
  }

  /** The identity item: none when the identity field is empty, otherwise the first item so named. */
  function IdRow(configuration: seq<FieldMapping>, idField: Option<string>): Option<FieldMapping> {
    if idField.None? || EmptyString(idField.value) then None else FindNamed(configuration, idField.value)
  }

  lemma {:induction false} FindNamedIsFirst(items: seq<FieldMapping>, name: string)
    ensures FindNamed(items, name).None? <==> forall i :: 0 <= i < |items| ==> items[i].name != name
    ensures FindNamed(items, name).Some? ==>
      exists i :: 0 <= i < |items| && items[i] == FindNamed(items, name).value && items[i].name == name &&
        forall j :: 0 <= j < i ==> items[j].name != name
  {
    if items != [] && items[0].name != name {
      FindNamedIsFirst(items[1..], name);
      if FindNamed(items, name).Some? {
        var i :| 0 <= i < |items[1..]| && items[1..][i] == FindNamed(items[1..], name).value &&
          items[1..][i].name == name && forall j :: 0 <= j < i ==> items[1..][j].name != name;
        assert items[i + 1] == FindNamed(items, name).value;
        assert forall j :: 0 <= j < i + 1 ==> items[j].name != name by {
          forall j | 0 <= j < i + 1 ensures items[j].name != name {
            if j > 0 { assert items[j] == items[1..][j - 1]; }
          }
        }
      }
    }
  }

  /**
   * The identity item is absent whenever the identity field is empty, and
   * otherwise it is the first item carrying that name, absent only when no
   * item does.
   */
  lemma IdRowIsFirstMatch(configuration: seq<FieldMapping>, idField: Option<string>)
    ensures idField.None? || EmptyString(idField.value) ==> IdRow(configuration, idField) == None
    ensures idField.Some? && !EmptyString(idField.value) ==>
      (IdRow(configuration, idField).None? <==> forall i :: 0 <= i < |configuration| ==> configuration[i].name != idField.value)
    ensures IdRow(configuration, idField).Some? ==>
      exists i :: 0 <= i < |configuration| && configuration[i] == IdRow(configuration, idField).value &&
        configuration[i].name == idField.value &&
        forall j :: 0 <= j < i ==> configuration[j].name != idField.value
  {
    if idField.Some? && !EmptyString(idField.value) {
      FindNamedIsFirst(configuration, idField.value);
    }
  }

  /** Scans the configuration and returns the first item named after the identity field. */
  method GetIdRow(configuration: seq<FieldMapping>, idField: Option<string>) returns (r: Option<FieldMapping>)
    ensures r == IdRow(configuration, idField)
  {
    if idField.Some? && !EmptyString(idField.value) {
      var i := 0;
      while i < |configuration|
        invariant 0 <= i <= |configuration|
        invariant FindNamed(configuration[i..], idField.value) == FindNamed(configuration, idField.value)
      {
        if configuration[i].name == idField.value {
          return Some(configuration[i]);
        }
        assert configuration[i..][1..] == configuration[i + 1..];
        i := i + 1;
      }
    }
    return None;
  }

  // ---------------------------------------------------------------- existing records

  /** The identity map built from `records` in order; a later record with the same value wins. */
  function ExistsMap(records: seq<Record>): map<string, string> {
    if records == [] then map[]
    else
      var last := records[|records| - 1];
      ExistsMap(records[..|records| - 1])[last.key := last.id]
  }

  /** `records[i]` is the last record whose identity value is `k`. */
  predicate LastWithKey(records: seq<Record>, k: string, i: int) {
    0 <= i < |records| && records[i].key == k && forall j :: i < j < |records| ==> records[j].key != k
  }

  /** The keys of the identity map are exactly the identity values of the records. */
  lemma {:induction false} ExistsMapKeys(records: seq<Record>)
    ensures ExistsMap(records).Keys == set r | r in records :: r.key
  {
    if records != [] {
      var init := records[..|records| - 1];
      var last := records[|records| - 1];
      ExistsMapKeys(init);
      assert records == init + [last];
      assert (set r | r in records :: r.key) == (set r | r in init :: r.key) + {last.key};
    }
  }

  /** Each key of the identity map maps to the id of the last record carrying it. */
  lemma {:induction false} ExistsMapLastWins(records: seq<Record>, k: string)
    requires k in ExistsMap(records)
    ensures exists i :: LastWithKey(records, k, i) && ExistsMap(records)[k] == records[i].id
  {
    var init := records[..|records| - 1];
    var last := records[|records| - 1];
    if k == last.key {
      assert LastWithKey(records, k, |records| - 1);
    } else {
      ExistsMapLastWins(init, k);
      var i :| LastWithKey(init, k, i) && ExistsMap(init)[k] == init[i].id;
      assert records[i] == init[i];
      forall j | i < j < |records| ensures records[j].key != k {
        if j < |init| { assert records[j] == init[j]; }
      }
      assert LastWithKey(records, k, i);
    }
  }

  /**
   * When the records carry pairwise distinct identity values, every record's
   * value maps to its own id, whatever order the lookup returned them in.
   */
  lemma {:induction false} ExistsMapDistinct(records: seq<Record>)
    requires forall i, j :: 0 <= i < j < |records| ==> records[i].key != records[j].key
    ensures forall i :: 0 <= i < |records| ==> records[i].key in ExistsMap(records) && ExistsMap(records)[records[i].key] == records[i].id
  {
    if records != [] {
      var init := records[..|records| - 1];
      ExistsMapDistinct(init);
      forall i | 0 <= i < |records|
        ensures records[i].key in ExistsMap(records) && ExistsMap(records)[records[i].key] == records[i].id
      {
        if i < |init| {
          assert records[i] == init[i];
        }
      }
    }
  }

  /** Queries the records whose `name` is among `ids` and maps each identity value to its id. */
  method GetExists(env: Env, entityType: string, name: string, ids: seq<string>) returns (result: map<string, string>)
    ensures result == ExistsMap(env.findExisting(entityType, name, ids))
  {
    var data := env.findExisting(entityType, name, ids);
    result := map[];
    if |data| > 0 {
      for i := 0 to |data|
        invariant result == ExistsMap(data[..i])
      {
        assert data[..i + 1][..i] == data[..i];
        result := result[data[i].key := data[i].id];
      }
      assert data[..|data|] == data;
    }
  }

  // ---------------------------------------------------------------- converting one item

  /** The field type the metadata declares; a missing type reads as "". */
  function FieldType(env: Env, entityType: string, item: FieldMapping): string {
    if (entityType, item.name) in env.fieldTypes then env.fieldTypes[(entityType, item.name)] else ""
  }

  /** The converter registered for the item's field type, if any. */
  function ConverterFor(env: Env, entityType: string, item: FieldMapping): Option<Converter> {
    var fieldType := FieldType(env, entityType, item);
    if fieldType in env.converters then Some(env.converters[fieldType]) else None
  }

  /** The value the default path writes, given the id `hash` generated for this call. */
  function DefaultValue(item: FieldMapping, row: RawRow, hash: string): Value {
    if item.column.None? || CellEmpty(row, item.column.value) then
      if !Empty(item.default) && item.default.Str? then Str(ReplaceAll(item.default.s, HashPlaceholder, hash))
      else item.default
    else Str(row[item.column.value])
  }

  /**
   * The default path: a non-empty cell is taken as it is; otherwise the
   * default is used, and a non-empty string default has every placeholder
   * replaced by the one generated id — the result is the default's
   * placeholder-free pieces joined by that id — while any other default
   * passes through unchanged.
   */
  lemma DefaultValueCases(item: FieldMapping, row: RawRow, hash: string)
    ensures item.column.Some? && !CellEmpty(row, item.column.value) ==> DefaultValue(item, row, hash) == Str(row[item.column.value])
    ensures (item.column.None? || CellEmpty(row, item.column.value)) && (Empty(item.default) || !item.default.Str?)
      ==> DefaultValue(item, row, hash) == item.default
    ensures (item.column.None? || CellEmpty(row, item.column.value)) && !Empty(item.default) && item.default.Str?
      ==> var pieces := Split(item.default.s, HashPlaceholder);
          && DefaultValue(item, row, hash) == Str(Join(pieces, hash))
          && Join(pieces, HashPlaceholder) == item.default.s
          && forall i :: 0 <= i < |pieces| ==> FreeOf(pieces[i], HashPlaceholder)
  {
    if (item.column.None? || CellEmpty(row, item.column.value)) && !Empty(item.default) && item.default.Str? {
      ReplaceIsJoinOfSplit(item.default.s, HashPlaceholder, hash);
      JoinSplit(item.default.s, HashPlaceholder);
      SplitPiecesFree(item.default.s, HashPlaceholder);
    }
  }

  /** One conversion: the property written and its value. */
  datatype Converted = Converted(key: string, value: Value)

  /** The input-row properties after a conversion, or the error it threw. */
  function Apply(props: map<string, Value>, r: Result<Converted>): Result<map<string, Value>> {
    match r
    case Ok(c) => Ok(props[c.key := c.value])
    case Err(e) => Err(e)
  }

  /** The property a conversion of `item` writes; it depends on the field type only. */
  function KeyOf(env: Env, entityType: string, item: FieldMapping): string {
    match ConverterFor(env, entityType, item)
    case Some(LinkConverter) => Link.OutputKey(item.name)
    case Some(LinkMultipleConverter) => LinkMultiple.OutputKey(item.name)
    case None => item.name
  }

  /** What converting `item` on `row` writes, or the error it throws. */
  function ConvertValue(env: Env, entityType: string, item: FieldMapping, row: RawRow, delimiter: string, hash: string): Result<Converted>
    requires |delimiter| > 0
  {
    match ConverterFor(env, entityType, item)
    case Some(LinkConverter) => Ok(Converted(Link.OutputKey(item.name), Str(Link.OutputValue(env, entityType, item, row))))
    case Some(LinkMultipleConverter) =>
      (match LinkMultiple.SelectValues(env, entityType, item, row, delimiter)
       case Ok(ids) => Ok(Converted(LinkMultiple.OutputKey(item.name), Strs(ids)))
       case Err(e) => Err(e))
    case None => Ok(Converted(item.name, DefaultValue(item, row, hash)))
  }

  /**
   * Dispatch: a successful conversion writes the key fixed by the field type;
   * with a converter registered the default path does not run, so the
   * generated id plays no part; only a multi-relationship field can throw.
   */
  lemma ConvertValueDispatch(env: Env, entityType: string, item: FieldMapping, row: RawRow, delimiter: string, hash: string, otherHash: string)
    requires |delimiter| > 0
    ensures ConvertValue(env, entityType, item, row, delimiter, hash).Ok? ==>
      ConvertValue(env, entityType, item, row, delimiter, hash).value.key == KeyOf(env, entityType, item)
    ensures ConverterFor(env, entityType, item).Some? ==>
      ConvertValue(env, entityType, item, row, delimiter, hash) == ConvertValue(env, entityType, item, row, delimiter, otherHash)
    ensures ConvertValue(env, entityType, item, row, delimiter, hash).Err? ==>
      ConverterFor(env, entityType, item) == Some(LinkMultipleConverter) && !item.default.Str?
    ensures ConverterFor(env, entityType, item).None? ==>
      ConvertValue(env, entityType, item, row, delimiter, hash) == Ok(Converted(item.name, DefaultValue(item, row, hash)))
  {
  }

  /**
   * Converts one configuration item onto the input row: delegates to the
   * registered converter, or writes the default-path value under the item's
   * name. Only the converted property changes; a throw leaves the row as it was.
   */
  method ConvertItem(inputRow: InputRow, env: Env, entityType: string, item: FieldMapping, row: RawRow, delimiter: string, hash: string)
    returns (o: Outcome)
    requires |delimiter| > 0
    modifies inputRow
    ensures var r := Apply(old(inputRow.props), ConvertValue(env, entityType, item, row, delimiter, hash));
      && (r.Ok? ==> o == Pass && inputRow.props == r.value)
      && (r.Err? ==> o == Fail(r.error) && inputRow.props == old(inputRow.props))
  {
    var converter := ConverterFor(env, entityType, item);
    if converter.Some? {
      match converter.value {
        case LinkConverter =>
          Link.Convert(inputRow, env, entityType, item, row, delimiter);
          o := Pass;
        case LinkMultipleConverter =>
          o := LinkMultiple.Convert(inputRow, env, entityType, item, row, delimiter);
      }
      return;
    }

    var value;
    if item.column.None? || CellEmpty(row, item.column.value) {
      value := item.default;
      if !Empty(value) && value.Str? {
        value := Str(ReplaceAll(value.s, HashPlaceholder, hash));
      }
    } else {
      value := Str(row[item.column.value]);
    }
    assert value == DefaultValue(item, row, hash);
    inputRow.props := inputRow.props[item.name := value];
    o := Pass;
  }

  // ---------------------------------------------------------------- result log

  /** An ImportResultLog record as saved: an error log carries a message, any other an entity id. */
  datatype LogRecord = LogRecord(
    name: string,
    rowNumber: string,
    entityName: string,
    importResultId: string,
    kind: string,
    message: Option<string>,
    entityId: Option<string>)

  /** Builds the log record for one row of an import result. */
  function Log(entityName: string, importResultId: string, kind: string, row: string, data: string): LogRecord {
    LogRecord(row, row, entityName, importResultId, kind,
      if kind == ErrorType then Some(data) else None,
      if kind == ErrorType then None else Some(data))
  }

  /**
   * Both the name and the row number of a log are the file row; an error log
   * stores the data as its message and nothing as entity id, any other log
   * the reverse.
   */
  lemma LogFields(entityName: string, importResultId: string, kind: string, row: string, data: string)
    ensures var r := Log(entityName, importResultId, kind, row, data);
      && r.name == row && r.rowNumber == row
      && r.entityName == entityName && r.importResultId == importResultId && r.kind == kind
      && (kind == ErrorType <==> r.message == Some(data) && r.entityId == None)
      && (kind != ErrorType <==> r.entityId == Some(data) && r.message == None)
  {
  }
}
