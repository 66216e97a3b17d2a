# Simple import pipeline — a Dafny model

This project models the "simple" import of import-feeds-common. The import takes
one batch of parsed file rows and a field-mapping configuration. It turns each
row into an input row (a PHP `stdClass`) and then asks the entity service to
create or update one record per row. Each row runs in its own transaction and
writes result logs.

The model follows the source file by file:

- `Php` (php.dfy): the PHP value semantics the handlers rely on.
  - `empty()`: null, `""`, `"0"`, `0`, `false` and `[]` are empty.
  - The `(string)` cast.
  - `explode`, `implode` and `str_replace`, each scanned left to right.
- `ImportTypes` (import_types.dfy): the data the import works on.
  - Configuration items and the job description.
  - File rows.
  - The input row, a class with a property map that converters update in place.
  - The outside world as an `Env` value: metadata maps, plus lookup oracles for the entity store.
- `Link` and `LinkMultiple` (link.dfy, link_multiple.dfy): the two relationship
  converters. Each one picks a value on a local variable and writes one property
  into the input row.
- `AbstractHandler` (abstract_handler.dfy): the shared handler logic.
  - `getIdRow`: a loop with an early return.
  - `getExists`: a loop that builds the identity map.
  - `convertItem`: converter dispatch, the default path and `{{hash}}`.
  - `log`: the log record.
- `DefaultHandler` (default_handler.dfy): `prepareRows` and `run`.
  - `prepareRows` numbers the rows, attaches existing ids, converts every item and filters by action mode.
  - `run` sends per-row create/update requests, handles each transaction's outcome and writes logs.

Each imperative method is proved against a specification function of its
inputs (`IdRow`, `ExistsMap`, `ConvertValue`, `PreparedRows`, `Requests`,
`RunLogs`). The lemmas then state what the source promises about those functions.

The outside world is passed in as parameters:

- Metadata (field types, registered converters, link targets) is a set of maps.
- The three entity-store queries are functions. The model assumes nothing about the order or the content of what they return.
- The id generator is `gen(row index, item index)`.
- The entity service and the transaction are `service(k, request)`. It returns one of three outcomes:
  - committed;
  - create/update threw;
  - create/update returned an entity and the commit threw.

A PHP exception thrown during preparation (the TypeError described below)
becomes an `Err` that escapes both `prepareRows` and `run`.

## Model

| member | source | states |
|---|---|---|
| AbstractHandler.GetIdRow | app/Types/Simple/Handlers/AbstractHandler.php:51-62 | scanning the configuration returns exactly `IdRow`: nothing for an empty identity field, else the first item so named |
| AbstractHandler.IdRowIsFirstMatch | app/Types/Simple/Handlers/AbstractHandler.php:53-61 | an empty identity field gives null without looking at the configuration; otherwise the result is absent iff no item has that name, and when present it is an item carrying the name with no earlier item carrying it |
| AbstractHandler.FindNamedIsFirst | app/Types/Simple/Handlers/AbstractHandler.php:54-58 | the search finds nothing iff no item has the name, else it returns the first item that has it |
| AbstractHandler.GetExists | app/Types/Simple/Handlers/AbstractHandler.php:71-90 | the loop over the looked-up records builds exactly `ExistsMap` of the query's answer |
| AbstractHandler.ExistsMapKeys | app/Types/Simple/Handlers/AbstractHandler.php:81-89 | the map's keys are exactly the identity values of the returned records, so no records give an empty map |
| AbstractHandler.ExistsMapLastWins | app/Types/Simple/Handlers/AbstractHandler.php:84-86 | every key maps to the id of the last record carrying that value: a later record overwrites an earlier one |
| AbstractHandler.ExistsMapDistinct | app/Types/Simple/Handlers/AbstractHandler.php:84-86 | when identity values are distinct, each record's value maps to its own id whatever order the lookup used |
| AbstractHandler.DefaultValue | app/Types/Simple/Handlers/AbstractHandler.php:108-115 | the default-path value: the raw cell when the column is set and the cell non-empty, otherwise the default, with every `{{hash}}` of a non-empty string default replaced by the one generated id |
| AbstractHandler.DefaultValueCases | app/Types/Simple/Handlers/AbstractHandler.php:108-115 | a non-empty cell is taken raw; a null column or an empty cell gives the default; a non-empty string default becomes its `{{hash}}`-free pieces joined by the one generated id; any other default passes through unchanged |
| AbstractHandler.ConvertValue | app/Types/Simple/Handlers/AbstractHandler.php:102-118 | one conversion chosen by the converter registered for the field type: Link writes `<name>Id`, LinkMultiple writes `<name>Ids` or throws its TypeError, and with no converter the default-path value is written under the item's name |
| AbstractHandler.ConvertValueDispatch | app/Types/Simple/Handlers/AbstractHandler.php:102-118 | the key written is fixed by the field type (`<name>Id`, `<name>Ids` or the name); with a converter registered the default path does not run and the generated id has no effect; only a multi-link with a non-string default throws; with no converter the default-path value is written under the item's name |
| AbstractHandler.ConvertItem | app/Types/Simple/Handlers/AbstractHandler.php:99-119 | the input row gains exactly the converted property, and nothing else changes; a throw leaves the row as it was and reports the error |
| AbstractHandler.Log | app/Types/Simple/Handlers/AbstractHandler.php:141-159 | the log record of one row: name and row number the file row, the entity name, import result and type as given, the data as message for an `error` log and as entity id for any other |
| AbstractHandler.LogFields | app/Types/Simple/Handlers/AbstractHandler.php:141-159 | name and row number are both the row; entity name, import result and type are set; an `error` log stores the data as message and no entity id, any other log the reverse |
| Link.SelectValue | app/Types/Simple/FieldConverters/Link.php:38-66 | the chosen value: the default for a null column or empty cell, the raw cell for field `id`, otherwise the id the lookup finds, or the default when there is no related entity type or no match |
| Link.OutputValue | app/Types/Simple/FieldConverters/Link.php:67 | the selected value cast to string with PHP's `(string)` |
| Link.Convert | app/Types/Simple/FieldConverters/Link.php:35-68 | only `<name>Id` is written on the input row, set to the string of the selected value |
| Link.OutputValueCases | app/Types/Simple/FieldConverters/Link.php:38-67 | null column or empty cell: the default cast to string; field `id`: the raw cell with no lookup; otherwise the id the lookup finds, or the default when there is no related entity type or no match |
| LinkMultiple.SelectValues | app/Types/Simple/FieldConverters/LinkMultiple.php:39-69 | the TypeError for a non-string default; else the default split on `,` for a null column or empty cell; else the cell exploded on the delimiter, replaced by the looked-up ids when the field is not `id`, a related entity type exists and the lookup returns any |
| LinkMultiple.Convert | app/Types/Simple/FieldConverters/LinkMultiple.php:36-70 | on success only `<name>Ids` is written, always a list; on the TypeError nothing is written and the error is reported |
| LinkMultiple.SelectValuesCases | app/Types/Simple/FieldConverters/LinkMultiple.php:39-69 | throws iff the default is not a string, with a TypeError naming the given type; null column or empty cell: the default split on `,`; a non-empty cell: exactly the looked-up ids when the lookup returned any, otherwise exactly the cell exploded on the delimiter, whose pieces implode back to the raw cell (never the default) |
| Php.JoinSplit | app/Types/Simple/FieldConverters/LinkMultiple.php:42 | imploding the pieces of `explode` with the same delimiter gives back the original string |
| Php.ReplaceIsJoinOfSplit | app/Types/Simple/Handlers/AbstractHandler.php:111 | replacing every occurrence of a pattern equals exploding on it and imploding with the replacement |
| Php.SplitPiecesFree | app/Types/Simple/Handlers/AbstractHandler.php:111 | no piece of `explode` contains the delimiter |
| Php.ParseIntToString | app/Types/Simple/Handlers/DefaultHandler.php:47 | the decimal text a row number is cast to reads back as that number, sign included |
| Php.IntToStringInjective | app/Types/Simple/Handlers/DefaultHandler.php:47 | distinct row numbers cast to distinct strings |
| DefaultHandler.ExistingFor | app/Types/Simple/Handlers/DefaultHandler.php:94-100 | with an identity item, its column and the map from identity value to existing id built from the lookup of that column's cells, in every action mode; none without an identity item |
| DefaultHandler.PreparedRows | app/Types/Simple/Handlers/DefaultHandler.php:85-135 | the prepared rows of the whole batch: every row converted in order and filtered by the mode, or the first error thrown |
| DefaultHandler.Admit | app/Types/Simple/Handlers/DefaultHandler.php:120-131 | what the three mode checks append for one converted row: create appends it with `_id` null, update appends it when `_id` is non-empty, create_update always appends it |
| DefaultHandler.ConvertAllKeepsOthers | app/Types/Simple/Handlers/DefaultHandler.php:115-117 | converting the items of a row leaves every property none of them writes as it was |
| DefaultHandler.PrepareRowBookkeeping | app/Types/Simple/Handlers/DefaultHandler.php:107-117 | when no item writes `_id` or `_fileRow`, row `i` is numbered `offset+i+1` and carries the id mapped to its identity cell, or null |
| DefaultHandler.AdmitShape | app/Types/Simple/Handlers/DefaultHandler.php:120-131 | the three mode checks append the row at most once: in create mode with its id cleared, in update mode only with a non-empty id, in create_update mode always, in any other mode never |
| DefaultHandler.KeptIndices | app/Types/Simple/Handlers/DefaultHandler.php:105-131 | the rows kept are in strictly increasing file order; a row is kept exactly when it converted and the mode admits its `_id` after conversion |
| DefaultHandler.KeptEveryRow | app/Types/Simple/Handlers/DefaultHandler.php:120-131 | in create and create_update mode every converted row is kept, in order |
| DefaultHandler.KeptNothing | app/Types/Simple/Handlers/DefaultHandler.php:126-128 | when the mode admits no converted row, nothing is kept |
| DefaultHandler.GatherFollowsKept | app/Types/Simple/Handlers/DefaultHandler.php:105-134 | a batch gathered without a throw had every row convert, and consists of exactly the kept rows, finished (id cleared in create mode), in order |
| DefaultHandler.RowResultsAt | app/Types/Simple/Handlers/DefaultHandler.php:105-117 | the batch's outcome for row `i` is the conversion of file row `i` numbered `offset+i+1` |
| DefaultHandler.RowResultsBookkeeping | app/Types/Simple/Handlers/DefaultHandler.php:107-117 | when no item writes `_id` or `_fileRow`, every converted row `i` of the batch carries the number `offset+i+1` and its existing id |
| DefaultHandler.PreparedFollowsKept | app/Types/Simple/Handlers/DefaultHandler.php:105-134 | the prepared rows are exactly the kept file rows, converted and finished, in file order |
| DefaultHandler.PreparedRowNumbers | app/Types/Simple/Handlers/DefaultHandler.php:103-111 | each prepared row carries the number `offset+i+1` of the file row `i` it came from |
| DefaultHandler.PreparedNumbering | app/Types/Simple/Handlers/DefaultHandler.php:103-111 | the numbers of the prepared rows strictly increase |
| DefaultHandler.NumberStringsDiffer | app/Types/Simple/Handlers/DefaultHandler.php:47 | two rows with different integer numbers give different row-number strings |
| DefaultHandler.PreparedRowNumbersDistinct | app/Types/Simple/Handlers/DefaultHandler.php:47 | no two prepared rows carry the same row number as a string, so no two rows' logs name the same row |
| DefaultHandler.CreateModeKeepsEveryRow | app/Types/Simple/Handlers/DefaultHandler.php:120-125 | create mode keeps every file row, in order, numbered `offset+k+1`, with `_id` null |
| DefaultHandler.CreateUpdateModeKeepsEveryRow | app/Types/Simple/Handlers/DefaultHandler.php:112-131 | create_update mode keeps every file row, in order, numbered `offset+k+1`, with `_id` the existing id or null |
| DefaultHandler.UpdateModeKeepsMatchedRows | app/Types/Simple/Handlers/DefaultHandler.php:112-128 | update mode keeps exactly the rows whose identity value has an existing record, each carrying that non-empty id |
| DefaultHandler.NoIdentityUpdateKeepsNothing | app/Types/Simple/Handlers/DefaultHandler.php:97-128 | with no identity item every `_id` is null, so update mode prepares nothing |
| DefaultHandler.OtherActionKeepsNothing | app/Types/Simple/Handlers/DefaultHandler.php:119-131 | under an action other than create, update and create_update the batch gathers nothing |
| DefaultHandler.Kept | app/Types/Simple/Handlers/DefaultHandler.php:105-131 | every kept index is a row of the batch |
| DefaultHandler.ConvertAllErrPersists | app/Types/Simple/Handlers/DefaultHandler.php:115-117 | once an item throws, the rest of the row's conversion does not change the outcome |
| DefaultHandler.ConvertAllStep | app/Types/Simple/Handlers/DefaultHandler.php:115-117 | converting one more item applies its conversion to the row so far; a throw ends the whole row |
| DefaultHandler.GatherErrPersists | app/Types/Simple/Handlers/DefaultHandler.php:105-132 | once a row throws, the batch's outcome is that error |
| DefaultHandler.PreparedStep | app/Types/Simple/Handlers/DefaultHandler.php:105-132 | preparing one more row appends what the mode admits of it; a throw ends the batch |
| DefaultHandler.ConvertRow | app/Types/Simple/Handlers/DefaultHandler.php:107-117 | the new input row holds exactly the converted properties of file row `i`, or the error of the first item that threw |
| DefaultHandler.Push | app/Types/Simple/Handlers/DefaultHandler.php:119-131 | the result list grows by exactly what the mode admits of the row, clearing its id in create mode; no row is listed twice |
| DefaultHandler.FindIdentity | app/Types/Simple/Handlers/DefaultHandler.php:94-100 | the identity item and the existing-record map of the batch, looked up whenever an identity item exists |
| DefaultHandler.PrepareNext | app/Types/Simple/Handlers/DefaultHandler.php:106-131 | preparing file row `i` appends exactly what the mode admits of it to the rows so far, keeping them distinct; a throw is the error of the whole batch |
| DefaultHandler.PrepareRows | app/Types/Simple/Handlers/DefaultHandler.php:85-135 | the returned input rows, fresh and pairwise distinct, hold exactly `PreparedRows`; a throw during preparation is reported |
| DefaultHandler.RequestOf | app/Types/Simple/Handlers/DefaultHandler.php:43-61 | a row's request: its properties without `_id` and `_fileRow`, a create when the id is empty and an update of that id otherwise |
| DefaultHandler.RowLogs | app/Types/Simple/Handlers/DefaultHandler.php:53-70 | the logs of one row: an error log with the message when the transaction rolled back, then a create/update log with the entity id whenever the service returned an entity |
| DefaultHandler.Requests | app/Types/Simple/Handlers/DefaultHandler.php:38-61 | one request per prepared row, in order, each the row's own request |
| DefaultHandler.RequestOfShape | app/Types/Simple/Handlers/DefaultHandler.php:43-61 | `_id` and `_fileRow` are stripped and every other property is sent; the request creates iff the id is empty and otherwise updates the record with that id; the success log names the same action |
| DefaultHandler.RowLogsCases | app/Types/Simple/Handlers/DefaultHandler.php:53-70 | a row writes an error log with the message iff its transaction rolled back, and then a success log with the entity id iff the service returned an entity; a commit failure after a returned entity writes both; every log carries the row number and the job's entity and import result |
| DefaultHandler.RowLogsCounts | app/Types/Simple/Handlers/DefaultHandler.php:64-70 | one row writes one error log exactly when rolled back and one success log exactly when an entity came back |
| DefaultHandler.RunLogs | app/Types/Simple/Handlers/DefaultHandler.php:38-71 | over the first `n` rows, the error logs number the rolled-back rows and the other logs the rows that returned an entity, so there are between `n` and `2n` logs |
| DefaultHandler.RunStep | app/Types/Simple/Handlers/DefaultHandler.php:38-71 | applying one more row appends its request to the requests and its logs to the logs of the rows before it |
| DefaultHandler.ApplyRow | app/Types/Simple/Handlers/DefaultHandler.php:40-70 | the row loses `_id` and `_fileRow`, the request is the row's create/update request, and the logs are those of the service's outcome |
| DefaultHandler.Run | app/Types/Simple/Handlers/DefaultHandler.php:21-74 | a throw during preparation escapes before any request or log; otherwise it returns true, sends exactly one request per prepared row in order, and writes exactly the logs of their outcomes; an empty batch sends and logs nothing |

## Left out

- Database, service and transactions are oracles.
  - The repository queries (`select/where/find`, `findOne`) are functions of their filter.
  - `createEntity`/`updateEntity` and `commit` are one outcome per row.
  - `beginTransaction`, `rollBack` and the saving of a log cannot fail in the model.
  - Concurrency between batches is external to the handler.
- `Util::generateId` is the parameter `gen`. Uniqueness of generated ids is not modelled.
- AbstractHandler.DefaultValueCases: does not state that no `{{hash}}` remains after the replacement. That holds only when the generated id cannot help form the placeholder, which depends on the generator's alphabet. The model proves the result is the placeholder-free pieces of the default joined by the one id.
- AbstractHandler.GetIdRow: compares the item name with the identity field by exact string equality. PHP's loose `==` would also match numeric strings such as `"1"` and `"01"`.
- Link.OutputValueCases and LinkMultiple.SelectValuesCases: test `field` against `"id"` by exact string equality rather than PHP's loose comparison.
- DefaultHandler.ExistingFor: for an identity item with a null column, PHP's `array_column` with a null column returns whole rows to the lookup. The model passes the cells under the key `""` instead. Since the lookup is an oracle, only its argument differs.
- Job fields arrive already typed. The `(int)` and `(string)` casts of the offset, entity and import result id are not modelled.
- Field values are null, strings, integers, booleans and lists of strings. Floats and nested arrays are not modelled.
- The multi-value delimiter must be non-empty. `explode` with an empty delimiter is a PHP runtime error.
- The input row is a map, so the order of its properties is not modelled.
- The log entity is modelled as the record of values it holds once saved. The sequence of `set` calls is not modelled.
- DefaultHandler lemmas about `_id` and `_fileRow` (`PrepareRowBookkeeping`, `RowResultsBookkeeping` and the mode lemmas) assume that no configured item writes those two properties.
  - In the source, a default-path item named `_id` or `_fileRow` would overwrite the bookkeeping value.
  - The model keeps that behaviour; only these lemmas exclude it.
- Converter classes other than `Link` and `LinkMultiple` are not part of this model, and neither is the restore/undo of imported data. `AbstractConverter` has no behaviour of its own.
- Two behaviours of the code that the model keeps:
  - The existing records are looked up whenever an identity item is configured, in every action mode (DefaultHandler.php lines 97-100).
  - `LinkMultiple` explodes the default first, on every row (LinkMultiple.php line 39). Under strict types, a default that is not a string throws a TypeError even when the cell has a value. That error aborts the whole batch.
- LinkMultiple.DefaultTypeError: the message follows PHP 8's wording (`..., int given`). PHP 7 words the same TypeError differently, and that wording is not modelled.
