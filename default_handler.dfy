/**
 * The default simple-import handler: prepares the input rows of one batch
 * (numbering, existing id, action filter) and applies them one by one, each
 * in its own transaction, writing one result log per outcome.
 */
module DefaultHandler {
  import opened Wrappers
  import opened Php
  import opened ImportTypes
  import opened AbstractHandler

  const CreateAction := "create"
  const UpdateAction := "update"
  const CreateUpdateAction := "create_update"

  /** The bookkeeping properties a prepared row carries besides its fields. */
  const IdKey := "_id"
  const FileRowKey := "_fileRow"

  // ---------------------------------------------------------------- preparing rows

  /** The identity column and the map from identity value to existing id. */
  datatype Identity = Identity(column: string, existing: map<string, string>)

  /**
   * The identity used for a batch: when an identity item is configured, the
   * records whose identity field is among the batch's cells are looked up
   * (whatever the action mode) and mapped by value.
   */
  function ExistingFor(env: Env, job: Job, fileData: seq<RawRow>): Option<Identity> {
    match IdRow(job.configuration, job.idField)
    case None => None
    case Some(item) =>
      var column := ColumnKey(item.column);
      Some(Identity(column, ExistsMap(env.findExisting(job.entity, item.name, ArrayColumn(fileData, column)))))
  }

  /** The existing id of a row: the id mapped to its identity cell, or null. */
  function IdOf(identity: Option<Identity>, row: RawRow): Value {
    match identity
    case None => Null
    case Some(ident) =>
      var key := KeyCell(row, ident.column);
      if key in ident.existing then Str(ident.existing[key]) else Null
  }

  /** A fresh input row: its file row number and existing id. */
  function InitialProps(fileRow: int, id: Value): map<string, Value> {
    map[FileRowKey := Int(fileRow), IdKey := id]
  }

  /**
   * Converting `items` in order onto `props`; item `j` of row `rowIndex` gets
   * the generated id `gen(rowIndex, j)`. The first throw ends the conversion.
   */
  function ConvertAll(env: Env, entityType: string, items: seq<FieldMapping>, row: RawRow, delimiter: string,
                      gen: (nat, nat) -> string, rowIndex: nat, props: map<string, Value>): Result<map<string, Value>>
    requires |delimiter| > 0
    decreases |items|
  {
    if items == [] then Ok(props)
    else
      match ConvertAll(env, entityType, items[..|items| - 1], row, delimiter, gen, rowIndex, props)
      case Err(e) => Err(e)
      case Ok(p) => Apply(p, ConvertValue(env, entityType, items[|items| - 1], row, delimiter, gen(rowIndex, |items| - 1)))
  }

  /** Row `i` of the file, numbered and converted. */
  function PrepareRow(env: Env, job: Job, identity: Option<Identity>, fileData: seq<RawRow>, gen: (nat, nat) -> string, i: nat): Result<map<string, Value>>
    requires |job.delimiter| > 0 && i < |fileData|
  {
    ConvertAll(env, job.entity, job.configuration, fileData[i], job.delimiter, gen, i,
      InitialProps(job.offset + i + 1, IdOf(identity, fileData[i])))
  }

  /** What the action filter appends for one converted row; create mode clears the id. */
  function Admit(action: string, props: map<string, Value>): seq<map<string, Value>> {
    (if action == CreateAction then [props[IdKey := Null]] else [])
    + (if action == UpdateAction && !Empty(Prop(props, IdKey)) then [props] else [])
    + (if action == CreateUpdateAction then [props] else [])
  }

  /** The outcome of preparing each of the first `n` file rows, in file order. */
  function RowResults(env: Env, job: Job, identity: Option<Identity>, fileData: seq<RawRow>, gen: (nat, nat) -> string, n: nat): (r: seq<Result<map<string, Value>>>)
    requires |job.delimiter| > 0 && n <= |fileData|
    ensures |r| == n
  {
    if n == 0 then [] else RowResults(env, job, identity, fileData, gen, n - 1) + [PrepareRow(env, job, identity, fileData, gen, n - 1)]
  }

  /**
   * Collects row outcomes in order: the first throw aborts the batch;
   * otherwise every row contributes what the action mode admits of it.
   */
  function Gather(action: string, results: seq<Result<map<string, Value>>>): Result<seq<map<string, Value>>>
    decreases |results|
  {
    if results == [] then Ok([])
    else
      match Gather(action, results[..|results| - 1])
      case Err(e) => Err(e)
      case Ok(acc) =>
        match results[|results| - 1]
        case Err(e) => Err(e)
        case Ok(p) => Ok(acc + Admit(action, p))
  }

  /** The prepared rows of the first `n` file rows, or the first error thrown. */
  function Prepared(env: Env, job: Job, identity: Option<Identity>, fileData: seq<RawRow>, gen: (nat, nat) -> string, n: nat): Result<seq<map<string, Value>>>
    requires |job.delimiter| > 0 && n <= |fileData|
  {
    Gather(job.action, RowResults(env, job, identity, fileData, gen, n))
  }

  /** The prepared rows of a whole batch. */
  function PreparedRows(env: Env, job: Job, fileData: seq<RawRow>, gen: (nat, nat) -> string): Result<seq<map<string, Value>>>
    requires |job.delimiter| > 0
  {
    Prepared(env, job, ExistingFor(env, job, fileData), fileData, gen, |fileData|)
  }

  lemma {:induction false} ConvertAllErrPersists(env: Env, entityType: string, items: seq<FieldMapping>, j: nat, row: RawRow, delimiter: string,
                                                gen: (nat, nat) -> string, rowIndex: nat, props: map<string, Value>)
    requires |delimiter| > 0 && j <= |items|
    requires ConvertAll(env, entityType, items[..j], row, delimiter, gen, rowIndex, props).Err?
    ensures ConvertAll(env, entityType, items, row, delimiter, gen, rowIndex, props)
         == ConvertAll(env, entityType, items[..j], row, delimiter, gen, rowIndex, props)
    decreases |items| - j
  {
    if j < |items| {
      assert items[..j + 1][..j] == items[..j];
      ConvertAllErrPersists(env, entityType, items, j + 1, row, delimiter, gen, rowIndex, props);
    } else {
      assert items[..j] == items;
    }
  }

  /** One more item converted: the next prefix applies its conversion, and a throw ends the whole row. */
  lemma ConvertAllStep(env: Env, entityType: string, items: seq<FieldMapping>, j: nat, row: RawRow, delimiter: string,
                       gen: (nat, nat) -> string, rowIndex: nat, props: map<string, Value>, before: map<string, Value>)
    requires |delimiter| > 0 && j < |items|
    requires ConvertAll(env, entityType, items[..j], row, delimiter, gen, rowIndex, props) == Ok(before)
    ensures var r := Apply(before, ConvertValue(env, entityType, items[j], row, delimiter, gen(rowIndex, j)));
      && ConvertAll(env, entityType, items[..j + 1], row, delimiter, gen, rowIndex, props) == r
      && (r.Err? ==> ConvertAll(env, entityType, items, row, delimiter, gen, rowIndex, props) == r)
  {
    assert items[..j + 1][..j] == items[..j];
    var r := Apply(before, ConvertValue(env, entityType, items[j], row, delimiter, gen(rowIndex, j)));
    if r.Err? {
      ConvertAllErrPersists(env, entityType, items, j + 1, row, delimiter, gen, rowIndex, props);
    }
  }

  /** Outcome `i` of a batch is the preparation of file row `i`. */
  lemma {:induction false} RowResultsAt(env: Env, job: Job, identity: Option<Identity>, fileData: seq<RawRow>, gen: (nat, nat) -> string, n: nat)
    requires |job.delimiter| > 0 && n <= |fileData|
    ensures forall i :: 0 <= i < n ==> RowResults(env, job, identity, fileData, gen, n)[i] == PrepareRow(env, job, identity, fileData, gen, i)
  {
    if n > 0 {
      var prev := RowResults(env, job, identity, fileData, gen, n - 1);
      RowResultsAt(env, job, identity, fileData, gen, n - 1);
      assert forall i :: 0 <= i < n - 1 ==> RowResults(env, job, identity, fileData, gen, n)[i] == prev[i];
    }
  }

  /** The outcomes of the first `m` rows are a prefix of those of the first `n`. */
  lemma {:induction false} RowResultsPrefix(env: Env, job: Job, identity: Option<Identity>, fileData: seq<RawRow>, gen: (nat, nat) -> string, n: nat, m: nat)
    requires |job.delimiter| > 0 && m <= n <= |fileData|
    ensures RowResults(env, job, identity, fileData, gen, n)[..m] == RowResults(env, job, identity, fileData, gen, m)
    decreases n
  {
    var r := RowResults(env, job, identity, fileData, gen, n);
    if m == n {
      assert r[..m] == r;
    } else {
      var prev := RowResults(env, job, identity, fileData, gen, n - 1);
      RowResultsPrefix(env, job, identity, fileData, gen, n - 1, m);
      assert r[..m] == prev[..m];
    }
  }

  /** Once a prefix of the outcomes has thrown, the whole batch ends with that error. */
  lemma {:induction false} GatherErrPersists(action: string, results: seq<Result<map<string, Value>>>, j: nat)
    requires j <= |results| && Gather(action, results[..j]).Err?
    ensures Gather(action, results) == Gather(action, results[..j])
    decreases |results| - j
  {
    if j < |results| {
      assert results[..j + 1][..j] == results[..j];
      GatherErrPersists(action, results, j + 1);
    } else {
      assert results[..j] == results;
    }
  }

  /** One more file row prepared: its admitted form is appended, and a throw ends the batch. */
  lemma PreparedStep(env: Env, job: Job, identity: Option<Identity>, fileData: seq<RawRow>, gen: (nat, nat) -> string, i: nat)
    requires |job.delimiter| > 0 && i < |fileData|
    requires Prepared(env, job, identity, fileData, gen, i).Ok?
    ensures var acc := Prepared(env, job, identity, fileData, gen, i).value;
      var r := PrepareRow(env, job, identity, fileData, gen, i);
      && (r.Ok? ==> Prepared(env, job, identity, fileData, gen, i + 1) == Ok(acc + Admit(job.action, r.value)))
      && (r.Err? ==> Prepared(env, job, identity, fileData, gen, |fileData|) == Err(r.error))
  {
    var results := RowResults(env, job, identity, fileData, gen, i + 1);
    assert results[..i] == RowResults(env, job, identity, fileData, gen, i);
    if PrepareRow(env, job, identity, fileData, gen, i).Err? {
      RowResultsPrefix(env, job, identity, fileData, gen, |fileData|, i + 1);
      GatherErrPersists(job.action, RowResults(env, job, identity, fileData, gen, |fileData|), i + 1);
    }
  }

  // ---------------------------------------------------------------- properties of preparation

  /** Converting `items` leaves every property that none of them writes as it was. */
  lemma {:induction false} ConvertAllKeepsOthers(env: Env, entityType: string, items: seq<FieldMapping>, row: RawRow, delimiter: string,
                                                gen: (nat, nat) -> string, rowIndex: nat, props: map<string, Value>, key: string)
    requires |delimiter| > 0 && key in props
    requires forall i :: 0 <= i < |items| ==> KeyOf(env, entityType, items[i]) != key
    ensures var r := ConvertAll(env, entityType, items, row, delimiter, gen, rowIndex, props);
      r.Ok? ==> key in r.value && r.value[key] == props[key]
    decreases |items|
  {
    if items != [] {
      var init := items[..|items| - 1];
      assert forall i :: 0 <= i < |init| ==> init[i] == items[i];
      ConvertAllKeepsOthers(env, entityType, init, row, delimiter, gen, rowIndex, props, key);
      ConvertValueDispatch(env, entityType, items[|items| - 1], row, delimiter, gen(rowIndex, |items| - 1), "");
    }
  }

  /** No configured item writes the bookkeeping properties `_id` or `_fileRow`. */
  predicate NoReserved(env: Env, job: Job) {
    forall i :: 0 <= i < |job.configuration| ==>
      KeyOf(env, job.entity, job.configuration[i]) != IdKey && KeyOf(env, job.entity, job.configuration[i]) != FileRowKey
  }

  /** A converted row keeps its number and existing id unless an item overwrites them. */
  lemma PrepareRowBookkeeping(env: Env, job: Job, identity: Option<Identity>, fileData: seq<RawRow>, gen: (nat, nat) -> string, i: nat)
    requires |job.delimiter| > 0 && i < |fileData| && NoReserved(env, job)
    ensures var r := PrepareRow(env, job, identity, fileData, gen, i);
      r.Ok? ==> Prop(r.value, FileRowKey) == Int(job.offset + i + 1) && Prop(r.value, IdKey) == IdOf(identity, fileData[i])
  {
    var initial := InitialProps(job.offset + i + 1, IdOf(identity, fileData[i]));
    ConvertAllKeepsOthers(env, job.entity, job.configuration, fileData[i], job.delimiter, gen, i, initial, FileRowKey);
    ConvertAllKeepsOthers(env, job.entity, job.configuration, fileData[i], job.delimiter, gen, i, initial, IdKey);
  }

  /** Whether the action mode keeps a row whose existing id is `id`. */
  predicate Admits(action: string, id: Value) {
    action == CreateAction || action == CreateUpdateAction || (action == UpdateAction && !Empty(id))
  }

  /** The form in which a kept row is prepared: create mode clears its id. */
  function Finish(action: string, p: map<string, Value>): map<string, Value> {
    if action == CreateAction then p[IdKey := Null] else p
  }

  /** The three checks of the action filter amount to: keep the row once, in its finished form, exactly when the mode admits it. */
  lemma AdmitShape(action: string, p: map<string, Value>)
    ensures Admit(action, p) == if Admits(action, Prop(p, IdKey)) then [Finish(action, p)] else []
  {
  }

  /** The indices of the row outcomes the action mode keeps, in order: converted rows whose `_id` the mode admits. */
  function Kept(action: string, results: seq<Result<map<string, Value>>>): (r: seq<nat>)
    ensures forall k :: 0 <= k < |r| ==> r[k] < |results|
    decreases |results|
  {
    if results == [] then []
    else
      var n := |results| - 1;
      Kept(action, results[..n]) + (if results[n].Ok? && Admits(action, Prop(results[n].value, IdKey)) then [n] else [])
  }

  /**
   * The kept indices are strictly increasing, and an index is kept exactly
   * when that row converted and the mode admits its `_id`.
   */
  lemma {:induction false} KeptIndices(action: string, results: seq<Result<map<string, Value>>>)
    ensures forall j, k :: 0 <= j < k < |Kept(action, results)| ==> Kept(action, results)[j] < Kept(action, results)[k]
    ensures forall k :: 0 <= k < |Kept(action, results)| ==>
      results[Kept(action, results)[k]].Ok? && Admits(action, Prop(results[Kept(action, results)[k]].value, IdKey))
    ensures forall i :: 0 <= i < |results| && results[i].Ok? && Admits(action, Prop(results[i].value, IdKey)) ==>
      i in Kept(action, results)
    decreases |results|
  {
    if results != [] {
      var n := |results| - 1;
      var init := results[..n];
      KeptIndices(action, init);
      var prev := Kept(action, init);
      var kept := Kept(action, results);
      assert kept == prev + (if results[n].Ok? && Admits(action, Prop(results[n].value, IdKey)) then [n] else []);
      forall k | 0 <= k < |kept| ensures results[kept[k]].Ok? && Admits(action, Prop(results[kept[k]].value, IdKey)) {
        if k < |prev| {
          assert kept[k] == prev[k] && init[prev[k]] == results[prev[k]];
        }
      }
      forall i | 0 <= i < |results| && results[i].Ok? && Admits(action, Prop(results[i].value, IdKey)) ensures i in kept {
        if i < n {
          assert init[i] == results[i];
          assert i in prev;
        }
      }
    }
  }

  /** In create and create_update mode every converted row is kept. */
  lemma {:induction false} KeptEveryRow(action: string, results: seq<Result<map<string, Value>>>)
    requires action == CreateAction || action == CreateUpdateAction
    requires forall i :: 0 <= i < |results| ==> results[i].Ok?
    ensures |Kept(action, results)| == |results|
    ensures forall k :: 0 <= k < |results| ==> Kept(action, results)[k] == k
    decreases |results|
  {
    if results != [] {
      var n := |results| - 1;
      var init := results[..n];
      assert forall i :: 0 <= i < n ==> init[i] == results[i];
      KeptEveryRow(action, init);
    }
  }

  /** When the mode admits no converted row, nothing is kept. */
  lemma {:induction false} KeptNothing(action: string, results: seq<Result<map<string, Value>>>)
    requires forall i :: 0 <= i < |results| && results[i].Ok? ==> !Admits(action, Prop(results[i].value, IdKey))
    ensures Kept(action, results) == []
    decreases |results|
  {
    if results != [] {
      var n := |results| - 1;
      var init := results[..n];
      assert forall i :: 0 <= i < n ==> init[i] == results[i];
      KeptNothing(action, init);
    }
  }

  /**
   * A batch gathered without a throw had every row convert, and consists of
   * the kept rows, finished, in order.
   */
  lemma {:induction false} GatherFollowsKept(action: string, results: seq<Result<map<string, Value>>>)
    ensures Gather(action, results).Ok? ==>
      && (forall i :: 0 <= i < |results| ==> results[i].Ok?)
      && |Gather(action, results).value| == |Kept(action, results)|
      && (forall k :: 0 <= k < |Kept(action, results)| ==>
            Gather(action, results).value[k] == Finish(action, results[Kept(action, results)[k]].value))
    decreases |results|
  {
    if results != [] && Gather(action, results).Ok? {
      var n := |results| - 1;
      var init := results[..n];
      GatherFollowsKept(action, init);
      var acc := Gather(action, init).value;
      var p := results[n].value;
      var prev := Kept(action, init);
      var kept := Kept(action, results);
      var ps := Gather(action, results).value;
      AdmitShape(action, p);
      assert ps == acc + Admit(action, p);
      assert kept == prev + (if Admits(action, Prop(p, IdKey)) then [n] else []);
      forall i | 0 <= i < |results| ensures results[i].Ok? {
        if i < n {
          assert init[i] == results[i];
        }
      }
      forall k | 0 <= k < |kept| ensures ps[k] == Finish(action, results[kept[k]].value) {
        if k < |prev| {
          assert ps[k] == acc[k] && kept[k] == prev[k] && init[prev[k]] == results[prev[k]];
        }
      }
    }
  }

  /** An action other than create, update and create_update gathers nothing. */
  lemma {:induction false} OtherActionKeepsNothing(action: string, results: seq<Result<map<string, Value>>>)
    requires action != CreateAction && action != UpdateAction && action != CreateUpdateAction
    ensures Gather(action, results).Ok? ==> Gather(action, results).value == []
    decreases |results|
  {
    if results != [] {
      OtherActionKeepsNothing(action, results[..|results| - 1]);
    }
  }

  /** Every converted row of a batch keeps its number offset+i+1 and its existing id. */
  lemma RowResultsBookkeeping(env: Env, job: Job, identity: Option<Identity>, fileData: seq<RawRow>, gen: (nat, nat) -> string)
    requires |job.delimiter| > 0 && NoReserved(env, job)
    ensures forall i :: 0 <= i < |fileData| && RowResults(env, job, identity, fileData, gen, |fileData|)[i].Ok? ==>
      && Prop(RowResults(env, job, identity, fileData, gen, |fileData|)[i].value, FileRowKey) == Int(job.offset + i + 1)
      && Prop(RowResults(env, job, identity, fileData, gen, |fileData|)[i].value, IdKey) == IdOf(identity, fileData[i])
  {
    RowResultsAt(env, job, identity, fileData, gen, |fileData|);
    forall i | 0 <= i < |fileData|
      ensures var r := PrepareRow(env, job, identity, fileData, gen, i);
        r.Ok? ==> Prop(r.value, FileRowKey) == Int(job.offset + i + 1) && Prop(r.value, IdKey) == IdOf(identity, fileData[i])
    {
      PrepareRowBookkeeping(env, job, identity, fileData, gen, i);
    }
  }

  /**
   * The prepared rows of a batch are exactly the kept file rows, converted
   * and finished, in file order.
   */
  lemma PreparedFollowsKept(env: Env, job: Job, identity: Option<Identity>, fileData: seq<RawRow>, gen: (nat, nat) -> string)
    requires |job.delimiter| > 0
    ensures var r := Prepared(env, job, identity, fileData, gen, |fileData|);
      var kept := Kept(job.action, RowResults(env, job, identity, fileData, gen, |fileData|));
      r.Ok? ==> (|r.value| == |kept| &&
        forall k :: 0 <= k < |kept| ==>
          PrepareRow(env, job, identity, fileData, gen, kept[k]).Ok? &&
          r.value[k] == Finish(job.action, PrepareRow(env, job, identity, fileData, gen, kept[k]).value))
  {
    var results := RowResults(env, job, identity, fileData, gen, |fileData|);
    GatherFollowsKept(job.action, results);
    RowResultsAt(env, job, identity, fileData, gen, |fileData|);
  }

  /** The number of a prepared row. */
  function FileRowOf(p: map<string, Value>): int {
    var v := Prop(p, FileRowKey);
    if v.Int? then v.i else 0
  }

  /** Each prepared row carries the number offset+i+1 of the file row i it came from. */
  lemma PreparedRowNumbers(env: Env, job: Job, identity: Option<Identity>, fileData: seq<RawRow>, gen: (nat, nat) -> string)
    requires |job.delimiter| > 0 && NoReserved(env, job)
    ensures var r := Prepared(env, job, identity, fileData, gen, |fileData|);
      var kept := Kept(job.action, RowResults(env, job, identity, fileData, gen, |fileData|));
      r.Ok? ==> (|r.value| == |kept| &&
        forall k :: 0 <= k < |kept| ==> Prop(r.value[k], FileRowKey) == Int(job.offset + kept[k] + 1))
  {
    var results := RowResults(env, job, identity, fileData, gen, |fileData|);
    GatherFollowsKept(job.action, results);
    RowResultsBookkeeping(env, job, identity, fileData, gen);
  }

  /** Prepared rows are numbered in strictly increasing order. */
  lemma PreparedNumbering(env: Env, job: Job, identity: Option<Identity>, fileData: seq<RawRow>, gen: (nat, nat) -> string)
    requires |job.delimiter| > 0 && NoReserved(env, job)
    ensures var r := Prepared(env, job, identity, fileData, gen, |fileData|);
      r.Ok? ==> forall j, k :: 0 <= j < k < |r.value| ==> FileRowOf(r.value[j]) < FileRowOf(r.value[k])
  {
    PreparedRowNumbers(env, job, identity, fileData, gen);
    KeptIndices(job.action, RowResults(env, job, identity, fileData, gen, |fileData|));
  }

  /** In create mode every file row is prepared, in order, with its id cleared. */
  lemma CreateModeKeepsEveryRow(env: Env, job: Job, identity: Option<Identity>, fileData: seq<RawRow>, gen: (nat, nat) -> string)
    requires |job.delimiter| > 0 && NoReserved(env, job) && job.action == CreateAction
    ensures var r := Prepared(env, job, identity, fileData, gen, |fileData|);
      r.Ok? ==> (|r.value| == |fileData| &&
        forall k :: 0 <= k < |fileData| ==> Prop(r.value[k], IdKey) == Null && Prop(r.value[k], FileRowKey) == Int(job.offset + k + 1))
  {
    var results := RowResults(env, job, identity, fileData, gen, |fileData|);
    var r := Gather(job.action, results);
    GatherFollowsKept(job.action, results);
    if r.Ok? {
      KeptEveryRow(job.action, results);
      RowResultsBookkeeping(env, job, identity, fileData, gen);
      var kept := Kept(job.action, results);
      forall k | 0 <= k < |fileData|
        ensures Prop(r.value[k], IdKey) == Null && Prop(r.value[k], FileRowKey) == Int(job.offset + k + 1)
      {
        assert kept[k] == k && r.value[k] == results[k].value[IdKey := Null];
      }
    }
  }

  /** In create_update mode every file row is prepared, in order, with the existing id or null. */
  lemma CreateUpdateModeKeepsEveryRow(env: Env, job: Job, identity: Option<Identity>, fileData: seq<RawRow>, gen: (nat, nat) -> string)
    requires |job.delimiter| > 0 && NoReserved(env, job) && job.action == CreateUpdateAction
    ensures var r := Prepared(env, job, identity, fileData, gen, |fileData|);
      r.Ok? ==> (|r.value| == |fileData| &&
        forall k :: 0 <= k < |fileData| ==> Prop(r.value[k], IdKey) == IdOf(identity, fileData[k]) && Prop(r.value[k], FileRowKey) == Int(job.offset + k + 1))
  {
    var results := RowResults(env, job, identity, fileData, gen, |fileData|);
    var r := Gather(job.action, results);
    GatherFollowsKept(job.action, results);
    if r.Ok? {
      KeptEveryRow(job.action, results);
      RowResultsBookkeeping(env, job, identity, fileData, gen);
      var kept := Kept(job.action, results);
      forall k | 0 <= k < |fileData|
        ensures Prop(r.value[k], IdKey) == IdOf(identity, fileData[k]) && Prop(r.value[k], FileRowKey) == Int(job.offset + k + 1)
      {
        assert kept[k] == k && r.value[k] == results[k].value;
      }
    }
  }

  /**
   * In update mode exactly the rows whose identity value has an existing
   * record are prepared, each carrying that record's (non-empty) id.
   */
  lemma UpdateModeKeepsMatchedRows(env: Env, job: Job, identity: Option<Identity>, fileData: seq<RawRow>, gen: (nat, nat) -> string)
    requires |job.delimiter| > 0 && NoReserved(env, job) && job.action == UpdateAction
    ensures var r := Prepared(env, job, identity, fileData, gen, |fileData|);
      var kept := Kept(job.action, RowResults(env, job, identity, fileData, gen, |fileData|));
      r.Ok? ==>
        && |r.value| == |kept|
        && (forall k :: 0 <= k < |kept| ==>
              Prop(r.value[k], IdKey) == IdOf(identity, fileData[kept[k]]) && !Empty(Prop(r.value[k], IdKey)))
        && (forall i :: 0 <= i < |fileData| && !Empty(IdOf(identity, fileData[i])) ==> i in kept)
  {
    var results := RowResults(env, job, identity, fileData, gen, |fileData|);
    GatherFollowsKept(job.action, results);
    KeptIndices(job.action, results);
    RowResultsBookkeeping(env, job, identity, fileData, gen);
  }

  /** Without an identity item every existing id is null, so update mode prepares nothing. */
  lemma NoIdentityUpdateKeepsNothing(env: Env, job: Job, fileData: seq<RawRow>, gen: (nat, nat) -> string)
    requires |job.delimiter| > 0 && NoReserved(env, job) && job.action == UpdateAction
    requires IdRow(job.configuration, job.idField).None?
    ensures PreparedRows(env, job, fileData, gen).Ok? ==> PreparedRows(env, job, fileData, gen).value == []
  {
    var results := RowResults(env, job, None, fileData, gen, |fileData|);
    RowResultsBookkeeping(env, job, None, fileData, gen);
    KeptNothing(job.action, results);
    GatherFollowsKept(job.action, results);
  }

  /** The input rows as values. */
  function PropsOf(rows: seq<InputRow>): (r: seq<map<string, Value>>)
    reads rows
    ensures |r| == |rows| && forall k :: 0 <= k < |rows| ==> r[k] == rows[k].props
  {
    if rows == [] then [] else PropsOf(rows[..|rows| - 1]) + [rows[|rows| - 1].props]
  }

  /**
   * Creates the input row for file row `i` (numbered `fileRow`) and converts
   * every configured item onto it, in configuration order.
   */
  method ConvertRow(env: Env, job: Job, identity: Option<Identity>, fileData: seq<RawRow>, gen: (nat, nat) -> string, i: nat, fileRow: int)
    returns (o: Outcome, inputRow: InputRow)
    requires |job.delimiter| > 0 && i < |fileData| && fileRow == job.offset + i + 1
    ensures fresh(inputRow)
    ensures var r := PrepareRow(env, job, identity, fileData, gen, i);
      && (r.Ok? ==> o == Pass && inputRow.props == r.value)
      && (r.Err? ==> o == Fail(r.error))
  {
    var row := fileData[i];
    var initial := InitialProps(fileRow, IdOf(identity, row));
    inputRow := new InputRow(initial);
    for j := 0 to |job.configuration|
      invariant ConvertAll(env, job.entity, job.configuration[..j], row, job.delimiter, gen, i, initial) == Ok(inputRow.props)
    {
      ConvertAllStep(env, job.entity, job.configuration, j, row, job.delimiter, gen, i, initial, inputRow.props);
      o := ConvertItem(inputRow, env, job.entity, job.configuration[j], row, job.delimiter, gen(i, j));
      if o.Fail? {
        return;
      }
    }
    assert job.configuration[..|job.configuration|] == job.configuration;
    o := Pass;
  }

  /** No input row occurs twice. */
  predicate Distinct(rows: seq<InputRow>) {
    forall j, k :: 0 <= j < k < |rows| ==> rows[j] != rows[k]
  }

  /** The action filter: appends the converted row when the mode admits it, clearing its id in create mode. */
  method Push(rows: seq<InputRow>, inputRow: InputRow, action: string) returns (result: seq<InputRow>)
    requires inputRow !in rows
    modifies inputRow
    ensures PropsOf(result) == PropsOf(rows) + Admit(action, old(inputRow.props))
    ensures forall r :: r in result ==> r in rows || r == inputRow
    ensures Distinct(rows) ==> Distinct(result)
  {
    result := rows;
    if action == CreateAction {
      inputRow.props := inputRow.props[IdKey := Null];
      result := result + [inputRow];
    }
    if action == UpdateAction && !Empty(Prop(inputRow.props, IdKey)) {
      result := result + [inputRow];
    }
    if action == CreateUpdateAction {
      result := result + [inputRow];
    }
  }

  /** Finds the identity item and, when there is one, the existing records of the batch. */
  method FindIdentity(env: Env, job: Job, fileData: seq<RawRow>) returns (identity: Option<Identity>)
    ensures identity == ExistingFor(env, job, fileData)
  {
    identity := None;
    var idRow := GetIdRow(job.configuration, job.idField);
    if idRow.Some? {
      var column := ColumnKey(idRow.value.column);
      var existing := GetExists(env, job.entity, idRow.value.name, ArrayColumn(fileData, column));
      identity := Some(Identity(column, existing));
    }
  }

  /**
   * Prepares file row `i` (numbered `fileRow`) and appends it to `rows` when
   * the action mode admits it; a throw is reported as the batch's error.
   */
  method PrepareNext(env: Env, job: Job, identity: Option<Identity>, fileData: seq<RawRow>, gen: (nat, nat) -> string,
                     i: nat, fileRow: int, rows: seq<InputRow>)
    returns (o: Outcome, result: seq<InputRow>)
    requires |job.delimiter| > 0 && i < |fileData| && fileRow == job.offset + i + 1
    requires Prepared(env, job, identity, fileData, gen, i).Ok?
    requires PropsOf(rows) == Prepared(env, job, identity, fileData, gen, i).value
    requires Distinct(rows)
    ensures o.Fail? ==> Prepared(env, job, identity, fileData, gen, |fileData|) == Err(o.error)
    ensures o.Pass? ==>
      && Prepared(env, job, identity, fileData, gen, i + 1).Ok?
      && PropsOf(result) == Prepared(env, job, identity, fileData, gen, i + 1).value
    ensures forall r :: r in result ==> r in rows || fresh(r)
    ensures Distinct(result)
  {
    ghost var r := PrepareRow(env, job, identity, fileData, gen, i);
    ghost var acc := Prepared(env, job, identity, fileData, gen, i).value;
    PreparedStep(env, job, identity, fileData, gen, i);
    var inputRow;
    o, inputRow := ConvertRow(env, job, identity, fileData, gen, i, fileRow);
    if o.Fail? {
      assert r.Err?;
      return o, rows;
    }
    assert r.Ok? && inputRow.props == r.value;
    result := Push(rows, inputRow, job.action);
    assert PropsOf(result) == acc + Admit(job.action, r.value);
  }

  /**
   * Builds the input rows of a batch: numbers them from offset+1, attaches
   * the existing id, converts every configured item onto each, and keeps the
   * rows the action mode admits, in file order. A throw aborts the batch.
   */
  method PrepareRows(env: Env, fileData: seq<RawRow>, job: Job, gen: (nat, nat) -> string) returns (res: Outcome, rows: seq<InputRow>)
    requires |job.delimiter| > 0
    ensures var spec := PreparedRows(env, job, fileData, gen);
      && (spec.Err? ==> res == Fail(spec.error))
      && (spec.Ok? ==> res == Pass && PropsOf(rows) == spec.value)
    ensures forall r :: r in rows ==> fresh(r)
    ensures Distinct(rows)
  {
    var identity := FindIdentity(env, job, fileData);
    rows := [];
    var fileRow := job.offset;
    for i := 0 to |fileData|
      invariant fileRow == job.offset + i
      invariant Prepared(env, job, identity, fileData, gen, i).Ok?
      invariant PropsOf(rows) == Prepared(env, job, identity, fileData, gen, i).value
      invariant forall r :: r in rows ==> fresh(r)
      invariant Distinct(rows)
    {
      fileRow := fileRow + 1;
      var o;
      o, rows := PrepareNext(env, job, identity, fileData, gen, i, fileRow, rows);
      if o.Fail? {
        return o, rows;
      }
    }
    res := Pass;
  }

  // ---------------------------------------------------------------- applying rows

  /** What the service is asked to do with one row: create it, or update the record with id `id`. */
  datatype Request = Create(data: map<string, Value>) | Update(id: Value, data: map<string, Value>)

  /**
   * How one row's transaction ended: the service returned an entity and the
   * commit succeeded; the create/update call threw; or the call returned an
   * entity and the commit threw afterwards.
   */
  datatype TxOutcome = Committed(entityId: string) | PersistFailed(message: string) | CommitFailed(entityId: string, message: string)

  /** The request for a prepared row: its fields without `_id` and `_fileRow`; create exactly when the id is empty. */
  function RequestOf(p: map<string, Value>): Request {
    var id := Prop(p, IdKey);
    var data := p - {IdKey, FileRowKey};
    if Empty(id) then Create(data) else Update(id, data)
  }

  /** The action a row's success log names. */
  function ActionOf(p: map<string, Value>): string {
    if Empty(Prop(p, IdKey)) then CreateAction else UpdateAction
  }

  /** The requests of the prepared rows, in order. */
  function Requests(ps: seq<map<string, Value>>): (r: seq<Request>)
    ensures |r| == |ps|
    ensures forall k :: 0 <= k < |ps| ==> r[k] == RequestOf(ps[k])
  {
    if ps == [] then [] else Requests(ps[..|ps| - 1]) + [RequestOf(ps[|ps| - 1])]
  }

  /**
   * The logs one row writes: an error log when its transaction was rolled
   * back, and a success log whenever the service returned an entity.
   */
  function RowLogs(job: Job, p: map<string, Value>, o: TxOutcome): seq<LogRecord> {
    var fileRow := ToPhpString(Prop(p, FileRowKey));
    match o
    case Committed(id) => [Log(job.entity, job.importResultId, ActionOf(p), fileRow, id)]
    case PersistFailed(msg) => [Log(job.entity, job.importResultId, ErrorType, fileRow, msg)]
    case CommitFailed(id, msg) =>
      [Log(job.entity, job.importResultId, ErrorType, fileRow, msg), Log(job.entity, job.importResultId, ActionOf(p), fileRow, id)]
  }

  /** The logs of the first `n` prepared rows; the service's answer to row `k` is `service(k, request)`. */
  function RunLogs(job: Job, ps: seq<map<string, Value>>, service: (nat, Request) -> TxOutcome, n: nat): (r: seq<LogRecord>)
    requires n <= |ps|
    ensures ErrorLogs(r) == RolledBack(ps, service, n)
    ensures |r| - ErrorLogs(r) == Returned(ps, service, n)
    ensures n <= |r| <= 2 * n
  {
    if n == 0 then []
    else
      var prev := RunLogs(job, ps, service, n - 1);
      var row := RowLogs(job, ps[n - 1], service(n - 1, RequestOf(ps[n - 1])));
      ErrorLogsAppend(prev, row);
      RowLogsCounts(job, ps[n - 1], service(n - 1, RequestOf(ps[n - 1])));
      prev + row
  }

  /**
   * A request carries every field of its row except `_id` and `_fileRow`; it
   * creates exactly when the row's id is empty and otherwise updates the
   * record with that id; the success log names the same action.
   */
  lemma RequestOfShape(p: map<string, Value>)
    ensures IdKey !in RequestOf(p).data && FileRowKey !in RequestOf(p).data
    ensures forall key :: key in p && key != IdKey && key != FileRowKey ==> key in RequestOf(p).data && RequestOf(p).data[key] == p[key]
    ensures RequestOf(p).Create? <==> Empty(Prop(p, IdKey))
    ensures RequestOf(p).Update? ==> RequestOf(p).id == Prop(p, IdKey)
    ensures ActionOf(p) == if RequestOf(p).Create? then CreateAction else UpdateAction
  {
  }

  /**
   * One row writes an error log exactly when its transaction was rolled back
   * and a success log, naming the returned entity, exactly when the service
   * returned one; the error log comes first; every log carries the row's number.
   */
  lemma RowLogsCases(job: Job, p: map<string, Value>, o: TxOutcome)
    ensures var logs := RowLogs(job, p, o);
      && |logs| == (if o.CommitFailed? then 2 else 1)
      && (logs[0].kind == ErrorType <==> !o.Committed?)
      && (!o.Committed? ==> logs[0].message == Some(o.message) && logs[0].entityId == None)
      && (!o.PersistFailed? ==>
            logs[|logs| - 1].kind == ActionOf(p) && logs[|logs| - 1].entityId == Some(o.entityId) && logs[|logs| - 1].message == None)
      && (forall k :: 0 <= k < |logs| ==>
            logs[k].rowNumber == ToPhpString(Prop(p, FileRowKey)) && logs[k].entityName == job.entity && logs[k].importResultId == job.importResultId)
  {
  }

  /** The number of error logs. */
  function ErrorLogs(logs: seq<LogRecord>): nat {
    if logs == [] then 0 else ErrorLogs(logs[..|logs| - 1]) + (if logs[|logs| - 1].kind == ErrorType then 1 else 0)
  }

  lemma {:induction false} ErrorLogsAppend(a: seq<LogRecord>, b: seq<LogRecord>)
    ensures ErrorLogs(a + b) == ErrorLogs(a) + ErrorLogs(b)
    decreases |b|
  {
    if b == [] {
      assert a + b == a;
    } else {
      assert (a + b)[..|a + b| - 1] == a + b[..|b| - 1];
      assert (a + b)[|a + b| - 1] == b[|b| - 1];
      ErrorLogsAppend(a, b[..|b| - 1]);
    }
  }

  /** How many of the first `n` rows had their transaction rolled back. */
  function RolledBack(ps: seq<map<string, Value>>, service: (nat, Request) -> TxOutcome, n: nat): nat
    requires n <= |ps|
  {
    if n == 0 then 0 else RolledBack(ps, service, n - 1) + (if service(n - 1, RequestOf(ps[n - 1])).Committed? then 0 else 1)
  }

  /** How many of the first `n` rows got an entity back from the service. */
  function Returned(ps: seq<map<string, Value>>, service: (nat, Request) -> TxOutcome, n: nat): nat
    requires n <= |ps|
  {
    if n == 0 then 0 else Returned(ps, service, n - 1) + (if service(n - 1, RequestOf(ps[n - 1])).PersistFailed? then 0 else 1)
  }

  /** One row writes one error log when rolled back and one success log when an entity came back. */
  lemma RowLogsCounts(job: Job, p: map<string, Value>, o: TxOutcome)
    ensures ErrorLogs(RowLogs(job, p, o)) == (if o.Committed? then 0 else 1)
    ensures |RowLogs(job, p, o)| - ErrorLogs(RowLogs(job, p, o)) == (if o.PersistFailed? then 0 else 1)
  {
    var row := RowLogs(job, p, o);
    assert ActionOf(p) != ErrorType;
    assert row[..0] == [];
    if o.CommitFailed? {
      assert row[..1] == [row[0]];
      assert ErrorLogs([row[0]]) == 1;
      assert row[1].kind == ActionOf(p);
    }
  }

  /** Two rows with different integer numbers print different numbers. */
  lemma NumberStringsDiffer(p: map<string, Value>, q: map<string, Value>)
    requires Prop(p, FileRowKey).Int? && Prop(q, FileRowKey).Int? && FileRowOf(p) != FileRowOf(q)
    ensures ToPhpString(Prop(p, FileRowKey)) != ToPhpString(Prop(q, FileRowKey))
  {
    IntToStringInjective(FileRowOf(p), FileRowOf(q));
  }

  /**
   * The prepared rows of a batch carry distinct numbers, so the logs of
   * different rows never name the same row.
   */
  lemma PreparedRowNumbersDistinct(env: Env, job: Job, identity: Option<Identity>, fileData: seq<RawRow>, gen: (nat, nat) -> string)
    requires |job.delimiter| > 0 && NoReserved(env, job)
    ensures var r := Prepared(env, job, identity, fileData, gen, |fileData|);
      r.Ok? ==> forall j, k :: 0 <= j < k < |r.value| ==>
        ToPhpString(Prop(r.value[j], FileRowKey)) != ToPhpString(Prop(r.value[k], FileRowKey))
  {
    var r := Prepared(env, job, identity, fileData, gen, |fileData|);
    PreparedRowNumbers(env, job, identity, fileData, gen);
    PreparedNumbering(env, job, identity, fileData, gen);
    if r.Ok? {
      var ps := r.value;
      assert forall k :: 0 <= k < |ps| ==> Prop(ps[k], FileRowKey).Int?;
      assert forall j, k :: 0 <= j < k < |ps| ==> FileRowOf(ps[j]) < FileRowOf(ps[k]);
      forall j, k | 0 <= j < k < |ps|
        ensures ToPhpString(Prop(ps[j], FileRowKey)) != ToPhpString(Prop(ps[k], FileRowKey))
      {
        NumberStringsDiffer(ps[j], ps[k]);
      }
    }
  }

  /** One more row applied: its request and its logs are appended to those of the rows before it. */
  lemma RunStep(job: Job, ps: seq<map<string, Value>>, service: (nat, Request) -> TxOutcome, k: nat,
                requests: seq<Request>, logs: seq<LogRecord>, request: Request, rowLogs: seq<LogRecord>)
    requires k < |ps| && requests == Requests(ps[..k]) && logs == RunLogs(job, ps, service, k)
    requires request == RequestOf(ps[k]) && rowLogs == RowLogs(job, ps[k], service(k, request))
    ensures requests + [request] == Requests(ps[..k + 1])
    ensures logs + rowLogs == RunLogs(job, ps, service, k + 1)
  {
    assert ps[..k + 1][..k] == ps[..k];
  }

  /**
   * Applies one prepared row: strips `_id` and `_fileRow`, sends the create or
   * update request (the `k`-th of the batch) inside a transaction, and
   * returns the request and the logs written for it.
   */
  method ApplyRow(input: InputRow, k: nat, job: Job, service: (nat, Request) -> TxOutcome)
    returns (request: Request, logs: seq<LogRecord>)
    modifies input
    ensures input.props == old(input.props) - {IdKey, FileRowKey}
    ensures request == RequestOf(old(input.props))
    ensures logs == RowLogs(job, old(input.props), service(k, request))
  {
    var id := Prop(input.props, IdKey);
    input.props := input.props - {IdKey};
    var fileRow := ToPhpString(Prop(input.props, FileRowKey));
    input.props := input.props - {FileRowKey};
    var action := if Empty(id) then CreateAction else UpdateAction;

    request := if Empty(id) then Create(input.props) else Update(id, input.props);
    var outcome := service(k, request);

    logs := [];
    var entity: Option<string> := None;
    match outcome {
      case Committed(entityId) =>
        entity := Some(entityId);
      case PersistFailed(message) =>
        logs := logs + [Log(job.entity, job.importResultId, ErrorType, fileRow, message)];
      case CommitFailed(entityId, message) =>
        entity := Some(entityId);
        logs := logs + [Log(job.entity, job.importResultId, ErrorType, fileRow, message)];
    }
    if entity.Some? {
      logs := logs + [Log(job.entity, job.importResultId, action, fileRow, entity.value)];
    }
  }

  /**
   * Imports one batch: prepares the rows, then for each row strips `_id` and
   * `_fileRow`, asks the service to create or update it inside its own
   * transaction, and logs the outcome. Returns true whenever preparation did
   * not throw; a throw during preparation escapes before any row is applied.
   */
  method Run(env: Env, fileData: seq<RawRow>, job: Job, gen: (nat, nat) -> string, service: (nat, Request) -> TxOutcome)
    returns (res: Result<bool>, logs: seq<LogRecord>, requests: seq<Request>)
    requires |job.delimiter| > 0
    ensures var spec := PreparedRows(env, job, fileData, gen);
      && (spec.Err? ==> res == Err(spec.error) && logs == [] && requests == [])
      && (spec.Ok? ==> res == Ok(true) && requests == Requests(spec.value) && logs == RunLogs(job, spec.value, service, |spec.value|))
      && (spec == Ok([]) ==> logs == [] && requests == [])
  {
    logs, requests := [], [];
    var prepared, rows := PrepareRows(env, fileData, job, gen);
    if prepared.Fail? {
      return Err(prepared.error), logs, requests;
    }
    if |rows| == 0 {
      return Ok(true), logs, requests;
    }

    ghost var ps := PropsOf(rows);
    for k := 0 to |rows|
      invariant forall r :: r in rows ==> fresh(r)
      invariant forall m :: k <= m < |rows| ==> rows[m].props == ps[m]
      invariant requests == Requests(ps[..k])
      invariant logs == RunLogs(job, ps, service, k)
    {
      var input := rows[k];
      assert input in rows;
      assert forall m :: k < m < |rows| ==> rows[m] != input by {
        assert Distinct(rows);
      }
      var request, rowLogs := ApplyRow(input, k, job, service);
      RunStep(job, ps, service, k, requests, logs, request, rowLogs);
      requests := requests + [request];
      logs := logs + rowLogs;
    }
    assert ps[..|rows|] == ps;
    res := Ok(true);
  }
}
