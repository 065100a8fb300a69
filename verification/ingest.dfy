/** The loader: every parsed task record becomes one `add` to the store, in list
    order. A record that lacks a field raises a KeyError half-way through the
    list, after the records before it have already been stored. */
module Ingest {
  import opened Wrappers
  import opened TaskStore

  /** A parsed JSON task object: field name to string value. */
  type Record = map<string, string>

  const IdField := "id"
  const DescriptionField := "description"
  const GoalField := "goal"
  const ActionField := "action"
  const ParametersField := "parameters"

  /** The fields the loader reads, in the order Python evaluates them. */
  const Fields := [IdField, DescriptionField, GoalField, ActionField, ParametersField]

  predicate WellFormed(rec: Record)
  {
    && IdField in rec && DescriptionField in rec && GoalField in rec
    && ActionField in rec && ParametersField in rec
  }

  predicate AllWellFormed(records: seq<Record>)
  {
    forall i :: 0 <= i < |records| ==> WellFormed(records[i])
  }

  /** The field whose lookup raises KeyError first, if any. */
  function MissingField(rec: Record): (r: Option<string>)
    ensures r.None? <==> WellFormed(rec)
    ensures r.Some? ==> r.value in Fields && r.value !in rec
    ensures forall i :: 0 <= i < |Fields| && r == Some(Fields[i]) ==>
              forall j :: 0 <= j < i ==> Fields[j] in rec
  {
    if IdField !in rec then Some(IdField)
    else if DescriptionField !in rec then Some(DescriptionField)
    else if GoalField !in rec then Some(GoalField)
    else if ActionField !in rec then Some(ActionField)
    else if ParametersField !in rec then Some(ParametersField)
    else None
  }

  /** The entry stored for a record: the description becomes the document, and
      `parameters` is renamed to `params` in the metadata. */
  function ToTask(rec: Record): (t: Task)
    requires WellFormed(rec)
    ensures t.document == rec[DescriptionField]
    ensures t.metadata.Keys == {GoalKey, ActionKey, ParamsKey}
    ensures t.metadata[GoalKey] == rec[GoalField]
    ensures t.metadata[ActionKey] == rec[ActionField]
    ensures t.metadata[ParamsKey] == rec[ParametersField]
  {
    Task(rec[DescriptionField],
         map[GoalKey := rec[GoalField], ActionKey := rec[ActionField], ParamsKey := rec[ParametersField]])
  }

  /** Reads a stored entry back as a record under the loader's field names. */
  function ToRecord(id: string, t: Task): (rec: Record)
    requires GoalKey in t.metadata && ActionKey in t.metadata && ParamsKey in t.metadata
    ensures WellFormed(rec)
  {
    map[IdField := id, DescriptionField := t.document, GoalField := t.metadata[GoalKey],
        ActionField := t.metadata[ActionKey], ParametersField := t.metadata[ParamsKey]]
  }

  /** A record with exactly the five fields is recovered from its id and its
      stored entry: the mapping loses nothing. */
  lemma RecordRoundTrip(rec: Record)
    requires WellFormed(rec)
    requires rec.Keys == {IdField, DescriptionField, GoalField, ActionField, ParametersField}
    ensures ToRecord(rec[IdField], ToTask(rec)) == rec
  {
    var back := ToRecord(rec[IdField], ToTask(rec));
    assert back.Keys == rec.Keys;
  }

  /** An entry whose metadata holds exactly goal, action and params is what the
      loader stores for the record read back from it. */
  lemma TaskRoundTrip(id: string, t: Task)
    requires t.metadata.Keys == {GoalKey, ActionKey, ParamsKey}
    ensures ToTask(ToRecord(id, t)) == t
  {
    var back := ToTask(ToRecord(id, t));
    assert back.metadata.Keys == t.metadata.Keys;
  }

  /** What Chroma's `add` does with an id it already holds: it may return the
      new store or raise with a message. That behaviour belongs to the library,
      so the model leaves it as a parameter. */
  type DuplicatePolicy = (Store, string, Task) -> Result<Store, string>

  /** `collection.add` of one entry. A new id is inserted and every other entry
      is kept; an id already stored is handed to the library's policy. An add
      that raises leaves the store as it was. */
  function AddTask(store: Store, id: string, t: Task, onDuplicate: DuplicatePolicy): (r: Result<Store, string>)
    ensures id !in store ==>
              && r.Success?
              && r.value.Keys == store.Keys + {id}
              && r.value[id] == t
              && (forall k :: k in store ==> r.value[k] == store[k])
    ensures id in store ==> r == onDuplicate(store, id, t)
  {
    if id in store then onDuplicate(store, id, t) else Success(store[id := t])
  }

  /** The exception that stops the loader, and at which record: a KeyError for
      a missing field, or an exception raised by `add` itself. */
  datatype LoadError =
    | MissingKey(index: nat, key: string)
    | AddRaised(index: nat, message: string)

  /** The store left behind, and the exception raised if any. */
  datatype Loaded = Loaded(store: Store, failure: Option<LoadError>)

  /** Record `k` is the first record that lacks a field. */
  predicate FirstMalformed(records: seq<Record>, k: nat)
  {
    && k < |records|
    && !WellFormed(records[k])
    && forall j :: 0 <= j < k ==> WellFormed(records[j])
  }

  /** The loop of `load_tasks_to_chroma` as a left fold of `add`: record i is
      added after records 0..i-1, and the first malformed record stops it. */
  function AddAll(store: Store, records: seq<Record>, onDuplicate: DuplicatePolicy): Loaded
    decreases |records|
  {
    if |records| == 0 then Loaded(store, None)
    else
      var n := |records| - 1;
      AddOne(AddAll(store, records[..n], onDuplicate), records[n], n, onDuplicate)
  }

  /** Where the loop can stop: with no exception only when every record has all
      its fields; otherwise at some record after well-formed ones, and a
      KeyError exactly at the first record that lacks a field, naming its first
      missing field. */
  lemma {:induction false} AddAllFailure(store: Store, records: seq<Record>, onDuplicate: DuplicatePolicy)
    ensures var r := AddAll(store, records, onDuplicate);
            && (r.failure.None? ==> AllWellFormed(records))
            && (r.failure.Some? ==>
                  && r.failure.value.index < |records|
                  && forall j :: 0 <= j < r.failure.value.index ==> WellFormed(records[j]))
            && (r.failure.Some? && r.failure.value.MissingKey? ==>
                  && FirstMalformed(records, r.failure.value.index)
                  && Some(r.failure.value.key) == MissingField(records[r.failure.value.index]))
            && (r.failure.Some? && r.failure.value.AddRaised? ==>
                  WellFormed(records[r.failure.value.index]))
    decreases |records|
  {
    if |records| > 0 {
      var n := |records| - 1;
      var init := records[..n];
      assert forall j :: 0 <= j < n ==> records[j] == init[j];
      AddAllFailure(store, init, onDuplicate);
    }
  }

  /** One iteration of the loop, for record number `index`: nothing once an
      exception has been raised, otherwise read the fields and add the entry. */
  function AddOne(prev: Loaded, rec: Record, index: nat, onDuplicate: DuplicatePolicy): Loaded
  {
    if prev.failure.Some? then prev
    else
      match MissingField(rec)
      case Some(key) => Loaded(prev.store, Some(MissingKey(index, key)))
      case None =>
        match AddTask(prev.store, rec[IdField], ToTask(rec), onDuplicate)
        case Failure(message) => Loaded(prev.store, Some(AddRaised(index, message)))
        case Success(next) => Loaded(next, None)
  }

  /** The fold over the first i + 1 records is one more iteration of the fold
      over the first i. */
  lemma AddAllStep(store: Store, records: seq<Record>, i: nat, onDuplicate: DuplicatePolicy)
    requires i < |records|
    ensures AddAll(store, records[..i + 1], onDuplicate)
            == AddOne(AddAll(store, records[..i], onDuplicate), records[i], i, onDuplicate)
  {
    var upTo := records[..i + 1];
    assert upTo[..i] == records[..i];
  }

  /** Offsets the index of a failure by `offset` records. */
  function Shift(l: Loaded, offset: nat): Loaded
  {
    match l.failure
    case None => l
    case Some(MissingKey(i, key)) => Loaded(l.store, Some(MissingKey(i + offset, key)))
    case Some(AddRaised(i, message)) => Loaded(l.store, Some(AddRaised(i + offset, message)))
  }

  /** Loading `a + b` is loading `a` and then loading `b` into the result:
      records are added one at a time, in list order. */
  lemma {:induction false} AddAllAppend(store: Store, a: seq<Record>, b: seq<Record>, onDuplicate: DuplicatePolicy)
    requires AddAll(store, a, onDuplicate).failure.None?
    ensures AddAll(store, a + b, onDuplicate) == Shift(AddAll(AddAll(store, a, onDuplicate).store, b, onDuplicate), |a|)
    decreases |b|
  {
    var mid := AddAll(store, a, onDuplicate).store;
    if |b| == 0 {
      assert a + b == a;
    } else {
      var n := |b| - 1;
      var ab := a + b;
      assert ab[..|ab| - 1] == a + b[..n];
      assert ab[|ab| - 1] == b[n];
      var prev := AddAll(mid, b[..n], onDuplicate);
      calc {
        AddAll(store, a + b, onDuplicate);
        AddOne(AddAll(store, a + b[..n], onDuplicate), b[n], |a| + n, onDuplicate);
        { AddAllAppend(store, a, b[..n], onDuplicate); }
        AddOne(Shift(prev, |a|), b[n], n + |a|, onDuplicate);
        { ShiftAddOne(prev, b[n], n, |a|, onDuplicate); }
        Shift(AddOne(prev, b[n], n, onDuplicate), |a|);
        Shift(AddAll(mid, b, onDuplicate), |a|);
      }
    }
  }

  /** One iteration commutes with offsetting the failure index. */
  lemma ShiftAddOne(prev: Loaded, rec: Record, index: nat, offset: nat, onDuplicate: DuplicatePolicy)
    ensures AddOne(Shift(prev, offset), rec, index + offset, onDuplicate)
            == Shift(AddOne(prev, rec, index, onDuplicate), offset)
  {
  }

  /** The set of ids the records carry. */
  function IdsOf(records: seq<Record>): set<string>
    decreases |records|
  {
    if |records| == 0 then {}
    else
      var last := records[|records| - 1];
      IdsOf(records[..|records| - 1]) + (if IdField in last then {last[IdField]} else {})
  }

  /** An id that no record carries is not among their ids. */
  lemma {:induction false} IdsOfExcludes(records: seq<Record>, x: string)
    requires AllWellFormed(records)
    requires forall i :: 0 <= i < |records| ==> records[i][IdField] != x
    ensures x !in IdsOf(records)
    decreases |records|
  {
    if |records| > 0 {
      var n := |records| - 1;
      assert forall j :: 0 <= j < n ==> records[..n][j] == records[j];
      IdsOfExcludes(records[..n], x);
    }
  }

  /** No record's id is already stored, and no id appears twice in the list. */
  predicate DistinctFreshIds(store: Store, records: seq<Record>)
    requires AllWellFormed(records)
  {
    && (forall i :: 0 <= i < |records| ==> records[i][IdField] !in store)
    && (forall i, j :: 0 <= i < j < |records| ==> records[i][IdField] != records[j][IdField])
  }

  /** Loading one more well-formed record adds it to what the others left. */
  lemma AddAllSnoc(store: Store, records: seq<Record>, onDuplicate: DuplicatePolicy)
    requires |records| > 0 && WellFormed(records[|records| - 1])
    requires AddAll(store, records[..|records| - 1], onDuplicate).failure.None?
    requires records[|records| - 1][IdField] !in AddAll(store, records[..|records| - 1], onDuplicate).store
    ensures var n := |records| - 1;
            AddAll(store, records, onDuplicate)
            == Loaded(AddAll(store, records[..n], onDuplicate).store[records[n][IdField] := ToTask(records[n])], None)
  {
    var n := |records| - 1;
    assert forall j :: 0 <= j < n ==> records[..n][j] == records[j];
  }

  /** `loaded` is `store` plus exactly one entry per record, as the record maps
      it. */
  predicate StoresExactly(store: Store, records: seq<Record>, loaded: Store)
  {
    && loaded.Keys == store.Keys + IdsOf(records)
    && |loaded| == |store| + |records|
    && (forall k :: k in store ==> loaded[k] == store[k])
    && (forall i :: 0 <= i < |records| ==>
          && WellFormed(records[i])
          && records[i][IdField] in loaded
          && loaded[records[i][IdField]] == ToTask(records[i]))
  }

  /** Updating a store at a new key keeps every entry of the earlier records
      and adds the new record's entry. */
  lemma EntriesStep(records: seq<Record>, loaded: Store)
    requires |records| > 0 && AllWellFormed(records)
    requires forall i :: 0 <= i < |records| - 1 ==> records[i][IdField] != records[|records| - 1][IdField]
    requires var init := records[..|records| - 1];
             forall i :: 0 <= i < |init| ==>
               init[i][IdField] in loaded && loaded[init[i][IdField]] == ToTask(init[i])
    ensures var last := records[|records| - 1];
            var next := loaded[last[IdField] := ToTask(last)];
            forall i :: 0 <= i < |records| ==>
              records[i][IdField] in next && next[records[i][IdField]] == ToTask(records[i])
  {
    var init := records[..|records| - 1];
    assert forall i :: 0 <= i < |init| ==> init[i] == records[i];
  }

  /** Adding a new key grows the key set by the record's id and the size by
      one. */
  lemma KeysStep(store: Store, records: seq<Record>, loaded: Store)
    requires |records| > 0 && AllWellFormed(records)
    requires records[|records| - 1][IdField] !in loaded
    requires AllWellFormed(records[..|records| - 1])
    requires loaded.Keys == store.Keys + IdsOf(records[..|records| - 1])
    requires |loaded| == |store| + |records| - 1
    ensures var last := records[|records| - 1];
            var next := loaded[last[IdField] := ToTask(last)];
            next.Keys == store.Keys + IdsOf(records) && |next| == |store| + |records|
  {
  }

  /** The last record's id is neither stored nor carried by an earlier record,
      so it is not among the keys the earlier records produced. */
  lemma LastIdIsNew(store: Store, records: seq<Record>, loaded: Store)
    requires |records| > 0 && AllWellFormed(records)
    requires DistinctFreshIds(store, records)
    requires AllWellFormed(records[..|records| - 1])
    requires loaded.Keys == store.Keys + IdsOf(records[..|records| - 1])
    ensures records[|records| - 1][IdField] !in loaded
  {
    var n := |records| - 1;
    var init := records[..n];
    assert forall i :: 0 <= i < n ==> init[i] == records[i];
    IdsOfExcludes(init, records[n][IdField]);
  }

  /** Setting a key the store does not hold keeps the store's entries. */
  lemma FrameStep(store: Store, loaded: Store, id: string, t: Task)
    requires id !in store
    requires forall k :: k in store ==> k in loaded && loaded[k] == store[k]
    ensures forall k :: k in store ==> loaded[id := t][k] == store[k]
  {
  }

  /** Adding one record with a new id to a store that holds exactly the earlier
      records gives a store that holds exactly all of them. */
  lemma StoresExactlyStep(store: Store, records: seq<Record>, loaded: Store)
    requires |records| > 0 && AllWellFormed(records)
    requires DistinctFreshIds(store, records)
    requires StoresExactly(store, records[..|records| - 1], loaded)
    ensures var last := records[|records| - 1];
            && last[IdField] !in loaded
            && StoresExactly(store, records, loaded[last[IdField] := ToTask(last)])
  {
    var last := records[|records| - 1];
    LastIdIsNew(store, records, loaded);
    KeysStep(store, records, loaded);
    EntriesStep(records, loaded);
    FrameStep(store, loaded, last[IdField], ToTask(last));
  }

  /** Dropping the last record keeps the records well-formed and their ids
      distinct and fresh. */
  lemma FreshPrefix(store: Store, records: seq<Record>)
    requires |records| > 0 && AllWellFormed(records)
    requires DistinctFreshIds(store, records)
    ensures AllWellFormed(records[..|records| - 1])
    ensures DistinctFreshIds(store, records[..|records| - 1])
  {
    var init := records[..|records| - 1];
    assert forall j :: 0 <= j < |init| ==> init[j] == records[j];
  }

  /** N well-formed records with distinct, fresh ids: the store gains exactly
      those N entries, each as the record maps it, and nothing else changes. */
  lemma {:induction false} AddAllFresh(store: Store, records: seq<Record>, onDuplicate: DuplicatePolicy)
    requires AllWellFormed(records)
    requires DistinctFreshIds(store, records)
    ensures var r := AddAll(store, records, onDuplicate);
            r.failure == None && StoresExactly(store, records, r.store)
    decreases |records|
  {
    if |records| > 0 {
      var init := records[..|records| - 1];
      FreshPrefix(store, records);
      AddAllFresh(store, init, onDuplicate);
      StoresExactlyStep(store, records, AddAll(store, init, onDuplicate).store);
      AddAllSnoc(store, records, onDuplicate);
    }
  }

  /** After loading records with distinct, fresh ids, each record's entry is
      under its id. */
  lemma LoadedRecordEntry(store: Store, records: seq<Record>, onDuplicate: DuplicatePolicy, i: nat)
    requires AllWellFormed(records) && DistinctFreshIds(store, records)
    requires i < |records|
    ensures var loaded := AddAll(store, records, onDuplicate).store;
            records[i][IdField] in loaded && loaded[records[i][IdField]] == ToTask(records[i])
  {
    AddAllFresh(store, records, onDuplicate);
  }

  /** Once the loop has raised, later records change nothing: loading the
      whole list ends as loading the prefix that raised. */
  lemma {:induction false} AddAllFailureSticks(store: Store, records: seq<Record>, m: nat, onDuplicate: DuplicatePolicy)
    requires m <= |records|
    requires AddAll(store, records[..m], onDuplicate).failure.Some?
    ensures AddAll(store, records, onDuplicate) == AddAll(store, records[..m], onDuplicate)
    decreases |records|
  {
    if m == |records| {
      assert records[..m] == records;
    } else {
      var n := |records| - 1;
      var init := records[..n];
      assert init[..m] == records[..m];
      AddAllFailureSticks(store, init, m, onDuplicate);
    }
  }

  /** The first malformed record stops the loader: unless an earlier add
      raised, the store holds what the records before it produced, and the
      KeyError names that record's first missing field. */
  lemma AddAllStopsAtFirstMalformed(store: Store, records: seq<Record>, k: nat, onDuplicate: DuplicatePolicy)
    requires FirstMalformed(records, k)
    ensures var before := AddAll(store, records[..k], onDuplicate);
            AddAll(store, records, onDuplicate)
            == if before.failure.None?
               then Loaded(before.store, Some(MissingKey(k, MissingField(records[k]).value)))
               else before
  {
    var upTo := records[..k + 1];
    assert upTo[..k] == records[..k];
    assert upTo[k] == records[k];
    AddAllFailureSticks(store, records, k + 1, onDuplicate);
  }

  /** Loading is not atomic: when record k lacks a field, records 0..k-1 (with
      distinct, fresh ids) are already stored and nothing from record k on is. */
  lemma PartialLoadKeepsPrefix(store: Store, records: seq<Record>, k: nat, onDuplicate: DuplicatePolicy)
    requires FirstMalformed(records, k)
    requires DistinctFreshIds(store, records[..k])
    ensures var r := AddAll(store, records, onDuplicate);
            && r.failure == Some(MissingKey(k, MissingField(records[k]).value))
            && StoresExactly(store, records[..k], r.store)
  {
    var init := records[..k];
    assert forall j :: 0 <= j < k ==> init[j] == records[j];
    AddAllFresh(store, init, onDuplicate);
    AddAllStopsAtFirstMalformed(store, records, k, onDuplicate);
  }

  /** Well-formed records with distinct, fresh ids load without an exception. */
  lemma FreshLoadRaisesNothing(store: Store, records: seq<Record>, onDuplicate: DuplicatePolicy)
    requires AllWellFormed(records) && DistinctFreshIds(store, records)
    ensures AddAll(store, records, onDuplicate).failure.None?
  {
    AddAllFresh(store, records, onDuplicate);
  }

  /** `load_tasks_to_chroma` on already-parsed records: adds them one per
      iteration and reports the list's length only once every add is done. */
  method LoadTasksToChroma(store: Store, records: seq<Record>, onDuplicate: DuplicatePolicy)
    returns (final: Store, reported: Option<nat>, raised: Option<LoadError>)
    ensures reported.Some? ==> AllWellFormed(records) && reported.value == |records|
    ensures AllWellFormed(records) && DistinctFreshIds(store, records) ==> reported == Some(|records|)
    ensures reported.None? <==> raised.Some?
    ensures raised.Some? && raised.value.MissingKey? ==> FirstMalformed(records, raised.value.index)
    ensures Loaded(final, raised) == AddAll(store, records, onDuplicate)
  {
    if AllWellFormed(records) && DistinctFreshIds(store, records) {
      FreshLoadRaisesNothing(store, records, onDuplicate);
    }
    final := store;
    var i := 0;
    while i < |records|
      invariant 0 <= i <= |records|
      invariant AddAll(store, records[..i], onDuplicate) == Loaded(final, None)
      invariant forall j :: 0 <= j < i ==> WellFormed(records[j])
    {
      var rec := records[i];
      AddAllStep(store, records, i, onDuplicate);
      match MissingField(rec) {
        case Some(key) =>
          AddAllFailureSticks(store, records, i + 1, onDuplicate);
          raised := Some(MissingKey(i, key));
          reported := None;
          return;
        case None =>
          match AddTask(final, rec[IdField], ToTask(rec), onDuplicate) {
            case Failure(message) =>
              AddAllFailureSticks(store, records, i + 1, onDuplicate);
              raised := Some(AddRaised(i, message));
              reported := None;
              return;
            case Success(next) =>
              assert AddOne(Loaded(final, None), rec, i, onDuplicate) == Loaded(next, None);
              final := next;
          }
      }
      i := i + 1;
    }
    assert records[..|records|] == records;
    reported := Some(|records|);
    raised := None;
  }
}
