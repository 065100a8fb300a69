/** The task store: a Chroma collection reduced to what the worker and the
    loader use of it. Every entry is keyed by its id and holds the document text
    and the string-valued metadata dictionary the loader wrote. */
module TaskStore {
  import opened Wrappers

  /** Chroma metadata for one entry: a dictionary from key to value. */
  type Metadata = map<string, string>

  /** One stored task: its document (the description, used only for embedding)
      and its metadata (goal, action, params). */
  datatype Task = Task(document: string, metadata: Metadata)

  type Store = map<string, Task>

  /** Metadata keys shared by the loader (which writes them) and the worker
      (which reads them). */
  const GoalKey := "goal"
  const ActionKey := "action"
  const ParamsKey := "params"

  /** What `peek(limit=1)` promises: no id exactly when the store is empty, and
      otherwise one id that is in the store. Which id is left to the store. */
  predicate PeekContract(store: Store, peeked: Option<string>)
  {
    && (peeked.None? <==> |store| == 0)
    && (peeked.Some? ==> peeked.value in store)
  }

  /** `delete(ids=[id])`: the entry for `id` is gone and every other entry is
      kept as it was. */
  function Delete(store: Store, id: string): (r: Store)
    ensures id !in r
    ensures r.Keys == store.Keys - {id}
    ensures forall k :: k in r ==> r[k] == store[k]
    ensures id in store ==> |r| == |store| - 1
  {
    var r := map k | k in store && k != id :: store[k];
    assert r.Keys == store.Keys - {id};
    r
  }

  /** Deleting the same id twice is the same as deleting it once. */
  lemma DeleteIdempotent(store: Store, id: string)
    ensures Delete(Delete(store, id), id) == Delete(store, id)
  {
  }

  /** Any store admits a peek: the empty store the empty answer, any other some
      id it holds. */
  lemma PeekExists(store: Store) returns (peeked: Option<string>)
    ensures PeekContract(store, peeked)
  {
    if |store| == 0 {
      peeked := None;
    } else {
      var k :| k in store;
      peeked := Some(k);
    }
  }
}
