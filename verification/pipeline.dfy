/** The loader and the worker together: what the loader stores is what the
    worker's pass reads. */
module Pipeline {
  import opened Wrappers
  import opened TaskStore
  import opened Ingest
  import opened AgentWorker

  /** A loaded record with action Scrape carries its URL under the `params` key
      the pass reads: peeking it, the pass fetches the record's `parameters`,
      prompts with the record's `goal`, and deletes it once the model answers. */
  lemma LoadedScrapeTaskIsConsumed(store: Store, records: seq<Record>, onDuplicate: DuplicatePolicy,
                                   i: nat, fetch: Result<string, string>, llm: Result<string, string>)
    requires AllWellFormed(records) && DistinctFreshIds(store, records)
    requires i < |records|
    requires records[i][ActionField] == ScrapeAction
    ensures var loaded := AddAll(store, records, onDuplicate).store;
            var id := records[i][IdField];
            && id in loaded
            && PeekContract(loaded, Some(id))
            && var r := RunAgentLoop(loaded, Some(id), fetch, llm);
               && |r.calls| >= 2
               && r.calls[0] == Fetch(records[i][ParametersField])
               && r.calls[1] == Invoke(SummaryPrompt(records[i][GoalField], PerformScrape(fetch)))
               && (llm.Success? ==> r.outcome == Completed(id, llm.value) && r.store == Delete(loaded, id))
               && (llm.Failure? ==> r.store == loaded)
  {
    LoadedRecordEntry(store, records, onDuplicate, i);
    var loaded := AddAll(store, records, onDuplicate).store;
    var id := records[i][IdField];
    assert IsScrapeTask(loaded[id]);
    assert PeekContract(loaded, Some(id)) by {
      assert |loaded| != 0;
    }
    ScrapeTaskPass(loaded, id, fetch, llm);
  }

  /** A loaded record whose action is not Scrape stays in the store through any
      pass, whichever task that pass peeks. */
  lemma LoadedNonScrapeTaskStays(store: Store, records: seq<Record>, onDuplicate: DuplicatePolicy,
                                 i: nat, peeked: Option<string>,
                                 fetch: Result<string, string>, llm: Result<string, string>)
    requires AllWellFormed(records) && DistinctFreshIds(store, records)
    requires i < |records|
    requires records[i][ActionField] != ScrapeAction
    requires PeekContract(AddAll(store, records, onDuplicate).store, peeked)
    ensures var loaded := AddAll(store, records, onDuplicate).store;
            var id := records[i][IdField];
            && id in loaded
            && var r := RunAgentLoop(loaded, peeked, fetch, llm);
               id in r.store && r.store[id] == ToTask(records[i])
  {
    LoadedRecordEntry(store, records, onDuplicate, i);
    var loaded := AddAll(store, records, onDuplicate).store;
    NonScrapeTaskNeverRemoved(loaded, peeked, records[i][IdField], fetch, llm);
  }
}
