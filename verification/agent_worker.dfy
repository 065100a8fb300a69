/** One pass of the agent worker: peek one task, run its action if it is a
    Scrape, ask the language model for a summary, and only then delete the task.
    The HTTP fetch and the model call are inputs, given as the value they
    returned or the message of the exception they raised. */
module AgentWorker {
  import opened Wrappers
  import opened TaskStore

  /** Number of characters of the response body kept by the scrape. */
  const ScrapeLimit: nat := 500

  /** The only action the worker dispatches. */
  const ScrapeAction := "Scrape"

  /** Prefix of the text the scrape returns instead of raising. */
  const ErrorPrefix := "Error: "

  /** The fixed parts of the summarisation prompt around the goal and the data. */
  const PromptHead := "Summarize this raw HTML/Text content for the goal '"
  const PromptMid := "': "

  function Min(a: nat, b: nat): nat
  {
    if a <= b then a else b
  }

  /** Python's `text[:n]`: the first `n` characters, or all of them when the
      text is shorter. */
  function Prefix(text: string, n: nat): (r: string)
    ensures |r| == Min(|text|, n)
    ensures r <= text
  {
    if |text| <= n then text else text[..n]
  }

  /** `perform_scrape`: the truncated body when the fetch returned, an error
      text when it raised. It never raises itself. */
  function PerformScrape(fetch: Result<string, string>): (r: string)
    ensures fetch.Success? ==> |r| == Min(|fetch.value|, ScrapeLimit) && r <= fetch.value
    ensures fetch.Failure? ==> |r| == |ErrorPrefix| + |fetch.error| && r[|ErrorPrefix|..] == fetch.error
    ensures fetch.Failure? ==> r[..|ErrorPrefix|] == ErrorPrefix
  {
    match fetch
    case Success(text) => Prefix(text, ScrapeLimit)
    case Failure(message) => ErrorPrefix + message
  }

  /** A body longer than the limit is cut to exactly the limit. */
  lemma ScrapeLongBodyHasLimitLength(text: string)
    requires |text| > ScrapeLimit
    ensures |PerformScrape(Success(text))| == ScrapeLimit
    ensures PerformScrape(Success(text)) == text[..ScrapeLimit]
  {
  }

  /** A body within the limit is passed on whole. */
  lemma ScrapeShortBodyUnchanged(text: string)
    requires |text| <= ScrapeLimit
    ensures PerformScrape(Success(text)) == text
  {
  }

  /** Scraping the scraped text again changes nothing: the truncation is
      idempotent. */
  lemma ScrapeIdempotent(text: string)
    ensures PerformScrape(Success(PerformScrape(Success(text)))) == PerformScrape(Success(text))
  {
  }

  /** The summarisation prompt built from the task's goal and the scrape output. */
  function SummaryPrompt(goal: string, data: string): (p: string)
    ensures |p| == |PromptHead| + |goal| + |PromptMid| + |data|
    ensures p[..|PromptHead|] == PromptHead
    ensures p[|PromptHead|..|PromptHead| + |goal|] == goal
    ensures p[|PromptHead| + |goal|..|PromptHead| + |goal| + |PromptMid|] == PromptMid
    ensures p[|p| - |data|..] == data
  {
    PromptHead + goal + PromptMid + data
  }

  /** A task the pass can run to the end: it has a goal and a URL and its
      action is Scrape. */
  predicate IsScrapeTask(t: Task)
  {
    && GoalKey in t.metadata
    && ActionKey in t.metadata && t.metadata[ActionKey] == ScrapeAction
    && ParamsKey in t.metadata
  }

  /** A side effect the pass performs on the outside world, in order. */
  datatype Call = Fetch(url: string) | Invoke(prompt: string) | Remove(id: string)

  /** Exceptions that escape a pass. */
  datatype Raise = KeyError(key: string) | LlmError(message: string)

  /** How a pass ends. `Skipped` is the silent end of a task whose action is not
      Scrape; `Raised` is an exception propagating out of `run_agent_loop`. */
  datatype Outcome =
    | NoTasks
    | Skipped(skippedId: string)
    | Completed(completedId: string, summary: string)
    | Raised(error: Raise)

  /** The store after the pass, how it ended, and the calls it made. */
  datatype Pass = Pass(store: Store, outcome: Outcome, calls: seq<Call>)

  /** True when the calls include a deletion. */
  predicate Deletes(calls: seq<Call>)
  {
    exists i :: 0 <= i < |calls| && calls[i].Remove?
  }

  /** True when the calls include a fetch or a model invocation. */
  predicate ContactsServices(calls: seq<Call>)
  {
    exists i :: 0 <= i < |calls| && (calls[i].Fetch? || calls[i].Invoke?)
  }

  /** `run_agent_loop`: one pass over `store`, where `peeked` is what
      `peek(limit=1)` returned, `fetch` what the HTTP GET of the task's URL
      returned and `llm` what the model returned for the prompt. */
  function RunAgentLoop(store: Store, peeked: Option<string>,
                        fetch: Result<string, string>, llm: Result<string, string>): (r: Pass)
    requires PeekContract(store, peeked)
    // the pass never adds or rewrites a task
    ensures r.store.Keys <= store.Keys
    ensures forall k :: k in r.store ==> r.store[k] == store[k]
    // it removes at most the peeked task
    ensures forall k :: k in store && k !in r.store ==> peeked == Some(k)
    // the store changes exactly when the pass completes, and then by one deletion
    ensures r.store != store <==> r.outcome.Completed?
    ensures r.outcome.Completed? ==>
              && peeked == Some(r.outcome.completedId)
              && llm == Success(r.outcome.summary)
              && r.store == Delete(store, r.outcome.completedId)
    // the delete call is issued exactly when the pass completes, and last
    ensures Deletes(r.calls) <==> r.outcome.Completed?
    ensures r.outcome.Completed? ==> r.calls[|r.calls| - 1] == Remove(r.outcome.completedId)
  {
    match peeked
    case None => Pass(store, NoTasks, [])
    case Some(id) =>
      var meta := store[id].metadata;
      if GoalKey !in meta then Pass(store, Raised(KeyError(GoalKey)), [])
      else if ActionKey !in meta then Pass(store, Raised(KeyError(ActionKey)), [])
      else if meta[ActionKey] != ScrapeAction then Pass(store, Skipped(id), [])
      else if ParamsKey !in meta then Pass(store, Raised(KeyError(ParamsKey)), [])
      else
        var data := PerformScrape(fetch);
        var prompt := SummaryPrompt(meta[GoalKey], data);
        match llm
        case Failure(message) =>
          Pass(store, Raised(LlmError(message)), [Fetch(meta[ParamsKey]), Invoke(prompt)])
        case Success(summary) =>
          var r := Pass(Delete(store, id), Completed(id, summary),
                        [Fetch(meta[ParamsKey]), Invoke(prompt), Remove(id)]);
          assert id !in r.store;
          assert r.calls[2].Remove?;
          r
  }

  /** An empty store: nothing changes and nothing is called. */
  lemma EmptyStorePass(store: Store, fetch: Result<string, string>, llm: Result<string, string>)
    requires |store| == 0
    ensures var r := RunAgentLoop(store, None, fetch, llm);
            r.store == store && r.outcome == NoTasks && r.calls == []
  {
  }

  /** A task whose action is not Scrape stays pending; no fetch, no model call,
      no delete. */
  lemma NonScrapeTaskKept(store: Store, id: string, fetch: Result<string, string>, llm: Result<string, string>)
    requires id in store
    requires GoalKey in store[id].metadata
    requires ActionKey in store[id].metadata
    requires store[id].metadata[ActionKey] != ScrapeAction
    ensures var r := RunAgentLoop(store, Some(id), fetch, llm);
            && r.store == store
            && r.outcome == Skipped(id)
            && !ContactsServices(r.calls)
            && !Deletes(r.calls)
  {
  }

  /** A missing metadata key raises KeyError before any call, leaving the
      store as it was. The keys are read in the order goal, action, params,
      and params only for a Scrape task, so a task without a goal raises
      whatever its action. */
  lemma MissingKeyRaises(store: Store, id: string, fetch: Result<string, string>, llm: Result<string, string>)
    requires id in store
    ensures var meta := store[id].metadata;
            var r := RunAgentLoop(store, Some(id), fetch, llm);
            && (GoalKey !in meta ==>
                  r.outcome == Raised(KeyError(GoalKey)) && r.calls == [] && r.store == store)
            && (GoalKey in meta && ActionKey !in meta ==>
                  r.outcome == Raised(KeyError(ActionKey)) && r.calls == [] && r.store == store)
            && (GoalKey in meta && ActionKey in meta && meta[ActionKey] == ScrapeAction && ParamsKey !in meta ==>
                  r.outcome == Raised(KeyError(ParamsKey)) && r.calls == [] && r.store == store)
  {
  }

  /** A well-formed Scrape task: the pass fetches its URL, sends the model the
      goal and the scrape output, and on a summary deletes exactly that task. */
  lemma ScrapeTaskCompleted(store: Store, id: string, fetch: Result<string, string>, summary: string)
    requires id in store
    requires IsScrapeTask(store[id])
    ensures var meta := store[id].metadata;
            var r := RunAgentLoop(store, Some(id), fetch, Success(summary));
            && r.outcome == Completed(id, summary)
            && r.store.Keys == store.Keys - {id}
            && |r.store| == |store| - 1
            && (forall k :: k in r.store ==> r.store[k] == store[k])
            && r.calls == [Fetch(meta[ParamsKey]),
                           Invoke(SummaryPrompt(meta[GoalKey], PerformScrape(fetch))),
                           Remove(id)]
  {
  }

  /** A Scrape task, whatever the model returns: the pass first fetches the
      task's URL, then prompts with its goal, and the model's answer alone
      decides whether the task is deleted. */
  lemma ScrapeTaskPass(store: Store, id: string, fetch: Result<string, string>, llm: Result<string, string>)
    requires id in store
    requires IsScrapeTask(store[id])
    ensures var meta := store[id].metadata;
            var r := RunAgentLoop(store, Some(id), fetch, llm);
            && |r.calls| >= 2
            && r.calls[0] == Fetch(meta[ParamsKey])
            && r.calls[1] == Invoke(SummaryPrompt(meta[GoalKey], PerformScrape(fetch)))
            && (llm.Success? ==> r.outcome == Completed(id, llm.value) && r.store == Delete(store, id))
            && (llm.Failure? ==> r.store == store && r.outcome == Raised(LlmError(llm.error)))
  {
  }

  /** A model failure raises before the delete: the task survives untouched. */
  lemma LlmFailureKeepsTask(store: Store, id: string, fetch: Result<string, string>, message: string)
    requires id in store
    requires IsScrapeTask(store[id])
    ensures var r := RunAgentLoop(store, Some(id), fetch, Failure(message));
            && r.store == store
            && r.outcome == Raised(LlmError(message))
            && !Deletes(r.calls)
  {
  }

  /** A pass that does not complete leaves the store as it was, so running the
      pass again sees the same task (at-least-once processing). */
  lemma IncompletePassIsRetryable(store: Store, peeked: Option<string>,
                                  fetch: Result<string, string>, llm: Result<string, string>,
                                  llm': Result<string, string>)
    requires PeekContract(store, peeked)
    requires !RunAgentLoop(store, peeked, fetch, llm).outcome.Completed?
    ensures var r := RunAgentLoop(store, peeked, fetch, llm);
            && PeekContract(r.store, peeked)
            && RunAgentLoop(r.store, peeked, fetch, llm') == RunAgentLoop(store, peeked, fetch, llm')
  {
  }

  /** A task whose action is not Scrape is never removed, whichever task the
      pass peeks and whatever the services return: it stays pending forever. */
  lemma NonScrapeTaskNeverRemoved(store: Store, peeked: Option<string>, id: string,
                                  fetch: Result<string, string>, llm: Result<string, string>)
    requires PeekContract(store, peeked)
    requires id in store && !IsScrapeTask(store[id])
    ensures var r := RunAgentLoop(store, peeked, fetch, llm);
            id in r.store && r.store[id] == store[id]
  {
    var r := RunAgentLoop(store, peeked, fetch, llm);
    if peeked == Some(id) {
      assert !r.outcome.Completed?;
    }
  }

  /** One pass removes at most one task. */
  lemma PassRemovesAtMostOne(store: Store, peeked: Option<string>,
                             fetch: Result<string, string>, llm: Result<string, string>)
    requires PeekContract(store, peeked)
    ensures |RunAgentLoop(store, peeked, fetch, llm).store| >= |store| - 1
  {
    var r := RunAgentLoop(store, peeked, fetch, llm);
    if r.outcome.Completed? {
      assert |r.store| == |store| - 1;
    }
  }

  /** The worked example: the one task "t1" is fetched, summarised and removed. */
  lemma CatsScenario()
    ensures var t1 := Task("", map[GoalKey := "find cats", ActionKey := "Scrape",
                                   ParamsKey := "http://example.com"]);
            var r := RunAgentLoop(map["t1" := t1], Some("t1"),
                                  Success("<html>cats are great...</html>"),
                                  Success("Cats are popular pets."));
            && r.store == map[]
            && r.outcome == Completed("t1", "Cats are popular pets.")
            && r.calls[0] == Fetch("http://example.com")
            && r.calls[1] == Invoke(SummaryPrompt("find cats", "<html>cats are great...</html>"))
  {
    var t1 := Task("", map[GoalKey := "find cats", ActionKey := "Scrape",
                           ParamsKey := "http://example.com"]);
    assert PeekContract(map["t1" := t1], Some("t1"));
    assert |"<html>cats are great...</html>"| <= ScrapeLimit;
  }
}
