# ollamaagent task worker — Dafny model

This project models the control flow of a small task worker. The worker and its
loader share one Chroma collection named `agent_tasks`. The loader
(`load_tasks_to_chroma`) adds one entry per task record. The worker
(`run_agent_loop`) does one pass: it peeks one task, scrapes the task's URL if
its action is `Scrape`, asks an Ollama model for a summary, and then deletes
the task.

Every library call is abstracted:

- The collection is an immutable `map<string, Task>` (`TaskStore.Store`). A
  `Task` keeps Chroma's shape: a document plus a string-valued metadata
  dictionary.
- `peek(limit=1)` is an input `Option<string>`. It is constrained only by what
  the store promises (`TaskStore.PeekContract`): no id exactly when the store is
  empty, otherwise some stored id. Chroma promises no order, so none is assumed.
- The HTTP GET and the model call are inputs of type `Result<string, string>`.
  Each is the value returned or the message of the exception raised.
- A pass also reports the calls it made (`Fetch`, `Invoke`, `Remove`). This
  lets the contracts say when no fetch, model call or delete happens.
- Chroma's behaviour on `add` with an id it already holds lives in the library.
  It is the unconstrained parameter `Ingest.DuplicatePolicy`, which may return
  a new store or raise. The effect lemmas require fresh, distinct ids.

Modules: `Wrappers` (Option, Result), `TaskStore` (task, store, peek, delete),
`AgentWorker` (`ollamaagent/agent_worker.py`), `Ingest`
(`ollamaagent/ingest.py`) and `Pipeline` (loader and worker together).

Behaviour worth noting:

- A task whose action is not `Scrape` is silently kept (agent_worker.py:38).
  The pass makes no fetch and no model call for it, so such a task stays
  pending forever (`AgentWorker.NonScrapeTaskNeverRemoved`).
- Loading is not atomic. A record missing a field raises `KeyError` after the
  earlier records were already added (`Ingest.PartialLoadKeepsPrefix`).
- A missing metadata key on the peeked task raises `KeyError`, and the store is
  left as it was. `goal` is read first (line 35, in the log line), then
  `action`, then `params`. So a task without a goal raises even when its action
  is not `Scrape` (`AgentWorker.MissingKeyRaises`).

## Model

| member | source | states |
|---|---|---|
| AgentWorker.PerformScrape | ollamaagent/agent_worker.py:16-24 | on a successful fetch the result is a prefix of the body of length min(body length, 500); on any fetch failure it is "Error: " followed by the message, and it never raises |
| AgentWorker.Prefix | ollamaagent/agent_worker.py:21 | Python's `text[:n]` is a prefix of the text of length min(length, n) |
| AgentWorker.ScrapeLongBodyHasLimitLength | ollamaagent/agent_worker.py:20-22 | a body longer than 500 characters is cut to exactly its first 500 characters |
| AgentWorker.ScrapeShortBodyUnchanged | ollamaagent/agent_worker.py:21-22 | a body of at most 500 characters is returned whole |
| AgentWorker.ScrapeIdempotent | ollamaagent/agent_worker.py:21 | truncating the truncated body again changes nothing |
| AgentWorker.SummaryPrompt | ollamaagent/agent_worker.py:42 | the prompt is the fixed instruction, the goal, the fixed `': ` separator and the scrape output, each at its fixed offset, and nothing else |
| AgentWorker.RunAgentLoop | ollamaagent/agent_worker.py:26-48 | a pass never adds or rewrites a task; it removes at most the peeked task; the store changes exactly when the pass completes, and then by deleting the peeked id after the model returned a summary; the delete call is made exactly then, as the last call |
| AgentWorker.EmptyStorePass | ollamaagent/agent_worker.py:30-48 | an empty peek leaves the store unchanged and makes no call at all |
| AgentWorker.NonScrapeTaskKept | ollamaagent/agent_worker.py:35-38 | a task with a goal whose action is not "Scrape" is skipped: store unchanged, no fetch, no model call, no delete |
| AgentWorker.NonScrapeTaskNeverRemoved | ollamaagent/agent_worker.py:33-46 | a task that is not a runnable Scrape task survives any pass unchanged, whatever the peek and the services return |
| AgentWorker.MissingKeyRaises | ollamaagent/agent_worker.py:35-39 | a task missing goal, or having a goal but no action, or a Scrape task without params, raises KeyError for that key with no call made and the store unchanged; goal is read before action and action before params |
| AgentWorker.ScrapeTaskPass | ollamaagent/agent_worker.py:38-46 | for a Scrape task the pass fetches the task's params URL, then prompts with its goal and the scrape output; the task is deleted exactly when the model answers |
| AgentWorker.ScrapeTaskCompleted | ollamaagent/agent_worker.py:38-46 | a successful Scrape pass removes exactly the peeked id, keeps every other task, and calls fetch, model and delete in that order |
| AgentWorker.LlmFailureKeepsTask | ollamaagent/agent_worker.py:42-46 | when the model call raises, the delete is never reached and the store is unchanged |
| AgentWorker.IncompletePassIsRetryable | ollamaagent/agent_worker.py:30-46 | a pass that does not complete leaves a store on which the same peek is valid and a rerun behaves as on the original store |
| AgentWorker.PassRemovesAtMostOne | ollamaagent/agent_worker.py:30-46 | the store loses at most one task per pass |
| AgentWorker.CatsScenario | ollamaagent/agent_worker.py:26-46 | the store holding only task t1 with a short page and a summary ends empty, reports the summary, and fetched the task's URL |
| TaskStore.Delete | ollamaagent/agent_worker.py:46 | deleting an id removes that entry and keeps every other entry |
| TaskStore.DeleteIdempotent | ollamaagent/agent_worker.py:46 | deleting an id twice is the same as deleting it once |
| TaskStore.PeekExists | ollamaagent/agent_worker.py:30-33 | every store admits a peek answer that meets the peek contract |
| Ingest.MissingField | ollamaagent/ingest.py:15-20 | no field is reported exactly when the record has all five; otherwise the reported field is absent and every field read before it is present |
| Ingest.ToTask | ollamaagent/ingest.py:15-21 | the stored entry's document is the record's description, and its metadata has exactly the keys goal, action and params, holding the record's goal, action and parameters |
| Ingest.RecordRoundTrip | ollamaagent/ingest.py:15-20 | a five-field record is recovered from its id and stored entry: description becomes the document, and goal, action and parameters the metadata goal, action and params |
| Ingest.TaskRoundTrip | ollamaagent/ingest.py:15-20 | an entry with exactly goal, action and params metadata is what the loader stores for the record read back from it |
| Ingest.AddTask | ollamaagent/ingest.py:14-22 | adding a new id inserts exactly that entry and keeps every other entry; an id already stored gets whatever the library's duplicate policy returns, a new store or an exception |
| Ingest.AddAllFailure | ollamaagent/ingest.py:13-22 | the fold ends without an exception only if every record has all its fields; an exception comes at some record after well-formed ones; a KeyError comes exactly at the first record that lacks a field and names its first missing field; an exception from `add` comes at a well-formed record |
| Ingest.AddAllAppend | ollamaagent/ingest.py:13-22 | when loading a raises nothing, loading a + b is loading a and then loading b into the result, so records are added one per iteration in list order |
| Ingest.AddAllFresh | ollamaagent/ingest.py:13-22 | N well-formed records with distinct ids absent from the store: the store gains exactly those N entries as the records map them, and nothing else changes |
| Ingest.LoadedRecordEntry | ollamaagent/ingest.py:14-22 | after such a load each record's entry is stored under its id |
| Ingest.AddAllFailureSticks | ollamaagent/ingest.py:13-22 | once an iteration raises, later records change nothing: the whole load ends as the prefix that raised |
| Ingest.AddAllStopsAtFirstMalformed | ollamaagent/ingest.py:13-22 | when record k is the first to lack a field and no earlier add raised, the store is what records 0..k-1 produced and the KeyError names record k's missing field; if an earlier add raised, that exception stands |
| Ingest.PartialLoadKeepsPrefix | ollamaagent/ingest.py:13-22 | loading is not atomic: when record k is the first to lack a field, and records 0..k-1 have distinct ids that are not already stored, the KeyError names that field, the store's keys are exactly the old keys plus the ids of records 0..k-1, each such id holds its record's entry, and old entries are unchanged |
| Ingest.LoadTasksToChroma | ollamaagent/ingest.py:9-23 | the count is reported only if every record is well formed and then equals the list length; with well-formed records and distinct, new ids it is always reported; no count exactly when an exception is raised, and a KeyError comes at the first malformed record; the final store and exception are those of the fold of add |
| Pipeline.LoadedScrapeTaskIsConsumed | ollamaagent/ingest.py:17-21 | when all records are well formed and their ids are distinct and not already stored, a loaded Scrape record carries its URL under the params key that the pass reads (agent_worker.py:38-39): peeking it, the pass fetches the record's parameters, prompts with its goal, and deletes it once the model answers |
| Pipeline.LoadedNonScrapeTaskStays | ollamaagent/ingest.py:17-21 | when all records are well formed and their ids are distinct and not already stored, a loaded record whose action is not Scrape keeps its entry through any pass (agent_worker.py:38) |

## Left out

- Chroma client construction, its HTTP transport and the `peek`, `add` and `delete` RPCs (agent_worker.py:12-13, ingest.py:6-7). These are network I/O. A map-based store stands in for them.
- Failures of the store itself. A `peek`, `add` or `delete` that raises is not modelled, except an `add` on an id already stored: an `add` of a new id always succeeds (no transport, validation or embedding failure). In particular, a delete at line 46 that raises after the summary was produced is not modelled.
- The HTTP GET (agent_worker.py:20). Its outcome is an input. `requests.get` does not raise on an HTTP error status, so such a response is a `Success` carrying the body. The URL is recorded in the call trace but does not influence the outcome.
- The Ollama/LangChain inference (agent_worker.py:14, 42). Its outcome is an input, and the summary's content is not specified.
- How `str(e)` renders an exception. The failure message is taken as given.
- Character units. Python slices a `str` by code points, while the model slices `seq<char>`, whose elements are Unicode scalar values. The two agree except for Python strings that hold lone surrogates.
- Reading and parsing the JSON file (ingest.py:10-11). The model starts from parsed records. Each record is a map from field name to string, so a missing key is representable. Non-string JSON values and a top-level value that is not a list are not modelled.
- Chroma metadata values that are not strings, and an entry stored without metadata.
- Ingest.AddTask: does not say what Chroma's `add` does with an id it already holds. That behaviour belongs to the library and is the `DuplicatePolicy` parameter, which may return a new store or raise. An `add` that raises is taken to leave the store as it was.
- Embedding and vector-search semantics of `documents`, the store's peek order, environment configuration, the startup `time.sleep(10)` and all `print` logging.
