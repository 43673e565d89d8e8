# Navigation history store

A model of the navigation-history store of a small React single-page
application. The store is a context provider that holds an ordered log of
visited pathnames in a `useState` cell and exposes `addHistory(path)`, which
replaces the log through a functional state updater. The repository has two
variants of the provider:

- the deduplicating provider in `src/contexts/HistoryContext.jsx`, whose
  updater returns the log unchanged when its last entry already equals the
  path and otherwise appends the path; the same file defines the default
  context value (empty history, `addHistory` that does nothing);
- the plain provider in `src/contexts/HistoryProvider.jsx`, whose updater
  always appends. This is the one `src/App.jsx` mounts.

Files:

- `history_log.dfy` (module `HistoryLog`): the `Path` type, the invariant
  "no two consecutive entries are equal", `Replay` (the log after handing a
  run of navigations to an updater one at a time) and `Squash`, an independent
  reference definition of a sequence with runs of equal neighbours collapsed.
- `history_context.dfy` (module `HistoryContext`): the deduplicating updater
  `AddDedup`, its fold `Collapse`, the default context value, and the class
  `HistoryProvider` for the provider's state cell.
- `history_provider.dfy` (module `HistoryProvider`): the plain updater
  `AddPlain` and the class `HistoryProvider` for its state cell.
- `variants.dfy` (module `Variants`): the deduplicating log is the plain log
  with consecutive repeats collapsed.

Each class carries a ghost field `navigations`, every path handed to
`addHistory` so far, and a `Valid()` predicate tying `history` to the fold of
the updater over `navigations`.

The comment at `src/contexts/HistoryContext.jsx:17` says a path equal to the
previous one is not added, but `src/App.jsx:5,9` mounts the plain provider
from `src/contexts/HistoryProvider.jsx`, which keeps repeats. Both variants
are modelled, and `Variants` states exactly how they differ. The header
(`src/components/Header.jsx:11-23`) links five paths, while
`src/router/Routes.jsx:6-9` defines only `/` and `/home`; routing is not part
of this model.

## Model

| member | source | states |
|---|---|---|
| `HistoryLog.Replay` | src/contexts/HistoryContext.jsx:15-22 | the log after a run of successive `addHistory` calls, each handing the next path to the state updater in call order |
| `HistoryLog.Squash` | src/contexts/HistoryContext.jsx:17-21 | reference collapse of consecutive repeats: never longer than its input, no consecutive repeats, same first and last path, and exactly the same set of paths as the input |
| `HistoryLog.SquashFixpoint` | src/contexts/HistoryContext.jsx:18-21 | collapsing leaves a log unchanged if and only if it has no two equal consecutive entries |
| `HistoryContext.AddDedup` | src/contexts/HistoryContext.jsx:16-22 | the old log is a prefix of the new one; the length stays the same when the log is non-empty and its last entry equals the path, and grows by one otherwise; the new last entry is the path; the no-consecutive-repeats invariant is preserved |
| `HistoryContext.AddDedupIdempotent` | src/contexts/HistoryContext.jsx:18-21 | adding the same path twice in a row gives the same log as adding it once |
| `HistoryContext.SquashSnoc` | src/contexts/HistoryContext.jsx:18-21 | one more navigation changes the collapsed log exactly as one more deduplicating update does |
| `HistoryContext.ReplayDedupFrom` | src/contexts/HistoryContext.jsx:15-22 | from any log without consecutive repeats, a run of `addHistory` calls yields the old log followed by the new paths, with consecutive repeats collapsed |
| `HistoryContext.Collapse` | src/contexts/HistoryContext.jsx:13-22 | the deduplicating provider's log after a run of navigations from the empty `useState([])` start |
| `HistoryContext.CollapseIsSquash` | src/contexts/HistoryContext.jsx:13-23 | from the empty initial history, paths p1..pn yield p1..pn with consecutive repeats collapsed; the result has no consecutive repeats and is at most n long |
| `HistoryContext.CollapseExamples` | src/contexts/HistoryContext.jsx:13-23 | `/home,/home,/about` gives `[/home,/about]`; `/,/home,/about` is kept whole; a path may reappear once another path lies between |
| `HistoryContext.DefaultAddHistory` | src/contexts/HistoryContext.jsx:8 | returns the log it is given, so the default `addHistory` records nothing |
| `HistoryContext.DefaultContextRecordsNothing` | src/contexts/HistoryContext.jsx:6-9 | without a provider, the history is empty and stays empty whatever paths are added |
| `HistoryContext.HistoryProvider.constructor` | src/contexts/HistoryContext.jsx:13 | a new deduplicating provider starts with an empty history |
| `HistoryContext.HistoryProvider.AddHistory` | src/contexts/HistoryContext.jsx:15-23 | the new history is the deduplicating update of the old one, and it stays the collapse of all navigations so far, without consecutive repeats |
| `HistoryProvider.AddPlain` | src/contexts/HistoryProvider.jsx:9 | the old log is a prefix of the new one, the length grows by exactly one and the new last entry is the path, whatever the previous last entry was |
| `HistoryProvider.ReplayPlainFrom` | src/contexts/HistoryProvider.jsx:8-10 | from any log, a run of `addHistory` calls yields the old log followed by exactly the new paths |
| `HistoryProvider.ReplayPlainFromEmpty` | src/contexts/HistoryProvider.jsx:6-10 | from the empty initial history, paths p1..pn yield exactly p1..pn, of length n |
| `HistoryProvider.HistoryProvider.constructor` | src/contexts/HistoryProvider.jsx:6 | a new plain provider starts with an empty history |
| `HistoryProvider.HistoryProvider.AddHistory` | src/contexts/HistoryProvider.jsx:8-10 | the new history is the old one followed by the path, and it always equals the sequence of all navigations so far |
| `Variants.DedupIsCollapsedPlain` | src/contexts/HistoryContext.jsx:15-22 | the deduplicating log is the plain log for the same navigations with consecutive repeats collapsed, and the two are equal if and only if no navigation repeats the one before it |
| `Variants.ProvidersAgree` | src/contexts/HistoryProvider.jsx:8-10 | two providers fed the same navigations: the deduplicating history is the collapse of the plain history and never longer |

## Left out

- The `useHistory` hook (`src/contexts/HistoryContext.jsx:33-35`, `src/hooks/useHistory.js`) only returns the context value; the model reads the `history` field directly.
- React's re-render notification after `setHistory`, the `useCallback` memoisation of `addHistory` and the batching of queued functional updates are framework behaviour; the model applies each update immediately and in call order, which is what a functional updater guarantees about the resulting state.
- The default context value's `addHistory` ignores its argument and has no state; it is modelled as an updater that returns the state it is given (`DefaultAddHistory`), folded from the empty `DefaultHistory`.
- The Tracker components, the route table, the layouts, the pages and the Loading page's timer are rendering, routing and effect plumbing of the framework, not part of the store.
- The import of a `HistoryContext` export that `src/contexts/HistoryContext.jsx` does not provide (`src/contexts/HistoryProvider.jsx:3`) is a module-wiring defect; the model gives the plain provider its own state cell.
