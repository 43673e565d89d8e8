/** How the two providers' logs relate when both see the same navigations. */
module Variants {
  import opened HistoryLog
  import HistoryContext
  import HistoryProvider

  /** The deduplicating log is the plain log with consecutive repeats collapsed;
      the two agree exactly when no navigation repeats the one before it. */
  lemma DedupIsCollapsedPlain(ps: seq<Path>)
    ensures HistoryContext.Collapse(ps) == Squash(Replay(HistoryProvider.AddPlain, [], ps))
    ensures HistoryContext.Collapse(ps) == Replay(HistoryProvider.AddPlain, [], ps)
            <==> NoConsecutiveDuplicates(ps)
  {
    HistoryContext.CollapseIsSquash(ps);
    HistoryProvider.ReplayPlainFromEmpty(ps);
    SquashFixpoint(ps);
  }

  /** Two providers fed the same navigations hold logs related as above. */
  lemma ProvidersAgree(d: HistoryContext.HistoryProvider, p: HistoryProvider.HistoryProvider)
    requires d.Valid() && p.Valid() && d.navigations == p.navigations
    ensures d.history == Squash(p.history)
    ensures |d.history| <= |p.history|
  {
    DedupIsCollapsedPlain(p.navigations);
  }
}
