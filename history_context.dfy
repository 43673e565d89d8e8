/** The deduplicating history provider of src/contexts/HistoryContext.jsx:
    its state updater, the default context value used when no provider is
    mounted, and the provider's mutable `history` cell. */
module HistoryContext {
  import opened HistoryLog

  /** The updater passed to `setHistory`: a path equal to the last entry is
      dropped, any other path is appended. */
  function AddDedup(prev: seq<Path>, path: Path): (r: seq<Path>)
    ensures prev <= r
    ensures |r| == if |prev| > 0 && prev[|prev| - 1] == path then |prev| else |prev| + 1
    ensures |r| > 0 && r[|r| - 1] == path
    ensures NoConsecutiveDuplicates(prev) ==> NoConsecutiveDuplicates(r)
  {
    if |prev| > 0 && prev[|prev| - 1] == path then prev else prev + [path]
  }

  /** Adding the same path twice in a row gives the log that adding it once gives. */
  lemma AddDedupIdempotent(h: seq<Path>, p: Path)
    ensures AddDedup(AddDedup(h, p), p) == AddDedup(h, p)
  {
  }

  /** The log of a provider created empty after the navigations `ps`. */
  function Collapse(ps: seq<Path>): (r: seq<Path>) {
    Replay(AddDedup, [], ps)
  }

  /** One more path on the raw input adds at most that path to its collapsed form. */
  lemma {:induction false} SquashSnoc(s: seq<Path>, p: Path)
    ensures Squash(s + [p]) == AddDedup(Squash(s), p)
    decreases |s|
  {
    var x := s + [p];
    if |s| == 0 {
      assert x == [p];
    } else if |s| == 1 {
      assert x == [s[0], p] && x[1..] == [p];
    } else {
      assert x[0] == s[0] && x[1] == s[1] && x[1..] == s[1..] + [p];
      SquashSnoc(s[1..], p);
      if s[0] != s[1] {
        var t := Squash(s[1..]);
        assert |t| > 0;
        assert ([s[0]] + t)[|[s[0]] + t| - 1] == t[|t| - 1];
        if t[|t| - 1] != p {
          assert [s[0]] + (t + [p]) == ([s[0]] + t) + [p];
        }
      }
    }
  }

  /** From any log without consecutive repeats, the updater yields the
      collapsed form of that log followed by the new navigations. */
  lemma {:induction false} ReplayDedupFrom(h: seq<Path>, ps: seq<Path>)
    requires NoConsecutiveDuplicates(h)
    ensures Replay(AddDedup, h, ps) == Squash(h + ps)
    decreases |ps|
  {
    if ps == [] {
      assert h + ps == h;
      SquashFixpoint(h);
    } else {
      var q, p := ps[..|ps| - 1], ps[|ps| - 1];
      ReplayDedupFrom(h, q);
      SquashSnoc(h + q, p);
      assert h + ps == (h + q) + [p];
    }
  }

  /** Starting empty, the log is the navigations with consecutive repeats collapsed. */
  lemma CollapseIsSquash(ps: seq<Path>)
    ensures Collapse(ps) == Squash(ps)
    ensures NoConsecutiveDuplicates(Collapse(ps)) && |Collapse(ps)| <= |ps|
  {
    ReplayDedupFrom([], ps);
    assert [] + ps == ps;
  }

  /** A path may come back once another path has been visited in between. */
  lemma CollapseExamples()
    ensures Collapse(["/home", "/home", "/about"]) == ["/home", "/about"]
    ensures Collapse(["/", "/home", "/about"]) == ["/", "/home", "/about"]
    ensures Collapse(["/home", "/about", "/home"]) == ["/home", "/about", "/home"]
  {
    CollapseIsSquash(["/home", "/home", "/about"]);
    CollapseIsSquash(["/", "/home", "/about"]);
    CollapseIsSquash(["/home", "/about", "/home"]);
  }

  /** The history of the default context value, read when no provider is mounted. */
  const DefaultHistory: seq<Path> := []

  /** The default context's `addHistory` does nothing, so the state stays as it was. */
  function DefaultAddHistory(prev: seq<Path>, path: Path): (r: seq<Path>) {
    prev
  }

  /** Without a provider, no sequence of navigations records anything. */
  lemma {:induction false} DefaultContextRecordsNothing(ps: seq<Path>)
    ensures Replay(DefaultAddHistory, DefaultHistory, ps) == []
    decreases |ps|
  {
    if ps != [] {
      DefaultContextRecordsNothing(ps[..|ps| - 1]);
    }
  }

  /** The `useState` cell of the deduplicating provider; `navigations` records
      every path handed to `addHistory` so far. */
  class HistoryProvider {
    var history: seq<Path>
    ghost var navigations: seq<Path>

    ghost predicate Valid()
      reads this
    {
      history == Collapse(navigations) && NoConsecutiveDuplicates(history)
    }

    constructor ()
      ensures Valid()
      ensures history == [] && navigations == []
    {
      history := [];
      navigations := [];
    }

    method AddHistory(path: Path)
      requires Valid()
      modifies this
      ensures Valid()
      ensures navigations == old(navigations) + [path]
      ensures history == AddDedup(old(history), path)
    {
      var ps := navigations + [path];
      assert ps[..|ps| - 1] == navigations;
      history := AddDedup(history, path);
      navigations := ps;
    }
  }
}
