/** The plain history provider of src/contexts/HistoryProvider.jsx, the one
    the application mounts: every `addHistory` call appends. */
module HistoryProvider {
  import opened HistoryLog

  /** The updater passed to `setHistory`: the path is appended unconditionally. */
  function AddPlain(prev: seq<Path>, path: Path): (r: seq<Path>)
    ensures prev <= r
    ensures |r| == |prev| + 1
    ensures r[|r| - 1] == path
  {
    prev + [path]
  }

  /** From any log, the updater yields that log followed by the new navigations. */
  lemma {:induction false} ReplayPlainFrom(h: seq<Path>, ps: seq<Path>)
    ensures Replay(AddPlain, h, ps) == h + ps
    decreases |ps|
  {
    if ps == [] {
      assert h + ps == h;
    } else {
      var q := ps[..|ps| - 1];
      ReplayPlainFrom(h, q);
      assert h + ps == (h + q) + [ps[|ps| - 1]];
    }
  }

  /** Starting empty, the log is exactly the navigations, repeats included. */
  lemma ReplayPlainFromEmpty(ps: seq<Path>)
    ensures Replay(AddPlain, [], ps) == ps
    ensures |Replay(AddPlain, [], ps)| == |ps|
  {
    ReplayPlainFrom([], ps);
    assert [] + ps == ps;
  }

  /** The `useState` cell of the plain provider; `navigations` records every
      path handed to `addHistory` so far. */
  class HistoryProvider {
    var history: seq<Path>
    ghost var navigations: seq<Path>

    ghost predicate Valid()
      reads this
    {
      history == Replay(AddPlain, [], navigations)
    }

    constructor ()
      ensures Valid()
      ensures history == [] && navigations == []
    {
      history := [];
      navigations := [];
    }

    method AddHistory(path: Path)
      requires Valid()
      modifies this
      ensures Valid()
      ensures navigations == old(navigations) + [path]
      ensures history == old(history) + [path]
      ensures history == navigations
    {
      var ps := navigations + [path];
      assert ps[..|ps| - 1] == navigations;
      history := AddPlain(history, path);
      navigations := ps;
      ReplayPlainFromEmpty(navigations);
    }
  }
}
