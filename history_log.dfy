/** The navigation log shared by both history providers: an ordered sequence
    of visited pathnames, the folding of an update over a run of navigations,
    and an independent reference definition of "consecutive repeats collapsed". */
module HistoryLog {

  /** The pathname of a visited location, compared by value as `===` does on strings. */
  type Path = string

  /** The log invariant of the deduplicating provider: no entry equals the one right after it. */
  predicate NoConsecutiveDuplicates(h: seq<Path>) {
    forall i :: 0 <= i < |h| - 1 ==> h[i] != h[i + 1]
  }

  /** The log obtained from `h` by handing each path of `ps` in turn to the
      state updater `add`, as successive `addHistory` calls do. */
  function Replay(add: (seq<Path>, Path) -> seq<Path>, h: seq<Path>, ps: seq<Path>): (r: seq<Path>)
    decreases |ps|
  {
    if ps == [] then h else add(Replay(add, h, ps[..|ps| - 1]), ps[|ps| - 1])
  }

  /** Reference definition, read from the front: `ps` with every run of equal
      adjacent paths replaced by a single copy. */
  function Squash(ps: seq<Path>): (r: seq<Path>)
    ensures |r| <= |ps|
    ensures NoConsecutiveDuplicates(r)
    ensures |ps| > 0 ==> |r| > 0 && r[0] == ps[0] && r[|r| - 1] == ps[|ps| - 1]
    ensures forall x :: x in r <==> x in ps
    decreases |ps|
  {
    if |ps| <= 1 then ps
    else if ps[0] == ps[1] then Squash(ps[1..])
    else [ps[0]] + Squash(ps[1..])
  }

  /** Collapsing leaves a log alone exactly when it has no consecutive repeats. */
  lemma {:induction false} SquashFixpoint(s: seq<Path>)
    ensures Squash(s) == s <==> NoConsecutiveDuplicates(s)
    decreases |s|
  {
    if |s| > 1 && NoConsecutiveDuplicates(s) {
      assert s[0] != s[1];
      assert NoConsecutiveDuplicates(s[1..]) by {
        forall i | 0 <= i < |s[1..]| - 1 ensures s[1..][i] != s[1..][i + 1] {
          assert s[1..][i] == s[i + 1] && s[1..][i + 1] == s[i + 2];
        }
      }
      SquashFixpoint(s[1..]);
      assert [s[0]] + s[1..] == s;
    }
  }
}
