/** What a sequence of commands, each in its own database, makes of a dataset. */
module Replay {
  import opened AofLog

  /** A dataset, and how it is changed by one command run in one database. */
  type Runner<!K> = (K, int, Argv) -> K

  function Replayed<K>(run: Runner<K>, k: K, xs: seq<(int, Argv)>): K
    decreases xs
  {
    if xs == [] then k else Replayed(run, run(k, xs[0].0, xs[0].1), xs[1..])
  }

  lemma {:induction false} ReplayedConcat<K>(run: Runner<K>, k: K, a: seq<(int, Argv)>, b: seq<(int, Argv)>)
    ensures Replayed(run, k, a + b) == Replayed(run, Replayed(run, k, a), b)
    decreases a
  {
    if a == [] {
      assert a + b == b;
    } else {
      assert (a + b)[0] == a[0] && (a + b)[1..] == a[1..] + b;
      ReplayedConcat(run, run(k, a[0].0, a[0].1), a[1..], b);
    }
  }
}
