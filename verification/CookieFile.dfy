/** The cookie file as it changes over time: bitcoind replaces it atomically, with
    a later modification time each time, and it is missing while the node is down. */
module CookieFile {
  datatype File = Absent | Present(mtime: nat, contents: string)

  /** What the file held, oldest first; the last one is what it holds now. */
  type History = seq<File>

  ghost predicate Increasing(h: History) {
    forall i, j :: 0 <= i < j < |h| && h[i].Present? && h[j].Present? ==> h[i].mtime < h[j].mtime
  }

  /** `f` may replace the current file. */
  ghost predicate MayFollow(h: History, f: File) {
    f.Present? ==> forall i :: 0 <= i < |h| && h[i].Present? ==> h[i].mtime < f.mtime
  }

  function Now(h: History): File
    requires h != []
  {
    h[|h| - 1]
  }

  lemma NowIsLatest(h: History, k: nat)
    requires Increasing(h) && k < |h| && h[k].Present? && Now(h).Present?
    ensures h[k].mtime <= Now(h).mtime
  {
  }

  /** A modification time belongs to one version of the file. */
  lemma SameTimeSameVersion(h: History, i: nat, j: nat)
    requires Increasing(h) && i < |h| && j < |h| && h[i].Present? && h[j].Present? && h[i].mtime == h[j].mtime
    ensures i == j
  {
  }
}
