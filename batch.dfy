/** The batch selection in `main`: the URLs of the candidate pool that are
    not yet visited, listed in some fixed but unspecified order, truncated
    to the number of websites requested for this run. */
module BatchSelector {
  import opened Common

  /** `list(s)` for a set `s`: its elements, each once, in an order that is
      fixed for a given set but that the model does not specify. */
  ghost function Enumerate(s: set<string>): (r: seq<string>)
    ensures |r| == |s|
    ensures Distinct(r)
    ensures forall x :: x in r <==> x in s
  {
    if s == {} then []
    else
      var x :| x in s;
      var rest := Enumerate(s - {x});
      assert x !in rest;
      [x] + rest
  }

  /** What the selection yields: a warning that nothing is left to crawl,
      or the next batch. */
  datatype Selection = NoNewUrls | Batch(urls: seq<string>)

  /** `remaining_urls = list(all_urls - visited_links)`; stop with a
      warning if it is empty; otherwise `remaining_urls[:num_websites]`. */
  ghost function SelectBatch(pool: set<string>, visited: set<string>, numWebsites: nat): (b: Selection)
    ensures b.NoNewUrls? <==> pool <= visited
    ensures b.Batch? ==>
      && Distinct(b.urls)
      && (forall u | u in b.urls :: u in pool && u !in visited)
      && |b.urls| == if numWebsites < |pool - visited| then numWebsites else |pool - visited|
  {
    var remaining := Enumerate(pool - visited);
    if remaining == [] then
      assert pool - visited == {};
      assert pool <= visited by {
        forall u | u in pool ensures u in visited {
          assert u !in pool - visited;
        }
      }
      NoNewUrls
    else
      var batch := remaining[..if numWebsites < |remaining| then numWebsites else |remaining|];
      assert forall i, j | 0 <= i < j < |batch| :: batch[i] == remaining[i] && batch[j] == remaining[j];
      assert forall u | u in batch :: u in remaining;
      assert remaining[0] in pool - visited;
      Batch(batch)
  }

  /** When no more URLs remain than were asked for, the batch is all of
      them. */
  lemma {:induction false} BatchTakesAllRemaining(pool: set<string>, visited: set<string>, numWebsites: nat)
    requires |pool - visited| <= numWebsites
    requires !(pool <= visited)
    ensures SelectBatch(pool, visited, numWebsites).Batch?
    ensures forall u :: u in SelectBatch(pool, visited, numWebsites).urls <==> u in pool && u !in visited
  {
    var b := SelectBatch(pool, visited, numWebsites);
    var remaining := Enumerate(pool - visited);
    assert b.urls == remaining;
  }
}
