/** The reordering in `search_urls`: each search hit whose domain ends in
    `.in` or contains `india` is inserted at the front of the list, every
    other hit is appended, and the list is cut to `max_results`. Because of
    the front insertions, preferred hits come out in reverse order of
    arrival, the others in order of arrival. */
module SearchOrdering {
  import opened Common

  /** One search hit: its URL and the lower-cased netloc of that URL. */
  datatype SearchHit = SearchHit(url: string, domain: string)

  /** `domain.endswith('.in') or 'india' in domain` */
  predicate IsPreferred(domain: string)
  {
    EndsWith(domain, ".in") || Contains(domain, "india")
  }

  /** The URLs of the hits, in arrival order. */
  function Urls(hits: seq<SearchHit>): (r: seq<string>)
    ensures |r| == |hits|
  {
    if hits == [] then [] else Urls(hits[..|hits| - 1]) + [hits[|hits| - 1].url]
  }

  /** The preferred URLs, in arrival order. */
  function PreferredUrls(hits: seq<SearchHit>): seq<string>
  {
    if hits == [] then []
    else
      var last := hits[|hits| - 1];
      PreferredUrls(hits[..|hits| - 1]) + (if IsPreferred(last.domain) then [last.url] else [])
  }

  /** The other URLs, in arrival order. */
  function OtherUrls(hits: seq<SearchHit>): (r: seq<string>)
    ensures |PreferredUrls(hits)| + |r| == |hits|
  {
    if hits == [] then []
    else
      var last := hits[|hits| - 1];
      OtherUrls(hits[..|hits| - 1]) + (if IsPreferred(last.domain) then [] else [last.url])
  }

  function Reverse(s: seq<string>): (r: seq<string>)
    ensures |r| == |s|
  {
    if s == [] then [] else [s[|s| - 1]] + Reverse(s[..|s| - 1])
  }

  /** The list before truncation: preferred URLs last-first, then the rest
      first-first. */
  function Arranged(hits: seq<SearchHit>): (r: seq<string>)
    ensures |r| == |hits|
  {
    Reverse(PreferredUrls(hits)) + OtherUrls(hits)
  }

  lemma {:induction false} ReverseAt(s: seq<string>, k: int)
    requires 0 <= k < |s|
    ensures |Reverse(s)| == |s|
    ensures Reverse(s)[k] == s[|s| - 1 - k]
  {
    if k > 0 {
      ReverseAt(s[..|s| - 1], k - 1);
    } else if |s| > 1 {
      ReverseAt(s[..|s| - 1], 0);
    }
  }

  lemma {:induction false} ReverseMultiset(s: seq<string>)
    ensures multiset(Reverse(s)) == multiset(s)
  {
    if s != [] {
      ReverseMultiset(s[..|s| - 1]);
      assert s == s[..|s| - 1] + [s[|s| - 1]];
    }
  }

  /** The arrangement is a permutation of the URLs: nothing is lost or
      duplicated before truncation. */
  lemma {:induction false} ArrangedIsPermutation(hits: seq<SearchHit>)
    ensures multiset(Arranged(hits)) == multiset(Urls(hits))
  {
    if hits != [] {
      var init := hits[..|hits| - 1];
      ArrangedIsPermutation(init);
      ReverseMultiset(PreferredUrls(hits));
      ReverseMultiset(PreferredUrls(init));
    }
  }

  /** One more hit: a preferred URL goes to the front, any other to the
      back. */
  lemma ArrangedSnoc(hits: seq<SearchHit>, hit: SearchHit)
    ensures Arranged(hits + [hit])
         == if IsPreferred(hit.domain) then [hit.url] + Arranged(hits) else Arranged(hits) + [hit.url]
  {
    var all := hits + [hit];
    assert all[..|all| - 1] == hits && all[|all| - 1] == hit;
    var p := PreferredUrls(hits);
    if IsPreferred(hit.domain) {
      assert PreferredUrls(all) == p + [hit.url];
      assert OtherUrls(all) == OtherUrls(hits);
      assert (p + [hit.url])[..|p|] == p;
      assert Reverse(p + [hit.url]) == [hit.url] + Reverse(p);
    } else {
      assert PreferredUrls(all) == p;
      assert OtherUrls(all) == OtherUrls(hits) + [hit.url];
    }
  }

  /** The loop of `search_urls` and its final slice `urls[:max_results]`. */
  method SearchUrls(hits: seq<SearchHit>, maxResults: nat) returns (urls: seq<string>)
    ensures urls == Arranged(hits)[..if maxResults < |hits| then maxResults else |hits|]
    ensures multiset(urls) <= multiset(Urls(hits))
  {
    urls := [];
    for i := 0 to |hits|
      invariant urls == Arranged(hits[..i])
      invariant |urls| == i
    {
      var hit := hits[i];
      assert hits[..i + 1] == hits[..i] + [hit];
      ArrangedSnoc(hits[..i], hit);
      if IsPreferred(hit.domain) {
        urls := [hit.url] + urls;
      } else {
        urls := urls + [hit.url];
      }
    }
    assert hits[..|hits|] == hits;
    ArrangedIsPermutation(hits);
    var n := if maxResults < |hits| then maxResults else |hits|;
    assert urls == urls[..n] + urls[n..];
    urls := urls[..n];
  }
}
