/** The link filter of `get_links`: the hrefs of the page, already resolved
    against the base URL, are kept when the base URL's netloc occurs
    anywhere in them (a substring test on the whole href, not a comparison
    of hosts), collected into a set, and the scan stops as soon as the set
    holds `max_pages` links. */
module LinkDiscoverer {
  import opened Common

  /** The hrefs of `hrefs` that pass the filter `domain in href`. */
  function Kept(domain: string, hrefs: seq<string>): set<string>
  {
    set h | h in hrefs && Contains(h, domain)
  }

  /** The specification of the scan: `acc` is the set collected so far,
      `hrefs` what is left of the page's links. */
  function Collect(domain: string, hrefs: seq<string>, maxPages: int, acc: set<string>): set<string>
  {
    if hrefs == [] then acc
    else if Contains(hrefs[0], domain) then
      var acc' := acc + {hrefs[0]};
      if |acc'| >= maxPages then acc' else Collect(domain, hrefs[1..], maxPages, acc')
    else Collect(domain, hrefs[1..], maxPages, acc)
  }

  lemma KeptCons(domain: string, hrefs: seq<string>)
    requires hrefs != []
    ensures Kept(domain, hrefs)
         == Kept(domain, hrefs[1..]) + (if Contains(hrefs[0], domain) then {hrefs[0]} else {})
  {
    assert forall x | x in hrefs :: x == hrefs[0] || x in hrefs[1..];
  }

  /** The scan adds to what it holds only links that pass the filter. */
  lemma {:induction false} CollectBetween(domain: string, hrefs: seq<string>, maxPages: int, acc: set<string>)
    ensures acc <= Collect(domain, hrefs, maxPages, acc) <= acc + Kept(domain, hrefs)
  {
    if hrefs != [] {
      KeptCons(domain, hrefs);
      if Contains(hrefs[0], domain) {
        CollectBetween(domain, hrefs[1..], maxPages, acc + {hrefs[0]});
      } else {
        CollectBetween(domain, hrefs[1..], maxPages, acc);
      }
    }
  }

  /** The scan either takes every link that passes the filter, or stops
      having reached the cap. */
  lemma {:induction false} CollectAllOrCap(domain: string, hrefs: seq<string>, maxPages: int, acc: set<string>)
    ensures Collect(domain, hrefs, maxPages, acc) == acc + Kept(domain, hrefs)
         || |Collect(domain, hrefs, maxPages, acc)| >= maxPages
  {
    if hrefs != [] {
      KeptCons(domain, hrefs);
      if Contains(hrefs[0], domain) {
        CollectAllOrCap(domain, hrefs[1..], maxPages, acc + {hrefs[0]});
      } else {
        CollectAllOrCap(domain, hrefs[1..], maxPages, acc);
      }
    }
  }

  /** Starting below the cap, the scan never holds more than
      `max(maxPages, 1)` links: the cap is tested right after each
      insertion, so a cap below one still lets the first link in. */
  lemma {:induction false} CollectBound(domain: string, hrefs: seq<string>, maxPages: int, acc: set<string>)
    requires acc == {} || |acc| < maxPages
    ensures |Collect(domain, hrefs, maxPages, acc)| <= if maxPages < 1 then 1 else maxPages
  {
    if hrefs != [] {
      if Contains(hrefs[0], domain) {
        var acc' := acc + {hrefs[0]};
        assert |acc'| <= |acc| + 1;
        if |acc'| < maxPages {
          CollectBound(domain, hrefs[1..], maxPages, acc');
        }
      } else {
        CollectBound(domain, hrefs[1..], maxPages, acc);
      }
    }
  }

  /** `get_links(base_url, max_pages)` up to its final `list(links)`:
      `page` is the resolved hrefs of the fetched page, or `None` when the
      request or the parse raised, in which case no links are found. */
  method GetLinks(page: Option<seq<string>>, domain: string, maxPages: int) returns (links: set<string>)
    ensures page.None? ==> links == {}
    ensures page.Some? ==> links == Collect(domain, page.value, maxPages, {})
    ensures forall l | l in links :: page.Some? && l in page.value && Contains(l, domain)
    ensures |links| <= if maxPages < 1 then 1 else maxPages
    ensures page.Some? ==> links == Kept(domain, page.value) || |links| >= maxPages
  {
    links := {};
    if page.None? {
      return;
    }
    var hrefs := page.value;
    var i := 0;
    while i < |hrefs|
      invariant 0 <= i <= |hrefs|
      invariant links == {} || |links| < maxPages
      invariant Collect(domain, hrefs[i..], maxPages, links) == Collect(domain, hrefs, maxPages, {})
    {
      var href := hrefs[i];
      assert hrefs[i..][0] == href && hrefs[i..][1..] == hrefs[i + 1..];
      if Contains(href, domain) {
        links := links + {href};
        if |links| >= maxPages {
          break;
        }
      }
      i := i + 1;
    }
    assert i == |hrefs| ==> hrefs[i..] == [];
    CollectBetween(domain, hrefs, maxPages, {});
    CollectAllOrCap(domain, hrefs, maxPages, {});
    CollectBound(domain, hrefs, maxPages, {});
  }
}
