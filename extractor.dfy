/** The contact extractor `scrape_page`, with fetching, HTML parsing, the
    regular-expression scans and entity recognition taken as given: what is
    left is the email post-filter and the assembly of the page record. */
module ContactExtractor {
  import opened Common
  import opened Records

  /** What fetching and scanning one page yields before the post-filter:
      the PERSON and ORG entities (stripped, in recogniser order), and the
      distinct email and phone matches. */
  datatype PageExtract = PageExtract(
    names: seq<string>,
    orgs: seq<string>,
    emails: seq<string>,
    phones: seq<string>)

  /** An address the post-filter drops: `email.startswith(('noreply',
      'no-reply', 'donotreply'))`, case-sensitive, on the whole address. */
  predicate IsNoReply(email: string)
  {
    StartsWith(email, "noreply") || StartsWith(email, "no-reply") || StartsWith(email, "donotreply")
  }

  /** The list comprehension that drops no-reply addresses, keeping the
      others in their order. */
  function FilterEmails(emails: seq<string>): (kept: seq<string>)
    ensures |kept| <= |emails|
  {
    if emails == [] then []
    else if IsNoReply(emails[0]) then FilterEmails(emails[1..])
    else [emails[0]] + FilterEmails(emails[1..])
  }

  /** No kept address is a no-reply one, every other address is kept, and
      nothing new appears. */
  lemma {:induction false} FilterEmailsMembers(emails: seq<string>)
    ensures forall e | e in FilterEmails(emails) :: e in emails && !IsNoReply(e)
    ensures forall e | e in emails && !IsNoReply(e) :: e in FilterEmails(emails)
  {
    if emails != [] {
      FilterEmailsMembers(emails[1..]);
      assert forall e | e in emails :: e == emails[0] || e in emails[1..];
    }
  }

  /** The filter works element by element, so it commutes with
      concatenation: it keeps the relative order of the addresses. */
  lemma {:induction false} FilterEmailsAppend(a: seq<string>, b: seq<string>)
    ensures FilterEmails(a + b) == FilterEmails(a) + FilterEmails(b)
  {
    if a == [] {
      assert a + b == b;
    } else {
      var ab := a + b;
      assert ab[0] == a[0] && ab[1..] == a[1..] + b;
      FilterEmailsAppend(a[1..], b);
      if IsNoReply(a[0]) {
        assert FilterEmails(ab) == FilterEmails(a[1..] + b);
        assert FilterEmails(a) == FilterEmails(a[1..]);
      } else {
        assert FilterEmails(ab) == [a[0]] + FilterEmails(a[1..] + b);
        assert FilterEmails(a) == [a[0]] + FilterEmails(a[1..]);
      }
    }
  }

  /** Distinct matches stay distinct after filtering. */
  lemma {:induction false} FilterEmailsDistinct(emails: seq<string>)
    requires Distinct(emails)
    ensures Distinct(FilterEmails(emails))
  {
    if emails != [] {
      var tail := emails[1..];
      assert Distinct(tail) by {
        forall i, j | 0 <= i < j < |tail| ensures tail[i] != tail[j] {
          assert tail[i] == emails[i + 1] && tail[j] == emails[j + 1];
        }
      }
      FilterEmailsDistinct(tail);
      FilterEmailsMembers(tail);
      assert emails[0] !in tail by {
        forall k | 0 <= k < |tail| ensures tail[k] != emails[0] {
          assert tail[k] == emails[k + 1];
        }
      }
    }
  }

  /** Filtering twice drops nothing more. */
  lemma {:induction false} FilterEmailsIdempotent(emails: seq<string>)
    ensures FilterEmails(FilterEmails(emails)) == FilterEmails(emails)
  {
    if emails != [] {
      FilterEmailsIdempotent(emails[1..]);
      if !IsNoReply(emails[0]) {
        FilterEmailsAppend([emails[0]], FilterEmails(emails[1..]));
        assert FilterEmails([emails[0]]) == [emails[0]] by {
          assert [emails[0]][1..] == [];
        }
      }
    }
  }

  /** `scrape_page(url)`: `None` when fetching or parsing raised, otherwise
      the page record, whose url is the requested one and whose emails have
      been through the post-filter. */
  function ScrapePage(url: string, fetched: Option<PageExtract>): (r: Option<PageRecord>)
    ensures r.Some? <==> fetched.Some?
    ensures r.Some? ==>
      && r.value.url == url
      && r.value.names == fetched.value.names
      && r.value.orgs == fetched.value.orgs
      && r.value.phones == fetched.value.phones
      && (forall e | e in r.value.emails :: !IsNoReply(e))
      && (forall e | e in fetched.value.emails :: e in r.value.emails <==> !IsNoReply(e))
    ensures r.Some? ==> r.value.emails == FilterEmails(fetched.value.emails)
  {
    match fetched
    case None => None
    case Some(x) =>
      FilterEmailsMembers(x.emails);
      Some(PageRecord(url, x.names, x.orgs, FilterEmails(x.emails), x.phones))
  }
}
