/** The two record shapes of the pipeline: what `scrape_page` returns for one
    page, and the contact row that `crawl_and_scrape` emits, with the rule
    that expands the first into the second. */
module Records {
  import opened Common

  /** The dictionary `scrape_page` returns for a page it could fetch:
      the page URL, the person and organisation names in the order the
      recogniser reported them, and the (already de-duplicated) emails and
      phone numbers. */
  datatype PageRecord = PageRecord(
    url: string,
    names: seq<string>,
    orgs: seq<string>,
    emails: seq<string>,
    phones: seq<string>)

  /** One output row: the columns Person Name, Designation, Company,
      Email(s), Phone(s), Source URL. */
  datatype ContactRecord = ContactRecord(
    personName: Option<string>,
    designation: Option<string>,
    company: Option<string>,
    emails: Option<string>,
    phones: Option<string>,
    sourceUrl: string)

  /** `", ".join(xs) if xs else None`. */
  function JoinedOrNone(xs: seq<string>): (r: Option<string>)
    ensures r.None? <==> xs == []
    ensures xs != [] ==> r == Some(Join(xs, ", "))
  {
    if xs == [] then None else Some(Join(xs, ", "))
  }

  /** `max(len(names), 1)`: one row per name, or a single placeholder row. */
  function RowCount(rec: PageRecord): (n: nat)
    ensures n >= 1 && n >= |rec.names|
    ensures n == |rec.names| || (rec.names == [] && n == 1)
  {
    if |rec.names| > 0 then |rec.names| else 1
  }

  /** Row `i` of a page's expansion. */
  function PageRow(rec: PageRecord, i: nat): ContactRecord
  {
    ContactRecord(
      if i < |rec.names| then Some(rec.names[i]) else None,
      None,
      if rec.orgs != [] then Some(rec.orgs[0]) else None,
      JoinedOrNone(rec.emails),
      JoinedOrNone(rec.phones),
      rec.url)
  }

  /** The rows one successfully scraped page contributes, in order. */
  function PageRows(rec: PageRecord): (rows: seq<ContactRecord>)
    ensures |rows| == RowCount(rec)
  {
    seq(RowCount(rec), i requires 0 <= i => PageRow(rec, i))
  }

  /** What each row of a page's expansion holds: name `i` (or none), no
      designation, the first organisation (or none), the page's joined
      emails and phones (absent when empty) and the page URL; so all rows
      of a page agree on everything but the name. */
  lemma PageRowsFields(rec: PageRecord)
    ensures forall i | 0 <= i < |PageRows(rec)| ::
      && PageRows(rec)[i].personName == (if rec.names == [] then None else Some(rec.names[i]))
      && PageRows(rec)[i].designation == None
      && (PageRows(rec)[i].company.Some? <==> rec.orgs != [])
      && (rec.orgs != [] ==> PageRows(rec)[i].company == Some(rec.orgs[0]))
      && PageRows(rec)[i].emails == (if rec.emails == [] then None else Some(Join(rec.emails, ", ")))
      && PageRows(rec)[i].phones == (if rec.phones == [] then None else Some(Join(rec.phones, ", ")))
      && PageRows(rec)[i].sourceUrl == rec.url
    ensures forall i, j | 0 <= i < j < |PageRows(rec)| ::
      && PageRows(rec)[i].company == PageRows(rec)[j].company
      && PageRows(rec)[i].emails == PageRows(rec)[j].emails
      && PageRows(rec)[i].phones == PageRows(rec)[j].phones
  {
  }
}
