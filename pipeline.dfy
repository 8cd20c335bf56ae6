/** The two stages run one after the other: the record the extractor
    packages is handed to the cleaner directly, in place of the JSON file
    between them. */
module Pipeline {
  import opened Records
  import Extract
  import Clean

  /** The row an extracted entry becomes once exploded. */
  function EntryRow(e: Extract.Entry): Clean.Row {
    Clean.Row(Some(e.title), Some(e.description), Some(e.openedOn), Some(e.link))
  }

  /** No field of the entry is the sentinel. */
  predicate EntryComplete(e: Extract.Entry) {
    e.title != Sentinel && e.description != Sentinel && e.openedOn != Sentinel && e.link != Sentinel
  }

  /** The cleaner's replacement undoes the extractor's sentinel: a text
      field comes back as the optional value the parser found, unless the
      found text was itself the sentinel. */
  lemma SentinelRoundTrip(found: Option<string>)
    requires found != Some(Sentinel)
    ensures Clean.Nullify(Some(Extract.TextOrSentinel(found))) == found
  {
  }

  /** A found href never turns into null: its prefixed link is longer than
      the sentinel. */
  lemma LinkNeverNulled(href: string)
    ensures Clean.Nullify(Some(Extract.LinkText(Some(href)))) == Some(Extract.Origin + href)
  {
    assert |Extract.Origin + href| > |Sentinel|;
  }

  /** A listing's entry is free of the sentinel iff the parser found all
      four fields and none of the three texts was literally the sentinel;
      the href itself may be anything. */
  lemma ListingCompleteIff(l: Extract.Listing)
    ensures EntryComplete(Extract.ListingEntry(l)) <==>
      l.heading.Some? && l.href.Some? && l.description.Some? && l.date.Some? &&
      l.heading.value != Sentinel && l.description.value != Sentinel && l.date.value != Sentinel
  {
    if l.href.Some? {
      assert |Extract.LinkText(l.href)| > |Sentinel|;
    }
  }

  /** Cleaning the record built from any entries never fails; it keeps
      exactly the entries free of the sentinel, each labelled by its
      position from 1, in order. */
  lemma ExtractThenClean(es: seq<Extract.Entry>)
    ensures Clean.CleanData(Some([Extract.Columns(es)])).Success?
    ensures Clean.Increasing(Clean.CleanData(Some([Extract.Columns(es)])).value)
    ensures forall x :: x in Clean.CleanData(Some([Extract.Columns(es)])).value ==>
      1 <= x.index <= |es| && x.row == EntryRow(es[x.index - 1]) && EntryComplete(es[x.index - 1])
    ensures forall k :: 0 <= k < |es| ==>
      (Clean.IndexedRow(k + 1, EntryRow(es[k])) in Clean.CleanData(Some([Extract.Columns(es)])).value
       <==> EntryComplete(es[k]))
  {
    var a := Extract.Columns(es);
    Clean.CleanSingleRecord(a);
    forall k | 0 <= k < |es|
      ensures Clean.FullRow(a, k) == EntryRow(es[k])
      ensures Clean.SentinelFree(a, k) == EntryComplete(es[k])
    {
      Extract.ColumnsAt(es, k);
    }
  }

  /** Extraction then cleaning: never an error; the spreadsheet rows are
      the sentinel-free listings of the successful pages, labelled by their
      page-then-listing position from 1, in that order. */
  method ScrapeAndClean(fetch: nat -> Extract.Response) returns (cleaned: Result<seq<Clean.IndexedRow>, Clean.CleanError>)
    ensures cleaned.Success? && Clean.Increasing(cleaned.value)
    ensures var es := Extract.RunEntries(Extract.Pages(fetch, Extract.PageCount));
      forall x :: x in cleaned.value ==>
        1 <= x.index <= |es| && x.row == EntryRow(es[x.index - 1]) && EntryComplete(es[x.index - 1])
    ensures var es := Extract.RunEntries(Extract.Pages(fetch, Extract.PageCount));
      forall k :: 0 <= k < |es| ==> (Clean.IndexedRow(k + 1, EntryRow(es[k])) in cleaned.value <==> EntryComplete(es[k]))
  {
    var internships := Extract.Scrape(fetch);
    cleaned := Clean.CleanData(Some(internships));
    ExtractThenClean(Extract.RunEntries(Extract.Pages(fetch, Extract.PageCount)));
  }
}
