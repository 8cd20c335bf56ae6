/** The extraction stage: five result pages are requested in turn; on every
    page answered with status 200 each listing appends one value to each of
    four parallel lists (a sentinel where a field is missing), and at the end
    the lists are packaged as the one columnar record of `internships`.

    Fetching and HTML parsing are not modelled: a page is given as its status
    and the listings its markup holds, and a listing as the four field values
    the parser found (or did not find). */
module Extract {
  import opened Records

  /** Pages 1 to PageCount are requested. */
  const PageCount: nat := 5

  /** The status code on which a page is parsed. */
  const OkStatus: int := 200

  /** The site origin prefixed to every listing link. */
  const Origin: string := "https://myjobmag.co.ke"

  /** One listing element as the parser sees it: the stripped text of its
      heading, the href of its first anchor, the stripped text of its
      description item and of its date item, each absent when not found. */
  datatype Listing = Listing(
    heading: Option<string>,
    href: Option<string>,
    description: Option<string>,
    date: Option<string>)

  /** The answer to one page request: its status code and the listing
      elements of its body, in document order. */
  datatype Response = Response(status: int, listings: seq<Listing>)

  /** The four values one listing appends, one per accumulator list. */
  datatype Entry = Entry(title: string, description: string, openedOn: string, link: string)

  /** A found text is kept as it is; a missing one becomes the sentinel. */
  function TextOrSentinel(found: Option<string>): string {
    match found
    case Some(text) => text
    case None => Sentinel
  }

  /** The link value: a present href is prefixed with the origin, a missing
      one becomes the sentinel. */
  function LinkText(href: Option<string>): string {
    match href
    case Some(h) => Origin + h
    case None => Sentinel
  }

  /** The entry one listing contributes. */
  function ListingEntry(l: Listing): Entry {
    Entry(TextOrSentinel(l.heading), TextOrSentinel(l.description), TextOrSentinel(l.date), LinkText(l.href))
  }

  /** The entries of a run of listings: entry k is that of listing k. */
  function ListingEntries(ls: seq<Listing>): (es: seq<Entry>)
    ensures |es| == |ls|
    ensures forall k :: 0 <= k < |ls| ==> es[k] == ListingEntry(ls[k])
  {
    seq(|ls|, k requires 0 <= k < |ls| => ListingEntry(ls[k]))
  }

  /** The entries one page contributes: those of its listings when its
      status is 200, and none otherwise. */
  function PageEntries(r: Response): seq<Entry> {
    if r.status == OkStatus then ListingEntries(r.listings) else []
  }

  /** The entries a sequence of pages contributes, page after page. */
  function RunEntries(pages: seq<Response>): seq<Entry> {
    if pages == [] then [] else RunEntries(pages[..|pages| - 1]) + PageEntries(pages[|pages| - 1])
  }

  /** The number of listings on the pages answered with status 200. */
  function ListingCount(pages: seq<Response>): nat {
    if pages == [] then 0
    else
      var last := pages[|pages| - 1];
      ListingCount(pages[..|pages| - 1]) + (if last.status == OkStatus then |last.listings| else 0)
  }

  /** The responses to the requests for pages 1 to n, in that order. */
  function Pages(fetch: nat -> Response, n: nat): (ps: seq<Response>)
    ensures |ps| == n
  {
    if n == 0 then [] else Pages(fetch, n - 1) + [fetch(n)]
  }

  /** The columnar record of a sequence of entries, one entry at a time. */
  function Columns(es: seq<Entry>): (a: Aggregate)
    ensures SameLength(a) && |a.title| == |es|
  {
    if es == [] then Aggregate([], [], [], [])
    else
      var a := Columns(es[..|es| - 1]);
      var e := es[|es| - 1];
      Aggregate(a.title + [e.title], a.description + [e.description], a.openedOn + [e.openedOn], a.link + [e.link])
  }

  /** Two columnar records, the second's values after the first's. */
  function Concat(a: Aggregate, b: Aggregate): Aggregate {
    Aggregate(a.title + b.title, a.description + b.description, a.openedOn + b.openedOn, a.link + b.link)
  }

  /** Field rules: a heading, description or date is its found text, or
      exactly the sentinel when missing; a found href is prefixed with the
      origin unconditionally, and a missing one gives the sentinel. */
  lemma ListingEntryFields(l: Listing)
    ensures ListingEntry(l).title == if l.heading.Some? then l.heading.value else Sentinel
    ensures ListingEntry(l).description == if l.description.Some? then l.description.value else Sentinel
    ensures ListingEntry(l).openedOn == if l.date.Some? then l.date.value else Sentinel
    ensures ListingEntry(l).link == if l.href.Some? then Origin + l.href.value else Sentinel
  {
  }

  /** A prefixed link starts with the origin and the rest of it is the href
      exactly as found, so the href can be recovered from the link. */
  lemma LinkTextPrefix(href: string)
    ensures |LinkText(Some(href))| == |Origin| + |href|
    ensures LinkText(Some(href))[..|Origin|] == Origin && LinkText(Some(href))[|Origin|..] == href
  {
  }

  /** Alignment: position k of every column holds the field of entry k. */
  lemma {:induction false} ColumnsAt(es: seq<Entry>, k: nat)
    requires k < |es|
    ensures Columns(es).title[k] == es[k].title && Columns(es).description[k] == es[k].description
    ensures Columns(es).openedOn[k] == es[k].openedOn && Columns(es).link[k] == es[k].link
  {
    if k < |es| - 1 {
      ColumnsAt(es[..|es| - 1], k);
    }
  }

  /** The columns of consecutive runs of entries concatenate. */
  lemma {:induction false} ColumnsAppend(es: seq<Entry>, fs: seq<Entry>)
    ensures Columns(es + fs) == Concat(Columns(es), Columns(fs))
    decreases |fs|
  {
    if fs == [] {
      assert es + fs == es;
    } else {
      var fs' := fs[..|fs| - 1];
      assert (es + fs)[..|es + fs| - 1] == es + fs';
      assert (es + fs)[|es + fs| - 1] == fs[|fs| - 1];
      ColumnsAppend(es, fs');
    }
  }

  /** Entries of consecutive page runs concatenate. */
  lemma {:induction false} RunEntriesAppend(a: seq<Response>, b: seq<Response>)
    ensures RunEntries(a + b) == RunEntries(a) + RunEntries(b)
    decreases |b|
  {
    if b == [] {
      assert a + b == a;
    } else {
      var b' := b[..|b| - 1];
      assert (a + b)[..|a + b| - 1] == a + b';
      assert (a + b)[|a + b| - 1] == b[|b| - 1];
      RunEntriesAppend(a, b');
    }
  }

  /** The run holds exactly as many entries as the successful pages hold
      listings. */
  lemma {:induction false} RunEntriesLength(pages: seq<Response>)
    ensures |RunEntries(pages)| == ListingCount(pages)
  {
    if pages != [] {
      RunEntriesLength(pages[..|pages| - 1]);
    }
  }

  /** Appending one page appends exactly its entries. */
  lemma RunEntriesSnoc(pages: seq<Response>, r: Response)
    ensures RunEntries(pages + [r]) == RunEntries(pages) + PageEntries(r)
  {
    assert (pages + [r])[..|pages|] == pages;
  }

  /** A page whose status is not 200 adds nothing, and the pages after it
      are processed as if it had not been requested. */
  lemma FailedPageSkipped(before: seq<Response>, r: Response, after: seq<Response>)
    requires r.status != OkStatus
    ensures RunEntries(before + [r] + after) == RunEntries(before) + RunEntries(after)
  {
    RunEntriesAppend(before + [r], after);
    RunEntriesSnoc(before, r);
  }

  /** Page-then-listing order: listing j of successful page i lands right
      after the listings of the successful pages before it. */
  lemma RunEntriesAt(pages: seq<Response>, i: nat, j: nat)
    requires i < |pages| && pages[i].status == OkStatus && j < |pages[i].listings|
    ensures ListingCount(pages[..i]) + j < |RunEntries(pages)|
    ensures RunEntries(pages)[ListingCount(pages[..i]) + j] == ListingEntry(pages[i].listings[j])
  {
    var before, page, after := pages[..i], pages[i], pages[i + 1..];
    assert pages == (before + [page]) + after;
    RunEntriesAppend(before + [page], after);
    RunEntriesSnoc(before, page);
    RunEntriesLength(before);
    var run := RunEntries(before) + ListingEntries(page.listings);
    assert run[|RunEntries(before)| + j] == ListingEntries(page.listings)[j];
  }

  /** The script's accumulators: the four parallel lists and the list of
      packaged records. */
  class Scraper {
    var titles: seq<string>
    var descriptions: seq<string>
    var openedDates: seq<string>
    var links: seq<string>
    var internships: seq<Aggregate>

    /** The four lists seen as one columnar record. */
    function Lists(): Aggregate
      reads this
    {
      Aggregate(titles, descriptions, openedDates, links)
    }

    /** The four lists always have the same length. */
    predicate Valid()
      reads this
    {
      SameLength(Lists())
    }

    /** All lists start empty. */
    constructor ()
      ensures Valid() && Lists() == Columns([]) && internships == []
    {
      titles, descriptions, openedDates, links := [], [], [], [];
      internships := [];
    }

    /** One listing appends exactly one value to each of the four lists. */
    method AppendListing(listing: Listing)
      requires Valid()
      modifies this
      ensures Valid()
      ensures Lists() == Concat(old(Lists()), Columns([ListingEntry(listing)]))
      ensures internships == old(internships)
    {
      var titleText := TextOrSentinel(listing.heading);
      titles := titles + [titleText];

      var jobLink := LinkText(listing.href);
      links := links + [jobLink];

      var descriptionText := TextOrSentinel(listing.description);
      descriptions := descriptions + [descriptionText];

      var openedText := TextOrSentinel(listing.date);
      openedDates := openedDates + [openedText];

      assert [ListingEntry(listing)][..0] == [];
    }

    /** One page: every listing of a page answered with status 200 is
        appended in document order; any other page appends nothing. */
    method ProcessPage(response: Response)
      requires Valid()
      modifies this
      ensures Valid()
      ensures Lists() == Concat(old(Lists()), Columns(PageEntries(response)))
      ensures internships == old(internships)
    {
      if response.status == OkStatus {
        var listings := response.listings;
        for j := 0 to |listings|
          invariant Valid() && internships == old(internships)
          invariant Lists() == Concat(old(Lists()), Columns(ListingEntries(listings[..j])))
        {
          ghost var done := ListingEntries(listings[..j]);
          assert ListingEntries(listings[..j + 1]) == done + [ListingEntry(listings[j])];
          ColumnsAppend(done, [ListingEntry(listings[j])]);
          AppendListing(listings[j]);
        }
        assert listings[..|listings|] == listings;
      } else {
        assert Columns([]) == Aggregate([], [], [], []);
      }
    }

    /** The four lists are packaged as one more record of `internships`. */
    method Package()
      requires Valid()
      modifies this
      ensures Valid() && Lists() == old(Lists())
      ensures internships == old(internships) + [Lists()]
    {
      internships := internships + [Lists()];
    }
  }

  /** The whole run: pages 1 to PageCount in order, then packaging; the
      result holds exactly one record, whose four lists are as long as the
      successful pages have listings. */
  method Scrape(fetch: nat -> Response) returns (internships: seq<Aggregate>)
    ensures internships == [Columns(RunEntries(Pages(fetch, PageCount)))]
    ensures SameLength(internships[0]) && |internships[0].title| == ListingCount(Pages(fetch, PageCount))
  {
    var scraper := new Scraper();
    for i := 1 to PageCount + 1
      invariant scraper.Valid() && scraper.internships == []
      invariant scraper.Lists() == Columns(RunEntries(Pages(fetch, i - 1)))
    {
      var response := fetch(i);
      RunEntriesSnoc(Pages(fetch, i - 1), response);
      ColumnsAppend(RunEntries(Pages(fetch, i - 1)), PageEntries(response));
      scraper.ProcessPage(response);
    }
    scraper.Package();
    RunEntriesLength(Pages(fetch, PageCount));
    internships := scraper.internships;
  }
}
