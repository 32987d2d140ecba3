/** `scrapeWorkMetadata`: the choice between the two scrapers by tag language. */
module Metadata {

  import opened Wrappers
  import opened Works
  import opened Hvdb
  import opened Dlsite

  /** 'en-us' scrapes HVDB alone; every other tag language scrapes DLsite in that language. */
  function ScrapeWorkMetadata(id: string, tagLanguage: string, dlsite: Fetched<DlsitePage>, hvdb: Fetched<seq<HtmlEvent>>): Result<Work>
  {
    if tagLanguage == "en-us" then HvdbScrape(id, hvdb) else DlsiteScrape(id, tagLanguage, dlsite, hvdb)
  }

  /** For 'en-us' the DLsite page plays no part, and the result carries HVDB's boolean nsfw flag if any. */
  lemma EnglishIgnoresDlsite(id: string, d1: Fetched<DlsitePage>, d2: Fetched<DlsitePage>, hvdb: Fetched<seq<HtmlEvent>>)
    ensures ScrapeWorkMetadata(id, "en-us", d1, hvdb) == ScrapeWorkMetadata(id, "en-us", d2, hvdb)
    ensures ScrapeWorkMetadata(id, "en-us", d1, hvdb) == HvdbScrape(id, hvdb)
  {
  }

  /** Every tag language but 'en-us' scrapes DLsite, in that language. */
  lemma OtherLanguagesUseDlsite(id: string, tagLanguage: string, dlsite: Fetched<DlsitePage>, hvdb: Fetched<seq<HtmlEvent>>)
    requires tagLanguage != "en-us"
    ensures ScrapeWorkMetadata(id, tagLanguage, dlsite, hvdb) == DlsiteScrape(id, tagLanguage, dlsite, hvdb)
  {
  }

  /** Whatever the language, a resolved scrape is for the requested work and has some tag or voice actor. */
  lemma ResolvedScrape(id: string, tagLanguage: string, dlsite: Fetched<DlsitePage>, hvdb: Fetched<seq<HtmlEvent>>)
    requires ScrapeWorkMetadata(id, tagLanguage, dlsite, hvdb).Ok?
    ensures ScrapeWorkMetadata(id, tagLanguage, dlsite, hvdb).value.id == id
    ensures ScrapeWorkMetadata(id, tagLanguage, dlsite, hvdb).value.tags != []
         || ScrapeWorkMetadata(id, tagLanguage, dlsite, hvdb).value.vas != []
  {
    if tagLanguage == "en-us" {
      HvdbScrapeResolved(id, hvdb);
    } else {
      DlsiteScrapeResolved(id, tagLanguage, dlsite, hvdb);
    }
  }

  /** A timed-out fetch of the page the language selects rejects with 'request timeout'. */
  lemma TimeoutRejects(id: string, tagLanguage: string, hvdb: Fetched<seq<HtmlEvent>>)
    ensures tagLanguage != "en-us" ==> ScrapeWorkMetadata(id, tagLanguage, TimedOut, hvdb) == Err("request timeout")
    ensures ScrapeWorkMetadata(id, "en-us", TimedOut, TimedOut) == Err("request timeout")
  {
  }
}
