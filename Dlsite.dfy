/**
 * The DLsite scraper `scrapeWorkMetadataFromDLsite`: the locale switch, the
 * reading of the work-outline table, and the fall-back to HVDB for voice
 * actors with its merge rule.
 */
module Dlsite {

  import opened Wrappers
  import opened Works
  import opened Names
  import opened Hvdb

  /** The cookie sent with the request and the three row headers looked up in the outline table. */
  datatype Labels = Labels(cookieLocale: string, ageRatings: string, genre: string, cv: string)

  /** The `switch (tagLanguage)`: Japanese, traditional Chinese, and simplified Chinese for anything else. */
  function LocaleLabels(tagLanguage: string): (l: Labels)
    ensures l.cookieLocale == "locale=" + (if tagLanguage == "ja-jp" || tagLanguage == "zh-tw" then tagLanguage else "zh-cn")
  {
    match tagLanguage
    case "ja-jp" => Labels("locale=ja-jp", "年齢指定", "ジャンル", "声優")
    case "zh-tw" => Labels("locale=zh-tw", "年齡指定", "分類", "聲優")
    case _ => Labels("locale=zh-cn", "年龄指定", "分类", "声优")
  }

  /** Any tag language other than 'ja-jp' and 'zh-tw' reads the page exactly as 'zh-cn' does. */
  lemma LocaleFallback(tagLanguage: string)
    requires tagLanguage != "ja-jp" && tagLanguage != "zh-tw"
    ensures LocaleLabels(tagLanguage) == LocaleLabels("zh-cn")
  {
  }

  /** The three locales look rows up under pairwise different headers. */
  lemma LocaleHeadersDiffer()
    ensures var ja, tw, cn := LocaleLabels("ja-jp"), LocaleLabels("zh-tw"), LocaleLabels("zh-cn");
            ja.ageRatings != tw.ageRatings && tw.ageRatings != cn.ageRatings && ja.ageRatings != cn.ageRatings
            && ja.genre != tw.genre && tw.genre != cn.genre && ja.genre != cn.genre
            && ja.cv != tw.cv && tw.cv != cn.cv && ja.cv != cn.cv
  {
    assert "年齢指定"[1] != "年齡指定"[1] && "年齡指定"[1] != "年龄指定"[1] && "年齢指定"[1] != "年龄指定"[1];
    assert "ジャンル"[0] != "分類"[0] && "分類"[1] != "分类"[1];
    assert "声優"[0] != "聲優"[0] && "聲優"[0] != "声优"[0] && "声優"[1] != "声优"[1];
  }

  /** A genre link in a table cell: its text and the number its href carries. */
  datatype GenreLink = GenreLink(name: string, id: int)

  /**
   * A row of `#work_outline`: the text of its `th`, the text of its `td`, the
   * genre links (`td > div > a`) and the names of the direct links (`td > a`).
   */
  datatype OutlineRow = OutlineRow(header: string, cellText: string, genreLinks: seq<GenreLink>, linkNames: seq<string>)

  /** What the scraper reads from the page: title link text, the maker link (absent: `None`) and the outline. */
  datatype DlsitePage = DlsitePage(title: string, maker: Option<Circle>, outline: seq<OutlineRow>)

  /** The rows whose header text is exactly `header`, in table order. */
  function RowsWith(rows: seq<OutlineRow>, header: string): (r: seq<OutlineRow>)
    ensures |r| <= |rows|
    ensures forall row | row in r :: row in rows && row.header == header
    ensures forall row | row in rows && row.header == header :: row in r
  {
    if rows == [] then []
    else (if rows[0].header == header then [rows[0]] else []) + RowsWith(rows[1..], header)
  }

  /** `.children('td').text()` over several rows: their cell texts concatenated. */
  function CellText(rows: seq<OutlineRow>): string
  {
    if rows == [] then [] else rows[0].cellText + CellText(rows[1..])
  }

  /** The tags the genre rows list, one per link, in order. */
  function GenreTags(rows: seq<OutlineRow>): (tags: seq<Credit>)
    ensures forall t | t in tags :: t.id.Some? && t.id.value.NumId? && t.name.Some?
  {
    if rows == [] then []
    else
      seq(|rows[0].genreLinks|, k requires 0 <= k < |rows[0].genreLinks| =>
        Credit(Some(NumId(rows[0].genreLinks[k].id)), Some(rows[0].genreLinks[k].name)))
      + GenreTags(rows[1..])
  }

  /** The genre links of several rows, in table order. */
  function GenreLinks(rows: seq<OutlineRow>): seq<GenreLink>
  {
    if rows == [] then [] else rows[0].genreLinks + GenreLinks(rows[1..])
  }

  /** Every genre link becomes one tag, in order, carrying the link's number as id and its text as name. */
  lemma {:induction false} GenreTagsPerLink(rows: seq<OutlineRow>)
    ensures |GenreTags(rows)| == |GenreLinks(rows)|
    ensures forall k | 0 <= k < |GenreTags(rows)| ::
      GenreTags(rows)[k] == Credit(Some(NumId(GenreLinks(rows)[k].id)), Some(GenreLinks(rows)[k].name))
    decreases |rows|
  {
    if rows != [] {
      GenreTagsPerLink(rows[1..]);
      var links := rows[0].genreLinks;
      var n := |links|;
      var tags, all := GenreTags(rows), GenreLinks(rows);
      forall k | 0 <= k < |tags|
        ensures tags[k] == Credit(Some(NumId(all[k].id)), Some(all[k].name))
      {
        if k >= n {
          assert tags[k] == GenreTags(rows[1..])[k - n];
          assert all[k] == GenreLinks(rows[1..])[k - n];
        }
      }
    }
  }

  /** The names the voice-actor rows link to, in order. */
  function LinkNames(rows: seq<OutlineRow>): seq<string>
  {
    if rows == [] then [] else rows[0].linkNames + LinkNames(rows[1..])
  }

  /** One credit per voice-actor name, with `hashNameIntoInt(name)` as its id. */
  function HashedCredits(names: seq<string>): (vas: seq<Credit>)
    ensures |vas| == |names|
    ensures forall k | 0 <= k < |vas| :: vas[k].name == Some(names[k]) && VaWellFormed(vas[k])
  {
    seq(|names|, k requires 0 <= k < |names| => Credit(Some(NumId(NameHash(names[k]))), Some(names[k])))
  }

  /** The age-rating cell reads exactly '18禁'. */
  predicate AdultOnly(rows: seq<OutlineRow>, labels: Labels)
  {
    CellText(RowsWith(rows, labels.ageRatings)) == "18禁"
  }

  /**
   * The parse step: title, circle, nsfw 'true'/'false', tags and voice actors.
   * A page without a maker link throws on `circleUrl.substr`.
   */
  function ReadPage(id: string, labels: Labels, page: DlsitePage): (r: Result<Work>)
  {
    match page.maker
    case None => Err(TypeError)
    case Some(circle) =>
      Ok(Work(id, Some(page.title), Some(circle),
              Some(NsfwText(if AdultOnly(page.outline, labels) then "true" else "false")),
              GenreTags(RowsWith(page.outline, labels.genre)),
              HashedCredits(LinkNames(RowsWith(page.outline, labels.cv)))))
  }

  /**
   * What a page read promises: its id and title, the maker as circle, the flag
   * from the age-rating row, one tag per genre link and one voice actor per
   * voice-actor link, named after it and hashed from its name.
   */
  lemma ReadPageFields(id: string, labels: Labels, page: DlsitePage)
    ensures ReadPage(id, labels, page).Ok? <==> page.maker.Some?
    ensures ReadPage(id, labels, page).Ok? ==>
      var w := ReadPage(id, labels, page).value;
      var names := LinkNames(RowsWith(page.outline, labels.cv));
      && w.id == id
      && w.title == Some(page.title)
      && w.circle == page.maker
      && (w.nsfw == Some(NsfwText("true")) <==> AdultOnly(page.outline, labels))
      && (w.nsfw == Some(NsfwText("false")) <==> !AdultOnly(page.outline, labels))
      && |w.tags| == |GenreLinks(RowsWith(page.outline, labels.genre))|
      && (forall k | 0 <= k < |w.tags| ::
            var link := GenreLinks(RowsWith(page.outline, labels.genre))[k];
            w.tags[k] == Credit(Some(NumId(link.id)), Some(link.name)))
      && |w.vas| == |names|
      && (forall k | 0 <= k < |w.vas| :: w.vas[k] == Credit(Some(NumId(NameHash(names[k]))), Some(names[k])))
  {
    GenreTagsPerLink(RowsWith(page.outline, labels.genre));
  }

  /** The locale only matters through the row headers: a page without matching rows has no tags or voice actors. */
  lemma {:induction false} UnlabelledRowsIgnored(rows: seq<OutlineRow>, header: string)
    requires forall row | row in rows :: row.header != header
    ensures RowsWith(rows, header) == []
  {
    if rows != [] {
      UnlabelledRowsIgnored(rows[1..], header);
    }
  }

  // ---------------------------------------------------------------------------
  // Voice actors from HVDB

  /** `hasLetter(element.name)`; a missing name is iterated over as nothing, so it has no letter. */
  predicate NameHasLetter(c: Credit)
  {
    c.name.Some? && ContainsLetter(c.name.value)
  }

  /** The HVDB voice actors whose names have no ASCII letter, in their original order. */
  function WithoutLatinNames(vas: seq<Credit>): (r: seq<Credit>)
    ensures |r| <= |vas|
    ensures forall c :: c in r <==> c in vas && !NameHasLetter(c)
  {
    if vas == [] then []
    else (if NameHasLetter(vas[0]) then [] else [vas[0]]) + WithoutLatinNames(vas[1..])
  }

  /** Filtering two stretches filters each in turn: order and repeats are kept. */
  lemma {:induction false} WithoutLatinNamesConcat(a: seq<Credit>, b: seq<Credit>)
    ensures WithoutLatinNames(a + b) == WithoutLatinNames(a) + WithoutLatinNames(b)
    decreases |a|
  {
    if a == [] {
      assert a + b == b;
    } else {
      assert (a + b)[0] == a[0] && (a + b)[1..] == a[1..] + b;
      WithoutLatinNamesConcat(a[1..], b);
    }
  }

  /** A single voice actor is kept exactly when its name has no ASCII letter. */
  lemma WithoutLatinNamesOne(c: Credit)
    ensures WithoutLatinNames([c]) == if NameHasLetter(c) then [] else [c]
  {
    assert [c][1..] == [];
  }

  /**
   * The merge: at most one HVDB voice actor replaces the list; with more, only
   * those without ASCII letters are appended (Japanese names, the Latin
   * transliterations being dropped).
   */
  function MergedVas(vas: seq<Credit>, hvdbVas: seq<Credit>): seq<Credit>
  {
    if |hvdbVas| <= 1 then hvdbVas else vas + WithoutLatinNames(hvdbVas)
  }

  /** The source's `forEach` with `hasLetter` on each name. */
  method MergeVas(vas: seq<Credit>, hvdbVas: seq<Credit>) returns (merged: seq<Credit>)
    ensures merged == MergedVas(vas, hvdbVas)
  {
    if |hvdbVas| <= 1 {
      return hvdbVas;
    }
    merged := vas;
    var i := 0;
    while i < |hvdbVas|
      invariant 0 <= i <= |hvdbVas|
      invariant merged + WithoutLatinNames(hvdbVas[i..]) == vas + WithoutLatinNames(hvdbVas)
    {
      var rest := hvdbVas[i..];
      assert rest[0] == hvdbVas[i] && rest[1..] == hvdbVas[i + 1..];
      var letter := false;
      if hvdbVas[i].name.Some? {
        letter := HasLetter(hvdbVas[i].name.value);
      }
      assert letter == NameHasLetter(hvdbVas[i]);
      if !letter {
        assert WithoutLatinNames(rest) == [hvdbVas[i]] + WithoutLatinNames(hvdbVas[i + 1..]);
        merged := merged + [hvdbVas[i]];
      } else {
        assert WithoutLatinNames(rest) == WithoutLatinNames(hvdbVas[i + 1..]);
      }
      i := i + 1;
    }
    assert hvdbVas[i..] == [];
  }

  /**
   * With two or more HVDB voice actors the merge keeps exactly the letter-free
   * ones, each still hashed from its name, in their original order: each part
   * of the list contributes its own letter-free names, one after the other.
   */
  lemma MergeKeepsNativeNames(hvdbVas: seq<Credit>)
    requires |hvdbVas| >= 2
    requires forall va | va in hvdbVas :: VaWellFormed(va)
    ensures forall c :: c in MergedVas([], hvdbVas) <==> c in hvdbVas && !NameHasLetter(c)
    ensures forall c | c in MergedVas([], hvdbVas) :: VaWellFormed(c)
    ensures forall a, b | a + b == hvdbVas :: MergedVas([], hvdbVas) == WithoutLatinNames(a) + WithoutLatinNames(b)
  {
    forall a, b | a + b == hvdbVas
      ensures MergedVas([], hvdbVas) == WithoutLatinNames(a) + WithoutLatinNames(b)
    {
      WithoutLatinNamesConcat(a, b);
    }
  }

  /** A Latin-only pair of HVDB names merges to nothing; a lone Latin name is kept. */
  lemma MergeExamples()
    ensures MergedVas([], [Credit(None, Some("Aoi"))]) == [Credit(None, Some("Aoi"))]
    ensures MergedVas([], [Credit(None, Some("Aoi")), Credit(None, Some("Rin"))]) == []
    ensures MergedVas([], [Credit(None, Some("Aoi")), Credit(None, Some("声優"))]) == [Credit(None, Some("声優"))]
  {
    HasLetterExamples();
    assert Names.IsAsciiLetter("Rin"[0] as int);
    var two := [Credit(None, Some("Aoi")), Credit(None, Some("Rin"))];
    assert two[1..][1..] == [];
    var mixed := [Credit(None, Some("Aoi")), Credit(None, Some("声優"))];
    assert mixed[1..][1..] == [];
  }

  // ---------------------------------------------------------------------------
  // The scrape

  /**
   * `scrapeWorkMetadataFromDLsite`: fetch failures and a page without maker
   * reject; voice actors found on the page resolve at once; otherwise the HVDB
   * scrape supplies them, its failure rejecting with a fixed message, and a work
   * left without tags and voice actors rejects.
   */
  function DlsiteScrape(id: string, tagLanguage: string, response: Fetched<DlsitePage>, hvdb: Fetched<seq<HtmlEvent>>): Result<Work>
  {
    match response
    case TimedOut => Err("request timeout")
    case FetchFailed(message) => Err(message)
    case Response(ok, statusText, page) =>
      if !ok then Err("Couldn't fetch work page HTML, received " + statusText)
      else
        match ReadPage(id, LocaleLabels(tagLanguage), page)
        case Err(message) => Err(message)
        case Ok(work) =>
          if work.vas != [] then Ok(work)
          else
            match HvdbScrape(id, hvdb)
            case Err(_) => Err("Couldn't parse CV data from HVDB work page.")
            case Ok(metadata) =>
              var merged := work.(vas := MergedVas(work.vas, metadata.vas));
              if merged.tags == [] && merged.vas == [] then Err("Couldn't parse data from DLsite work page.")
              else Ok(merged)
  }

  /** When the page lists voice actors, HVDB is never consulted: its answer cannot change the result. */
  lemma PageVoicesSkipHvdb(id: string, tagLanguage: string, page: DlsitePage, h1: Fetched<seq<HtmlEvent>>, h2: Fetched<seq<HtmlEvent>>)
    requires ReadPage(id, LocaleLabels(tagLanguage), page).Ok?
    requires ReadPage(id, LocaleLabels(tagLanguage), page).value.vas != []
    ensures DlsiteScrape(id, tagLanguage, Response(true, "OK", page), h1) == DlsiteScrape(id, tagLanguage, Response(true, "OK", page), h2)
    ensures DlsiteScrape(id, tagLanguage, Response(true, "OK", page), h1) == ReadPage(id, LocaleLabels(tagLanguage), page)
  {
  }

  /**
   * Without voice actors on the page: a failing HVDB scrape rejects the whole
   * scrape, and a resolving one gives the page's work with the merged voice
   * actors, rejected only when it ends up with neither tags nor voice actors.
   */
  lemma HvdbFallback(id: string, tagLanguage: string, page: DlsitePage, hvdb: Fetched<seq<HtmlEvent>>)
    requires ReadPage(id, LocaleLabels(tagLanguage), page).Ok?
    requires ReadPage(id, LocaleLabels(tagLanguage), page).value.vas == []
    ensures var r := DlsiteScrape(id, tagLanguage, Response(true, "OK", page), hvdb);
            var work := ReadPage(id, LocaleLabels(tagLanguage), page).value;
            && (HvdbScrape(id, hvdb).Err? ==> r == Err("Couldn't parse CV data from HVDB work page."))
            && (HvdbScrape(id, hvdb).Ok? ==>
                  var vas := MergedVas([], HvdbScrape(id, hvdb).value.vas);
                  (r.Ok? <==> work.tags != [] || vas != [])
                  && (r.Ok? ==> r.value == work.(vas := vas)))
  {
  }

  /** A resolved DLsite scrape has the requested id, a circle, the nsfw text, and some tag or voice actor. */
  lemma DlsiteScrapeResolved(id: string, tagLanguage: string, response: Fetched<DlsitePage>, hvdb: Fetched<seq<HtmlEvent>>)
    requires DlsiteScrape(id, tagLanguage, response, hvdb).Ok?
    ensures var w := DlsiteScrape(id, tagLanguage, response, hvdb).value;
            && response.Response? && response.ok && response.body.maker.Some?
            && w.id == id && w.circle == response.body.maker
            && (w.nsfw == Some(NsfwText("true")) <==> AdultOnly(response.body.outline, LocaleLabels(tagLanguage)))
            && (w.tags != [] || w.vas != [])
  {
  }
}
