/**
 * The metadata record a scrape produces (the `work` object both scrapers
 * build) and the row the scanner inserts (the same object with `dir` set).
 */
module Works {

  import opened Wrappers

  /** An id as the catalogues give it: HVDB hrefs yield text, DLsite hrefs and name hashes yield numbers. */
  datatype RefId = TextId(text: string) | NumId(n: int)

  /** A tag or voice-actor credit. The HVDB parser fills id and name in separate callbacks, so either may be missing. */
  datatype Credit = Credit(id: Option<RefId>, name: Option<string>)

  datatype Circle = Circle(id: RefId, name: Option<string>)

  /** The adult-content flag: HVDB stores a boolean, DLsite the string 'true' or 'false'. */
  datatype Nsfw = NsfwFlag(flag: bool) | NsfwText(text: string)

  /** `{ id, title, circle, nsfw, tags, vas }`; absent fields are `None`. */
  datatype Work = Work(
    id: string,
    title: Option<string>,
    circle: Option<Circle>,
    nsfw: Option<Nsfw>,
    tags: seq<Credit>,
    vas: seq<Credit>)

  /** The object both scrapers start from: `{ id, tags: [], vas: [] }`. */
  function NewWork(id: string): (w: Work)
    ensures w.id == id && w.tags == [] && w.vas == []
  {
    Work(id, None, None, None, [], [])
  }

  /** A scraped work with `dir` set to its folder, as handed to the store. */
  datatype WorkRecord = WorkRecord(work: Work, dir: string)
}
