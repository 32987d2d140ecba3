/**
 * The HVDB scraper: the htmlparser2 callbacks of `scrapeWorkMetadataFromHVDB`,
 * run over an abstract stream of open-tag, close-tag and text events, and the
 * fetch / empty-result decisions around them.
 */
module Hvdb {

  import opened Wrappers
  import opened JsText
  import opened Names
  import opened Works

  /** The attributes the callbacks read; an attribute the tag lacks is `None` (undefined). */
  datatype Attrs = Attrs(id: Option<string>, name: Option<string>, value: Option<string>, href: Option<string>)

  /** What the HTML parser reports while it reads the page. */
  datatype HtmlEvent = OpenTag(tagName: string, attrs: Attrs) | CloseTag | Text(text: string)

  /** `writeTo`: the field the next text event is written to; `Nowhere` is null/undefined. */
  datatype WriteTo = Nowhere | CircleName | TagName | VaName

  datatype ParseState = ParseState(work: Work, writeTo: WriteTo)

  /** A fetch raced against the timeout: the timer won, the request failed, or a response arrived. */
  datatype Fetched<T> = TimedOut | FetchFailed(message: string) | Response(ok: bool, statusText: string, body: T)

  /** The message of the TypeError thrown when a callback reads a property of undefined. */
  const TypeError: string := "TypeError"

  function Initial(id: string): ParseState
  {
    ParseState(NewWork(id), Nowhere)
  }

  // ---------------------------------------------------------------------------
  // The callbacks as a transition function

  /** The `input` branch of `onopentag`: title from Name or a non-empty EngName, nsfw from SFW. */
  function OnInput(w: Work, a: Attrs): Work
  {
    if a.id == Some("Name") then w.(title := a.value)
    else if a.id == Some("EngName") && a.value != Some("") then w.(title := a.value)
    else if a.name == Some("SFW") then w.(nsfw := Some(NsfwFlag(a.value == Some("false"))))
    else w
  }

  /** The `a` branch of `onopentag`; an anchor without href throws on `attrs.href.indexOf`. */
  function OnAnchor(st: ParseState, a: Attrs): Result<ParseState>
  {
    match a.href
    case None => Err(TypeError)
    case Some(href) =>
      if Contains(href, "CircleWorks") then
        Ok(ParseState(st.work.(circle := Some(Circle(TextId(AfterLastSlash(href)), None))), CircleName))
      else if Contains(href, "TagWorks") then
        Ok(ParseState(st.work.(tags := st.work.tags + [Credit(Some(TextId(AfterLastSlash(href))), None)]), TagName))
      else if Contains(href, "CVWorks") then
        Ok(ParseState(st.work.(vas := st.work.vas + [Credit(None, None)]), VaName))
      else Ok(st)
  }

  /** `ontext`: the text goes to the field `writeTo` names, and nowhere when it is null. */
  function OnText(st: ParseState, t: string): Result<ParseState>
  {
    var w := st.work;
    match st.writeTo
    case Nowhere => Ok(st)
    case CircleName =>
      if w.circle.None? then Err(TypeError)
      else Ok(st.(work := w.(circle := Some(w.circle.value.(name := Some(t))))))
    case TagName =>
      if w.tags == [] then Err(TypeError)
      else Ok(st.(work := w.(tags := w.tags[|w.tags| - 1 := w.tags[|w.tags| - 1].(name := Some(t))])))
    case VaName =>
      if w.vas == [] then Err(TypeError)
      else Ok(st.(work := w.(vas := w.vas[|w.vas| - 1 := Credit(Some(NumId(NameHash(t))), Some(t))])))
  }

  /** One parser event. */
  function Step(st: ParseState, ev: HtmlEvent): Result<ParseState>
  {
    match ev
    case OpenTag(tagName, a) =>
      var w := if tagName == "input" then OnInput(st.work, a) else st.work;
      if tagName == "a" then OnAnchor(st.(work := w), a) else Ok(st.(work := w))
    case CloseTag => Ok(st.(writeTo := Nowhere))
    case Text(t) => OnText(st, t)
  }

  /** The events in order; a callback that throws stops the parse with that error. */
  function Run(r: Result<ParseState>, events: seq<HtmlEvent>): Result<ParseState>
    decreases |events|
  {
    if events == [] || r.Err? then r else Run(Step(r.value, events[0]), events[1..])
  }

  function Parse(id: string, events: seq<HtmlEvent>): Result<ParseState>
  {
    Run(Ok(Initial(id)), events)
  }

  // ---------------------------------------------------------------------------
  // The callbacks as the source writes them: closures over `work` and `writeTo`

  class HvdbParser {
    var work: Work
    var writeTo: WriteTo

    function State(): ParseState
      reads this
    {
      ParseState(work, writeTo)
    }

    constructor (id: string)
      ensures State() == Initial(id)
    {
      work := NewWork(id);
      writeTo := Nowhere;
    }

    /** `onopentag`; returns the message of the error it throws, if any. */
    method OnOpenTag(tagName: string, attrs: Attrs) returns (thrown: Option<string>)
      modifies this
      ensures thrown.None? ==> Step(old(State()), OpenTag(tagName, attrs)) == Ok(State())
      ensures thrown.Some? ==> Step(old(State()), OpenTag(tagName, attrs)) == Err(thrown.value)
    {
      thrown := None;
      if tagName == "input" {
        if attrs.id == Some("Name") {
          work := work.(title := attrs.value);
        } else if attrs.id == Some("EngName") && attrs.value != Some("") {
          work := work.(title := attrs.value);
        } else if attrs.name == Some("SFW") {
          work := work.(nsfw := Some(NsfwFlag(attrs.value == Some("false"))));
        }
      }
      if tagName == "a" {
        if attrs.href.None? {
          return Some(TypeError);
        }
        var href := attrs.href.value;
        if IndexOf(href, "CircleWorks") != -1 {
          work := work.(circle := Some(Circle(TextId(href[LastIndexOf(href, '/') + 1..]), None)));
          writeTo := CircleName;
        } else if IndexOf(href, "TagWorks") != -1 {
          work := work.(tags := work.tags + [Credit(Some(TextId(href[LastIndexOf(href, '/') + 1..])), None)]);
          writeTo := TagName;
        } else if IndexOf(href, "CVWorks") != -1 {
          work := work.(vas := work.vas + [Credit(None, None)]);
          writeTo := VaName;
        }
      }
    }

    /** `onclosetag`. */
    method OnCloseTag()
      modifies this
      ensures Step(old(State()), CloseTag) == Ok(State())
    {
      writeTo := Nowhere;
    }

    /** `ontext`; returns the message of the error it throws, if any. */
    method OnText(text: string) returns (thrown: Option<string>)
      modifies this
      ensures thrown.None? ==> Step(old(State()), Text(text)) == Ok(State())
      ensures thrown.Some? ==> Step(old(State()), Text(text)) == Err(thrown.value)
    {
      thrown := None;
      match writeTo {
        case CircleName =>
          if work.circle.None? {
            return Some(TypeError);
          }
          work := work.(circle := Some(work.circle.value.(name := Some(text))));
        case TagName =>
          if work.tags == [] {
            return Some(TypeError);
          }
          var last := |work.tags| - 1;
          work := work.(tags := work.tags[last := work.tags[last].(name := Some(text))]);
        case VaName =>
          if work.vas == [] {
            return Some(TypeError);
          }
          var id := HashNameIntoInt(text);
          var last := |work.vas| - 1;
          work := work.(vas := work.vas[last := Credit(Some(NumId(id)), Some(text))]);
        case Nowhere =>
      }
    }
  }

  /** `parser.write(res); parser.end()`: feeds every event to the callbacks, stopping at the first throw. */
  method ParseHvdb(id: string, events: seq<HtmlEvent>) returns (r: Result<Work>)
    ensures r.Ok? <==> Parse(id, events).Ok?
    ensures r.Ok? ==> r.value == Parse(id, events).value.work
    ensures r.Err? ==> r == Err(Parse(id, events).message)
  {
    var parser := new HvdbParser(id);
    var i := 0;
    while i < |events|
      invariant 0 <= i <= |events|
      invariant Run(Ok(parser.State()), events[i..]) == Parse(id, events)
    {
      var thrown: Option<string> := None;
      var st := parser.State();
      match events[i] {
        case OpenTag(tagName, attrs) =>
          thrown := parser.OnOpenTag(tagName, attrs);
        case CloseTag =>
          parser.OnCloseTag();
        case Text(t) =>
          thrown := parser.OnText(t);
      }
      assert Run(Ok(st), events[i..]) == Run(Step(st, events[i]), events[i + 1..]);
      if thrown.Some? {
        RunAfterError(thrown.value, events[i + 1..]);
        return Err(thrown.value);
      }
      i := i + 1;
    }
    return Ok(parser.work);
  }

  // ---------------------------------------------------------------------------
  // Properties of the parse

  /** The field `writeTo` names exists: it was created by the anchor that set `writeTo`. */
  predicate Consistent(st: ParseState)
  {
    && (st.writeTo == CircleName ==> st.work.circle.Some?)
    && (st.writeTo == TagName ==> st.work.tags != [])
    && (st.writeTo == VaName ==> st.work.vas != [])
  }

  /** Every step keeps the field `writeTo` names in existence, and a text event never throws. */
  lemma StepConsistent(st: ParseState, ev: HtmlEvent)
    requires Consistent(st)
    ensures Step(st, ev).Ok? ==> Consistent(Step(st, ev).value)
    ensures ev.Text? ==> Step(st, ev).Ok?
  {
  }

  /**
   * The only callback that throws is `onopentag` on an anchor without href: a
   * failed parse failed with a TypeError, and its page has such an anchor.
   */
  lemma {:induction false} ParseFailsOnlyOnBareAnchor(st: ParseState, events: seq<HtmlEvent>)
    requires Consistent(st)
    requires Run(Ok(st), events).Err?
    ensures Run(Ok(st), events) == Err(TypeError)
    ensures exists k | 0 <= k < |events| :: events[k].OpenTag? && events[k].tagName == "a" && events[k].attrs.href.None?
    decreases |events|
  {
    var ev := events[0];
    StepConsistent(st, ev);
    match Step(st, ev)
    case Err(_) =>
      RunAfterError(TypeError, events[1..]);
      assert events[0].OpenTag? && events[0].tagName == "a" && events[0].attrs.href.None?;
    case Ok(st') =>
      ParseFailsOnlyOnBareAnchor(st', events[1..]);
      var k :| 0 <= k < |events[1..]| && events[1..][k].OpenTag? && events[1..][k].tagName == "a" && events[1..][k].attrs.href.None?;
      assert events[k + 1] == events[1..][k];
  }

  /** Once a callback has thrown, later events change nothing. */
  lemma {:induction false} RunAfterError(message: string, events: seq<HtmlEvent>)
    ensures Run(Err(message), events) == Err(message)
  {
  }

  /** Running two stretches of events is running their concatenation. */
  lemma {:induction false} RunConcat(r: Result<ParseState>, a: seq<HtmlEvent>, b: seq<HtmlEvent>)
    ensures Run(r, a + b) == Run(Run(r, a), b)
    decreases |a|
  {
    if a == [] {
      assert a + b == b;
    } else if r.Err? {
      RunAfterError(r.message, b);
    } else {
      assert (a + b)[1..] == a[1..] + b;
      RunConcat(Step(r.value, a[0]), a[1..], b);
    }
  }

  /**
   * A close tag clears `writeTo`, so a text event straight after it is not
   * recorded anywhere: dropping it leaves the parse unchanged.
   */
  lemma TextAfterCloseIgnored(id: string, before: seq<HtmlEvent>, t: string, after: seq<HtmlEvent>)
    ensures Parse(id, before + [CloseTag, Text(t)] + after) == Parse(id, before + [CloseTag] + after)
  {
    var r := Run(Ok(Initial(id)), before);
    RunConcat(Ok(Initial(id)), before, [CloseTag, Text(t)] + after);
    RunConcat(Ok(Initial(id)), before, [CloseTag] + after);
    Associative(before, [CloseTag, Text(t)], after);
    Associative(before, [CloseTag], after);
    if r.Ok? {
      assert ([CloseTag, Text(t)] + after)[1..] == [Text(t)] + after;
      assert ([CloseTag] + after)[1..] == after;
      assert ([Text(t)] + after)[1..] == after;
    }
  }

  /** The href of a tag anchor: an `a` whose href names TagWorks but not CircleWorks. */
  predicate IsTagAnchor(ev: HtmlEvent)
  {
    ev.OpenTag? && ev.tagName == "a" && ev.attrs.href.Some?
    && !Contains(ev.attrs.href.value, "CircleWorks") && Contains(ev.attrs.href.value, "TagWorks")
  }

  /** The ids the tag anchors of a stream carry: the part of each href after its last '/'. */
  function TagIds(events: seq<HtmlEvent>): (ids: seq<Option<RefId>>)
    ensures forall k | 0 <= k < |ids| :: ids[k].Some? && ids[k].value.TextId?
  {
    if events == [] then [] else TagIdOf(events[0]) + TagIds(events[1..])
  }

  /** The id one event contributes: its href's suffix if it is a tag anchor, nothing otherwise. */
  function TagIdOf(ev: HtmlEvent): seq<Option<RefId>>
  {
    if IsTagAnchor(ev) then [Some(TextId(AfterLastSlash(ev.attrs.href.value)))] else []
  }

  /** The ids of a list of credits, in order. */
  function IdsOf(credits: seq<Credit>): seq<Option<RefId>>
  {
    if credits == [] then [] else IdsOf(credits[..|credits| - 1]) + [credits[|credits| - 1].id]
  }

  lemma {:induction false} IdsOfAt(credits: seq<Credit>, k: nat)
    requires k < |credits|
    ensures |IdsOf(credits)| == |credits| && IdsOf(credits)[k] == credits[k].id
    decreases |credits|
  {
    var init := credits[..|credits| - 1];
    if k < |init| {
      IdsOfAt(init, k);
    } else {
      IdsOfLength(init);
    }
  }

  lemma {:induction false} IdsOfLength(credits: seq<Credit>)
    ensures |IdsOf(credits)| == |credits|
    decreases |credits|
  {
    if credits != [] {
      IdsOfLength(credits[..|credits| - 1]);
    }
  }

  /**
   * Tag ids are exactly the href suffixes after the last '/' of the tag anchors,
   * in document order: text events rename tags but never change their ids.
   */
  lemma {:induction false} TagIdsFromHrefs(st: ParseState, events: seq<HtmlEvent>)
    requires Run(Ok(st), events).Ok?
    ensures IdsOf(Run(Ok(st), events).value.work.tags) == IdsOf(st.work.tags) + TagIds(events)
    decreases |events|
  {
    if events != [] {
      var ev, rest := events[0], events[1..];
      var r := Step(st, ev);
      assert Run(Ok(st), events) == Run(r, rest);
      var st' := r.value;
      assert r == Ok(st');
      var before, mid, after := IdsOf(st.work.tags), TagIdOf(ev), TagIds(rest);
      StepTagIds(st, ev);
      TagIdsFromHrefs(st', rest);
      assert TagIds(events) == mid + after;
      Associative(before, mid, after);
    }
  }

  lemma Associative<T>(a: seq<T>, b: seq<T>, c: seq<T>)
    ensures a + b + c == a + (b + c)
  {
  }

  /** One event adds to the tag ids exactly the id of its tag anchor, if it is one; text never changes an id. */
  lemma StepTagIds(st: ParseState, ev: HtmlEvent)
    requires Step(st, ev).Ok?
    ensures IdsOf(Step(st, ev).value.work.tags) == IdsOf(st.work.tags) + TagIdOf(ev)
  {
    var tags := st.work.tags;
    var tags' := Step(st, ev).value.work.tags;
    match ev
    case OpenTag(tagName, a) =>
      if IsTagAnchor(ev) {
        assert tags' == tags + [Credit(Some(TextId(AfterLastSlash(a.href.value))), None)];
        assert tags'[..|tags|] == tags;
      } else {
        assert tags' == tags;
      }
    case CloseTag =>
      assert tags' == tags;
    case Text(t) =>
      if st.writeTo == TagName {
        var n := |tags| - 1;
        assert tags' == tags[n := tags[n].(name := Some(t))];
        assert tags'[..n] == tags[..n];
      } else {
        assert tags' == tags;
      }
  }

  /** Every tag id the parse records has no '/' in it. */
  lemma TagIdsHaveNoSlash(id: string, events: seq<HtmlEvent>)
    requires Parse(id, events).Ok?
    ensures forall t | t in Parse(id, events).value.work.tags ::
      t.id.Some? && t.id.value.TextId? && forall p | 0 <= p < |t.id.value.text| :: t.id.value.text[p] != '/'
  {
    TagIdsFromHrefs(Initial(id), events);
    var tags := Parse(id, events).value.work.tags;
    assert IdsOf(tags) == TagIds(events);
    forall t | t in tags
      ensures t.id.Some? && t.id.value.TextId? && forall p | 0 <= p < |t.id.value.text| :: t.id.value.text[p] != '/'
    {
      var k :| 0 <= k < |tags| && tags[k] == t;
      IdsOfAt(tags, k);
      TagIdsAreSuffixes(events, k);
    }
  }

  lemma {:induction false} TagIdsAreSuffixes(events: seq<HtmlEvent>, k: nat)
    requires k < |TagIds(events)|
    ensures forall p | 0 <= p < |TagIds(events)[k].value.text| :: TagIds(events)[k].value.text[p] != '/'
    decreases |events|
  {
    var head, rest := TagIdOf(events[0]), events[1..];
    assert TagIds(events) == head + TagIds(rest);
    if k < |head| {
      assert TagIds(events)[k] == Some(TextId(AfterLastSlash(events[0].attrs.href.value)));
    } else {
      assert TagIds(events)[k] == TagIds(rest)[k - |head|];
      TagIdsAreSuffixes(rest, k - |head|);
    }
  }

  /** A voice-actor credit is either still blank or carries its name and that name's hash as id. */
  predicate VaWellFormed(va: Credit)
  {
    (va.id.None? && va.name.None?) || (va.name.Some? && va.id == Some(NumId(NameHash(va.name.value))))
  }

  /** Every voice-actor id the parse records is `hashNameIntoInt` of the recorded name. */
  lemma {:induction false} VaIdsAreNameHashes(st: ParseState, events: seq<HtmlEvent>)
    requires forall va | va in st.work.vas :: VaWellFormed(va)
    requires Run(Ok(st), events).Ok?
    ensures forall va | va in Run(Ok(st), events).value.work.vas :: VaWellFormed(va)
    decreases |events|
  {
    if events != [] {
      var st' := Step(st, events[0]).value;
      assert forall va | va in st'.work.vas :: VaWellFormed(va) by {
        var vas := st.work.vas;
        var vas' := st'.work.vas;
        forall va | va in vas' ensures VaWellFormed(va) {
          var k :| 0 <= k < |vas'| && vas'[k] == va;
          if k < |vas| && vas'[k] != vas[k] {
            assert events[0].Text? && st.writeTo == VaName;
          } else if k < |vas| {
            assert vas[k] in vas;
          }
        }
      }
      VaIdsAreNameHashes(st', events[1..]);
    }
  }

  /** An anchor whose href names CircleWorks. */
  predicate IsCircleAnchor(ev: HtmlEvent)
  {
    ev.OpenTag? && ev.tagName == "a" && ev.attrs.href.Some? && Contains(ev.attrs.href.value, "CircleWorks")
  }

  /** The circle ids the circle anchors of a stream carry, in document order. */
  function CircleIds(events: seq<HtmlEvent>): seq<RefId>
  {
    if events == [] then []
    else (if IsCircleAnchor(events[0]) then [TextId(AfterLastSlash(events[0].attrs.href.value))] else [])
         + CircleIds(events[1..])
  }

  function CircleIdOf(circle: Option<Circle>): Option<RefId>
  {
    if circle.None? then None else Some(circle.value.id)
  }

  /** One event sets the circle id exactly when it is a circle anchor; text only names the circle. */
  lemma StepCircleId(st: ParseState, ev: HtmlEvent)
    requires Step(st, ev).Ok?
    ensures CircleIdOf(Step(st, ev).value.work.circle)
         == if IsCircleAnchor(ev) then Some(TextId(AfterLastSlash(ev.attrs.href.value))) else CircleIdOf(st.work.circle)
  {
  }

  /**
   * The circle of a successful parse has the id of the last circle anchor,
   * the part of its href after the last '/'; without one the circle id is
   * the one the parse started with.
   */
  lemma {:induction false} CircleFromLastAnchor(st: ParseState, events: seq<HtmlEvent>)
    requires Run(Ok(st), events).Ok?
    ensures var ids := CircleIds(events);
      CircleIdOf(Run(Ok(st), events).value.work.circle)
        == if ids == [] then CircleIdOf(st.work.circle) else Some(ids[|ids| - 1])
    decreases |events|
  {
    if events != [] {
      var ev, rest := events[0], events[1..];
      var r := Step(st, ev);
      assert Run(Ok(st), events) == Run(r, rest);
      var st' := r.value;
      assert r == Ok(st');
      StepCircleId(st, ev);
      CircleFromLastAnchor(st', rest);
      var head := if IsCircleAnchor(ev) then [TextId(AfterLastSlash(ev.attrs.href.value))] else [];
      assert CircleIds(events) == head + CircleIds(rest);
    }
  }

  /** An `input` named SFW that reaches the SFW branch: its id is neither Name nor a non-empty EngName. */
  predicate IsSfwInput(ev: HtmlEvent)
  {
    && ev.OpenTag? && ev.tagName == "input"
    && ev.attrs.id != Some("Name")
    && !(ev.attrs.id == Some("EngName") && ev.attrs.value != Some(""))
    && ev.attrs.name == Some("SFW")
  }

  /** The flags the SFW inputs of a stream set, in document order: nsfw is `value === 'false'`. */
  function SfwFlags(events: seq<HtmlEvent>): seq<bool>
  {
    if events == [] then []
    else (if IsSfwInput(events[0]) then [events[0].attrs.value == Some("false")] else [])
         + SfwFlags(events[1..])
  }

  /** One event sets nsfw exactly when it is an SFW input. */
  lemma StepNsfw(st: ParseState, ev: HtmlEvent)
    requires Step(st, ev).Ok?
    ensures Step(st, ev).value.work.nsfw
         == if IsSfwInput(ev) then Some(NsfwFlag(ev.attrs.value == Some("false"))) else st.work.nsfw
  {
  }

  /**
   * The nsfw flag of a successful parse is the one the last SFW input sets;
   * without one it is what the parse started with.
   */
  lemma {:induction false} NsfwFromLastSfwInput(st: ParseState, events: seq<HtmlEvent>)
    requires Run(Ok(st), events).Ok?
    ensures var flags := SfwFlags(events);
      Run(Ok(st), events).value.work.nsfw
        == if flags == [] then st.work.nsfw else Some(NsfwFlag(flags[|flags| - 1]))
    decreases |events|
  {
    if events != [] {
      var ev, rest := events[0], events[1..];
      var r := Step(st, ev);
      assert Run(Ok(st), events) == Run(r, rest);
      var st' := r.value;
      assert r == Ok(st');
      StepNsfw(st, ev);
      NsfwFromLastSfwInput(st', rest);
      var head := if IsSfwInput(ev) then [ev.attrs.value == Some("false")] else [];
      assert SfwFlags(events) == head + SfwFlags(rest);
    }
  }

  /** An `input` that sets the title: id Name, or id EngName with a value other than the empty string. */
  predicate IsTitleInput(ev: HtmlEvent)
  {
    && ev.OpenTag? && ev.tagName == "input"
    && (ev.attrs.id == Some("Name") || (ev.attrs.id == Some("EngName") && ev.attrs.value != Some("")))
  }

  /** The titles the title inputs of a stream carry, in document order. */
  function Titles(events: seq<HtmlEvent>): seq<Option<string>>
  {
    if events == [] then []
    else (if IsTitleInput(events[0]) then [events[0].attrs.value] else []) + Titles(events[1..])
  }

  /** One event sets the title exactly when it is a title input, to that input's value. */
  lemma StepTitle(st: ParseState, ev: HtmlEvent)
    requires Step(st, ev).Ok?
    ensures Step(st, ev).value.work.title == if IsTitleInput(ev) then ev.attrs.value else st.work.title
  {
  }

  /**
   * The title of a successful parse is the value of the last title input,
   * whatever events lie between the inputs; without one it is the title the
   * parse started with.
   */
  lemma {:induction false} TitleFromLastTitleInput(st: ParseState, events: seq<HtmlEvent>)
    requires Run(Ok(st), events).Ok?
    ensures var titles := Titles(events);
      Run(Ok(st), events).value.work.title
        == if titles == [] then st.work.title else titles[|titles| - 1]
    decreases |events|
  {
    if events != [] {
      var ev, rest := events[0], events[1..];
      var r := Step(st, ev);
      assert Run(Ok(st), events) == Run(r, rest);
      var st' := r.value;
      assert r == Ok(st');
      StepTitle(st, ev);
      TitleFromLastTitleInput(st', rest);
      var head := if IsTitleInput(ev) then [ev.attrs.value] else [];
      assert Titles(events) == head + Titles(rest);
    }
  }

  /** Name sets the title and a later non-empty EngName overwrites it; an empty EngName keeps it. */
  lemma TitleFromNameAndEngName(st: ParseState, name: string, eng: string)
    ensures var a1 := Attrs(Some("Name"), None, Some(name), None);
            var a2 := Attrs(Some("EngName"), None, Some(eng), None);
            var r := Run(Ok(st), [OpenTag("input", a1), OpenTag("input", a2)]);
            r.Ok? && r.value.work.title == Some(if eng == "" then name else eng)
  {
    var a1 := Attrs(Some("Name"), None, Some(name), None);
    var a2 := Attrs(Some("EngName"), None, Some(eng), None);
    var events := [OpenTag("input", a1), OpenTag("input", a2)];
    var st1 := Step(st, events[0]).value;
    assert events[1..] == [events[1]];
    assert "input" != "a";
    assert Run(Ok(st), events) == Run(Ok(st1), [events[1]]);
    assert [events[1]][1..] == [];
    assert Run(Ok(st1), [events[1]]) == Run(Step(st1, events[1]), []);
  }

  // ---------------------------------------------------------------------------
  // The scrape

  const ParseFailure: string := "Couldn't parse data from HVDB work page."

  /**
   * `scrapeWorkMetadataFromHVDB`: a timed-out, failed or non-ok fetch rejects,
   * a throwing callback rejects, and a page without tags and voice actors rejects.
   */
  function HvdbScrape(id: string, response: Fetched<seq<HtmlEvent>>): (r: Result<Work>)
  {
    match response
    case TimedOut => Err("request timeout")
    case FetchFailed(message) => Err(message)
    case Response(ok, statusText, body) =>
      if !ok then Err("Couldn't fetch work page HTML, received " + statusText)
      else
        match Parse(id, body)
        case Err(message) => Err(message)
        case Ok(st) =>
          if st.work.tags == [] && st.work.vas == [] then Err(ParseFailure) else Ok(st.work)
  }

  /**
   * What a resolved HVDB scrape promises: an ok response whose parse succeeded,
   * at least one tag or voice actor, the id it was asked for, and voice-actor
   * ids that are hashes of their names.
   */
  lemma HvdbScrapeResolved(id: string, response: Fetched<seq<HtmlEvent>>)
    requires HvdbScrape(id, response).Ok?
    ensures response.Response? && response.ok && Parse(id, response.body).Ok?
    ensures HvdbScrape(id, response).value == Parse(id, response.body).value.work
    ensures HvdbScrape(id, response).value.id == id
    ensures HvdbScrape(id, response).value.tags != [] || HvdbScrape(id, response).value.vas != []
    ensures forall va | va in HvdbScrape(id, response).value.vas :: VaWellFormed(va)
  {
    VaIdsAreNameHashes(Initial(id), response.body);
    WorkIdKept(Initial(id), response.body);
  }

  lemma {:induction false} WorkIdKept(st: ParseState, events: seq<HtmlEvent>)
    requires Run(Ok(st), events).Ok?
    ensures Run(Ok(st), events).value.work.id == st.work.id
    decreases |events|
  {
    if events != [] {
      WorkIdKept(Step(st, events[0]).value, events[1..]);
    }
  }
}
