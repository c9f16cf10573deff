/** FeedParser of the sample application: reads an Atom feed from the
    event stream of an XML pull parser into feed entries.

    The document is the sequence of events the pull parser reports: start
    tags with their attributes, end tags, and text. `Broken` is the point
    at which the parser throws (malformed XML, an I/O error); running off
    the end of the sequence is the same, since the parser reports an
    unexpected end of input while elements are still open. The date format
    and `Uri.parse(..).isAbsolute()` are parameters. */
module FeedParser {
  import opened Wrappers

  const TAG_FEED: string := "feed"
  const TAG_ENTRY: string := "entry"
  const TAG_ID: string := "id"
  const TAG_PUBLISHED: string := "published"
  const TAG_TITLE: string := "title"
  const TAG_LINK: string := "link"
  const ATTR_REL: string := "rel"
  const ATTR_HREF: string := "href"
  const REL_ALTERNATE: string := "alternate"

  /** The `published` value of an entry without a usable date. */
  const NO_DATE: int := -1

  datatype Attribute = Attribute(name: string, value: string)

  datatype Event =
    | StartTag(name: string, attributes: seq<Attribute>)
    | EndTag(name: string)
    | Text(text: string)
    | Broken

  /** What is thrown: the parser's exceptions, which `parse` catches, or
      the IllegalStateException of `skip`, which it does not. */
  datatype Failure = XmlFailure | IllegalState

  /** A feed entry; the link is kept as the text `Uri.parse` was given. */
  datatype FeedEntry = FeedEntry(id: string, title: string, link: string, published: int)

  /** `getAttributeValue(null, name)`: the value of the first attribute of
      that name, or null. */
  function AttributeValue(attributes: seq<Attribute>, name: string): (r: Option<string>)
    ensures r.None? <==> forall i :: 0 <= i < |attributes| ==> attributes[i].name != name
    ensures r.Some? ==> exists i :: 0 <= i < |attributes| && attributes[i].name == name && attributes[i].value == r.value
  {
    if attributes == [] then None
    else if attributes[0].name == name then Some(attributes[0].value)
    else AttributeValue(attributes[1..], name)
  }

  /** One event from `pos`: what `next()` returns, or what it throws. */
  function Next(events: seq<Event>, pos: nat): (r: Result<Event, Failure>)
    ensures r.Ok? <==> pos < |events| && !events[pos].Broken?
    ensures r.Ok? ==> r.value == events[pos]
    ensures r.Err? ==> r.error == XmlFailure
  {
    if pos >= |events| || events[pos].Broken? then Err(XmlFailure) else Ok(events[pos])
  }

  // skip

  /** How an event changes the nesting depth. */
  function Delta(e: Event): int
  {
    if e.StartTag? then 1 else if e.EndTag? then -1 else 0
  }

  /** The change in depth over a stretch of events: start tags less end
      tags. */
  function Nesting(s: seq<Event>): int
  {
    if s == [] then 0 else Delta(s[0]) + Nesting(s[1..])
  }

  /** The loop of `skip`: with `depth` elements open, read events until
      the depth comes back to 0; the position after the closing end tag. */
  function SkipFrom(events: seq<Event>, pos: nat, depth: nat): (r: Result<nat, Failure>)
    requires depth >= 1 && pos <= |events|
    ensures r.Ok? ==> pos < r.value <= |events|
    ensures r.Err? ==> r.error == XmlFailure
    decreases |events| - pos
  {
    match Next(events, pos)
    case Err(f) => Err(f)
    case Ok(e) =>
      if e.EndTag? && depth == 1 then Ok(pos + 1)
      else SkipFrom(events, pos + 1, depth + Delta(e))
  }

  /** `skip(parser)`: only at a start tag; then its whole element. */
  function Skip(events: seq<Event>, current: Event, pos: nat): (r: Result<nat, Failure>)
    requires pos <= |events|
    ensures !current.StartTag? ==> r == Err(IllegalState)
    ensures current.StartTag? ==> r == SkipFrom(events, pos, 1)
  {
    if !current.StartTag? then Err(IllegalState) else SkipFrom(events, pos, 1)
  }

  /** Where `skip` stops, for `depth` open elements: the depth first comes
      back to 0 at `q`, with no failure before. */
  ghost predicate Closes(events: seq<Event>, pos: nat, depth: nat, q: nat)
    requires pos < q <= |events|
  {
    && depth + Nesting(events[pos..q]) == 0
    && forall j :: pos <= j < q ==> OpenAt(events, pos, depth, j)
  }

  /** Reading from `pos` with `depth` open, the element is still open and
      unbroken at `j`. */
  ghost predicate OpenAt(events: seq<Event>, pos: nat, depth: int, j: nat)
    requires pos <= j < |events|
  {
    depth + Nesting(events[pos..j]) > 0 && !events[j].Broken?
  }

  lemma NestingCons(events: seq<Event>, pos: nat, j: nat)
    requires pos < j <= |events|
    ensures Nesting(events[pos..j]) == Delta(events[pos]) + Nesting(events[pos + 1..j])
  {
    assert events[pos..j][1..] == events[pos + 1..j];
  }

  /** `skip` ends right after the end tag that brings the depth back to 0. */
  lemma {:induction false} SkipFromCloses(events: seq<Event>, pos: nat, depth: nat)
    requires depth >= 1 && pos <= |events|
    requires SkipFrom(events, pos, depth).Ok?
    ensures Closes(events, pos, depth, SkipFrom(events, pos, depth).value)
    decreases |events| - pos
  {
    var q := SkipFrom(events, pos, depth).value;
    var e := events[pos];
    assert events[pos..pos] == [];
    assert OpenAt(events, pos, depth, pos);
    if e.EndTag? && depth == 1 {
      NestingCons(events, pos, pos + 1);
      assert events[pos + 1..pos + 1] == [];
    } else {
      var d := depth + Delta(e);
      var next := pos + 1;
      SkipFromCloses(events, next, d);
      NestingCons(events, pos, q);
      forall j | pos <= j < q
        ensures OpenAt(events, pos, depth, j)
      {
        if j > pos {
          NestingCons(events, pos, j);
          assert OpenAt(events, next, d, j);
        }
      }
    }
  }

  /** Conversely, `skip` reaches every such closing point: where the depth
      comes back to 0 is where it stops. */
  lemma {:induction false} ClosesSkipFrom(events: seq<Event>, pos: nat, depth: nat, q: nat)
    requires depth >= 1 && pos < q <= |events|
    requires Closes(events, pos, depth, q)
    ensures SkipFrom(events, pos, depth) == Ok(q)
    decreases |events| - pos
  {
    var e := events[pos];
    assert OpenAt(events, pos, depth, pos);
    assert events[pos..pos] == [];
    var d := depth + Delta(e);
    if q == pos + 1 {
      NestingCons(events, pos, q);
      assert events[pos + 1..q] == [];
    } else {
      ClosesStep(events, pos, depth, q);
      ClosesSkipFrom(events, pos + 1, d, q);
    }
  }

  /** Past an event that does not close, the rest of the element closes at
      the same point, one event later and with the depth that event left. */
  lemma ClosesStep(events: seq<Event>, pos: nat, depth: nat, q: nat)
    requires depth >= 1 && pos + 1 < q <= |events|
    requires Closes(events, pos, depth, q)
    ensures depth + Delta(events[pos]) >= 1
    ensures Closes(events, pos + 1, depth + Delta(events[pos]), q)
  {
    var d := depth + Delta(events[pos]);
    var next := pos + 1;
    NestingCons(events, pos, next);
    assert events[next..next] == [];
    assert OpenAt(events, pos, depth, next);
    NestingCons(events, pos, q);
    forall j | next <= j < q
      ensures OpenAt(events, next, d, j)
    {
      NestingCons(events, pos, j);
      assert OpenAt(events, pos, depth, j);
    }
  }

  // readEntry

  datatype EntityState = StartState | NoneState | IdState | PublishedState | TitleState | EndState

  /** The locals of `readEntry`: the state, the text buffer, and what was
      read so far; `uri` is the raw link that passed the checks. */
  datatype EntryScan = EntryScan(
    state: EntityState,
    text: string,
    id: Option<string>,
    title: Option<string>,
    uri: Option<string>,
    published: int)

  const INITIAL_SCAN: EntryScan := EntryScan(StartState, "", None, None, None, NO_DATE)

  /** A `link` start tag: only `rel="alternate"` with a non-empty `href`
      counts; then the link is kept if absolute and dropped otherwise. */
  function LinkStep(uri: Option<string>, attributes: seq<Attribute>, isAbsolute: string -> bool): Option<string>
  {
    if AttributeValue(attributes, ATTR_REL) != Some(REL_ALTERNATE) then uri
    else
      var raw := AttributeValue(attributes, ATTR_HREF);
      if raw.None? || raw.value == "" then uri
      else if isAbsolute(raw.value) then Some(raw.value)
      else None
  }

  /** The date of a `published` end tag: the parsed time of non-empty
      text; unchanged when empty or unparseable. */
  function PublishedStep(published: int, text: string, parseDate: string -> Option<int>): int
  {
    if text == "" || parseDate(text).None? then published else parseDate(text).value
  }

  /** One iteration of the `readEntry` loop. */
  function EntryStep(s: EntryScan, e: Event, parseDate: string -> Option<int>, isAbsolute: string -> bool): EntryScan
  {
    match e
    case StartTag(name, attributes) =>
      if name == TAG_ID then s.(state := IdState, text := "")
      else if name == TAG_TITLE then s.(state := TitleState, text := "")
      else if name == TAG_LINK then s.(uri := LinkStep(s.uri, attributes, isAbsolute))
      else if name == TAG_PUBLISHED then s.(state := PublishedState, text := "")
      else s
    case EndTag(name) =>
      if name == TAG_ENTRY then s.(state := EndState)
      else if name == TAG_ID then s.(id := Some(s.text), state := NoneState)
      else if name == TAG_TITLE then s.(title := Some(s.text), state := NoneState)
      else if name == TAG_PUBLISHED then s.(published := PublishedStep(s.published, s.text, parseDate), state := NoneState)
      else s
    case Text(t) =>
      if s.state != NoneState then s.(text := s.text + t) else s
    case Broken => s
  }

  /** The loop of `readEntry`, from `pos` to the end state: the final
      locals and the position after the `entry` end tag. */
  function EntryLoop(events: seq<Event>, pos: nat, s: EntryScan,
                     parseDate: string -> Option<int>, isAbsolute: string -> bool): (r: Result<(EntryScan, nat), Failure>)
    requires pos <= |events|
    ensures r.Ok? ==> pos < r.value.1 <= |events|
    decreases |events| - pos
  {
    match Next(events, pos)
    case Err(f) => Err(f)
    case Ok(e) =>
      var s' := EntryStep(s, e, parseDate, isAbsolute);
      if s'.state == EndState then Ok((s', pos + 1))
      else EntryLoop(events, pos + 1, s', parseDate, isAbsolute)
  }

  /** The entry made from the final locals: only with a non-empty id and
      title and a link. */
  function EntryOf(s: EntryScan): Option<FeedEntry>
  {
    if s.id.Some? && s.id.value != "" && s.title.Some? && s.title.value != "" && s.uri.Some?
    then Some(FeedEntry(s.id.value, s.title.value, s.uri.value, s.published))
    else None
  }

  /** `readEntry(parser)`, called at an `entry` start tag whose next event
      is at `pos`. */
  function ReadEntry(events: seq<Event>, pos: nat, parseDate: string -> Option<int>, isAbsolute: string -> bool)
    : (r: Result<(Option<FeedEntry>, nat), Failure>)
    requires pos <= |events|
    ensures r.Ok? ==> pos < r.value.1 <= |events|
  {
    match EntryLoop(events, pos, INITIAL_SCAN, parseDate, isAbsolute)
    case Err(f) => Err(f)
    case Ok((s, q)) => Ok((EntryOf(s), q))
  }

  /** The entry loop as a fold: the locals after a stretch of events. */
  function Scan(s: EntryScan, es: seq<Event>, parseDate: string -> Option<int>, isAbsolute: string -> bool): EntryScan
  {
    if es == [] then s
    else EntryStep(Scan(s, es[..|es| - 1], parseDate, isAbsolute), es[|es| - 1], parseDate, isAbsolute)
  }

  lemma {:induction false} ScanAppend(s: EntryScan, a: seq<Event>, b: seq<Event>,
                                      parseDate: string -> Option<int>, isAbsolute: string -> bool)
    ensures Scan(s, a + b, parseDate, isAbsolute) == Scan(Scan(s, a, parseDate, isAbsolute), b, parseDate, isAbsolute)
  {
    if b != [] {
      ScanAppend(s, a, b[..|b| - 1], parseDate, isAbsolute);
      assert (a + b)[..|a + b| - 1] == a + b[..|b| - 1];
      assert (a + b)[|a + b| - 1] == b[|b| - 1];
    } else {
      assert a + b == a;
    }
  }

  /** Only the `entry` end tag ends the loop. */
  lemma EntryStepEnds(s: EntryScan, e: Event, parseDate: string -> Option<int>, isAbsolute: string -> bool)
    requires s.state != EndState
    ensures EntryStep(s, e, parseDate, isAbsolute).state == EndState <==> e == EndTag(TAG_ENTRY)
  {
  }

  /** The loop stops right after the first `entry` end tag, having folded
      every event up to it into the locals. */
  lemma {:induction false} EntryLoopScans(events: seq<Event>, pos: nat, s: EntryScan,
                                          parseDate: string -> Option<int>, isAbsolute: string -> bool)
    requires pos <= |events| && s.state != EndState
    requires EntryLoop(events, pos, s, parseDate, isAbsolute).Ok?
    ensures var (s', q) := EntryLoop(events, pos, s, parseDate, isAbsolute).value;
      && s' == Scan(s, events[pos..q], parseDate, isAbsolute)
      && events[q - 1] == EndTag(TAG_ENTRY)
      && forall j :: pos <= j < q - 1 ==> events[j] != EndTag(TAG_ENTRY) && !events[j].Broken?
    decreases |events| - pos
  {
    var e := events[pos];
    EntryStepEnds(s, e, parseDate, isAbsolute);
    var s1 := EntryStep(s, e, parseDate, isAbsolute);
    assert Scan(s, [e], parseDate, isAbsolute) == s1 by {
      assert [e][..0] == [];
    }
    assert events[pos..pos + 1] == [e];
    if s1.state != EndState {
      EntryLoopScans(events, pos + 1, s1, parseDate, isAbsolute);
      var q := EntryLoop(events, pos, s, parseDate, isAbsolute).value.1;
      ScanAppend(s, [e], events[pos + 1..q], parseDate, isAbsolute);
      assert [e] + events[pos + 1..q] == events[pos..q];
    }
  }

  /** Conversely, given the first `entry` end tag with nothing broken
      before it, the loop gets there. */
  lemma {:induction false} EntryLoopReaches(events: seq<Event>, pos: nat, s: EntryScan, q: nat,
                                            parseDate: string -> Option<int>, isAbsolute: string -> bool)
    requires pos < q <= |events| && s.state != EndState
    requires events[q - 1] == EndTag(TAG_ENTRY)
    requires forall j :: pos <= j < q - 1 ==> events[j] != EndTag(TAG_ENTRY) && !events[j].Broken?
    ensures EntryLoop(events, pos, s, parseDate, isAbsolute).Ok?
    ensures EntryLoop(events, pos, s, parseDate, isAbsolute).value.1 == q
    decreases |events| - pos
  {
    var e := events[pos];
    EntryStepEnds(s, e, parseDate, isAbsolute);
    if q > pos + 1 {
      EntryLoopReaches(events, pos + 1, EntryStep(s, e, parseDate, isAbsolute), q, parseDate, isAbsolute);
    }
  }

  /** What the locals keep between events: a kept link is non-empty and
      absolute. */
  ghost predicate LinkOk(s: EntryScan, isAbsolute: string -> bool)
  {
    s.uri.Some? ==> s.uri.value != "" && isAbsolute(s.uri.value)
  }

  lemma {:induction false} ScanKeepsLink(s: EntryScan, es: seq<Event>,
                                         parseDate: string -> Option<int>, isAbsolute: string -> bool)
    requires LinkOk(s, isAbsolute)
    ensures LinkOk(Scan(s, es, parseDate, isAbsolute), isAbsolute)
  {
    if es != [] {
      ScanKeepsLink(s, es[..|es| - 1], parseDate, isAbsolute);
    }
  }

  /** A `link` start tag with `rel="alternate"` whose `href` is `v`. */
  predicate AlternateLink(e: Event, v: string)
  {
    && e.StartTag? && e.name == TAG_LINK
    && AttributeValue(e.attributes, ATTR_REL) == Some(REL_ALTERNATE)
    && AttributeValue(e.attributes, ATTR_HREF) == Some(v)
  }

  /** Where a link comes from: a link the locals hold after a stretch of
      events was held before it or is the `href` of an alternate link in
      it. */
  lemma {:induction false} LinkProvenance(s: EntryScan, es: seq<Event>,
                                          parseDate: string -> Option<int>, isAbsolute: string -> bool)
    ensures var u := Scan(s, es, parseDate, isAbsolute).uri;
      u.Some? ==> u == s.uri || exists j :: 0 <= j < |es| && AlternateLink(es[j], u.value)
  {
    if es != [] {
      var init := es[..|es| - 1];
      LinkProvenance(s, init, parseDate, isAbsolute);
      var before := Scan(s, init, parseDate, isAbsolute);
      var u := Scan(s, es, parseDate, isAbsolute).uri;
      if u.Some? && u != s.uri {
        if u == before.uri {
          var j :| 0 <= j < |init| && AlternateLink(init[j], u.value);
          assert es[j] == init[j];
        } else {
          assert AlternateLink(es[|es| - 1], u.value);
        }
      }
    }
  }

  /** Text read while no element of interest is open (after an id, title
      or published element closed) is dropped. */
  lemma {:induction false} NoneIgnoresTexts(s: EntryScan, ts: seq<Event>,
                                            parseDate: string -> Option<int>, isAbsolute: string -> bool)
    requires s.state == NoneState
    requires forall i :: 0 <= i < |ts| ==> ts[i].Text?
    ensures Scan(s, ts, parseDate, isAbsolute) == s
  {
    if ts != [] {
      NoneIgnoresTexts(s, ts[..|ts| - 1], parseDate, isAbsolute);
    }
  }

  /** An entry is produced only with a non-empty id and title and a
      non-empty absolute link taken from an alternate link of the entry,
      and always when the locals have them. */
  lemma ReadEntryValid(events: seq<Event>, pos: nat, parseDate: string -> Option<int>, isAbsolute: string -> bool)
    requires pos <= |events|
    requires ReadEntry(events, pos, parseDate, isAbsolute).Ok?
    ensures var (entry, q) := ReadEntry(events, pos, parseDate, isAbsolute).value;
      var s := Scan(INITIAL_SCAN, events[pos..q], parseDate, isAbsolute);
      && (entry.Some? <==> s.id.Some? && s.id.value != "" && s.title.Some? && s.title.value != "" && s.uri.Some?)
      && (entry.Some? ==> Valid(entry.value, isAbsolute) && entry.value.published == s.published)
      && (entry.Some? ==> exists j :: pos <= j < q && AlternateLink(events[j], entry.value.link))
  {
    EntryLoopScans(events, pos, INITIAL_SCAN, parseDate, isAbsolute);
    var q := ReadEntry(events, pos, parseDate, isAbsolute).value.1;
    ScanKeepsLink(INITIAL_SCAN, events[pos..q], parseDate, isAbsolute);
    ScanLinkIn(events, pos, q, parseDate, isAbsolute);
  }

  /** The link read from a stretch of the document is an alternate link of
      that stretch. */
  lemma ScanLinkIn(events: seq<Event>, pos: nat, q: nat, parseDate: string -> Option<int>, isAbsolute: string -> bool)
    requires pos <= q <= |events|
    ensures var u := Scan(INITIAL_SCAN, events[pos..q], parseDate, isAbsolute).uri;
      u.Some? ==> exists j :: pos <= j < q && AlternateLink(events[j], u.value)
  {
    var es := events[pos..q];
    LinkProvenance(INITIAL_SCAN, es, parseDate, isAbsolute);
    var u := Scan(INITIAL_SCAN, es, parseDate, isAbsolute).uri;
    if u.Some? {
      var j :| 0 <= j < |es| && AlternateLink(es[j], u.value);
      assert events[pos + j] == es[j];
    }
  }

  /** The entries `parse` can return. */
  ghost predicate Valid(entry: FeedEntry, isAbsolute: string -> bool)
  {
    entry.id != "" && entry.title != "" && entry.link != "" && isAbsolute(entry.link)
  }

  /** An entry of the document: its link is the `href` of one of the
      document's alternate links. */
  ghost predicate LinkedIn(entry: FeedEntry, events: seq<Event>)
  {
    exists j :: 0 <= j < |events| && AlternateLink(events[j], entry.link)
  }

  ghost predicate AllValid(entries: seq<FeedEntry>, events: seq<Event>, isAbsolute: string -> bool)
  {
    forall i :: 0 <= i < |entries| ==> Valid(entries[i], isAbsolute) && LinkedIn(entries[i], events)
  }

  /** The concatenated text of a stretch of text events. */
  function Texts(ts: seq<Event>): string
    requires forall i :: 0 <= i < |ts| ==> ts[i].Text?
  {
    if ts == [] then "" else Texts(ts[..|ts| - 1]) + ts[|ts| - 1].text
  }

  lemma {:induction false} ScanTexts(s: EntryScan, ts: seq<Event>,
                                     parseDate: string -> Option<int>, isAbsolute: string -> bool)
    requires s.state != NoneState
    requires forall i :: 0 <= i < |ts| ==> ts[i].Text?
    ensures var s' := Scan(s, ts, parseDate, isAbsolute);
      s'.text == s.text + Texts(ts) && s'.state == s.state && s'.id == s.id && s'.title == s.title
  {
    if ts != [] {
      ScanTexts(s, ts[..|ts| - 1], parseDate, isAbsolute);
    }
  }

  /** After a start tag of `id`, `title` or `published` and text events,
      the buffer holds exactly those texts. */
  lemma OpenThenTexts(s: EntryScan, tag: string, attributes: seq<Attribute>, ts: seq<Event>,
                      parseDate: string -> Option<int>, isAbsolute: string -> bool)
    requires tag == TAG_ID || tag == TAG_TITLE || tag == TAG_PUBLISHED
    requires forall i :: 0 <= i < |ts| ==> ts[i].Text?
    ensures var s' := Scan(s, [StartTag(tag, attributes)] + ts, parseDate, isAbsolute);
      s'.text == Texts(ts) && s'.state != NoneState
  {
    var open := [StartTag(tag, attributes)];
    ScanAppend(s, open, ts, parseDate, isAbsolute);
    assert open[..0] == [];
    var s1 := Scan(s, open, parseDate, isAbsolute);
    assert s1.text == "" && s1.state != NoneState;
    ScanTexts(s1, ts, parseDate, isAbsolute);
  }

  /** `<id>t1 .. tn</id>` sets the id to the texts, whatever came before:
      the start tag clears the buffer. */
  lemma IdIsItsText(s: EntryScan, attributes: seq<Attribute>, ts: seq<Event>,
                    parseDate: string -> Option<int>, isAbsolute: string -> bool)
    requires forall i :: 0 <= i < |ts| ==> ts[i].Text?
    ensures Scan(s, [StartTag(TAG_ID, attributes)] + ts + [EndTag(TAG_ID)], parseDate, isAbsolute).id == Some(Texts(ts))
  {
    var body := [StartTag(TAG_ID, attributes)] + ts;
    OpenThenTexts(s, TAG_ID, attributes, ts, parseDate, isAbsolute);
    ScanAppend(s, body, [EndTag(TAG_ID)], parseDate, isAbsolute);
    assert [EndTag(TAG_ID)][..0] == [];
  }

  /** The same for the title. */
  lemma TitleIsItsText(s: EntryScan, attributes: seq<Attribute>, ts: seq<Event>,
                       parseDate: string -> Option<int>, isAbsolute: string -> bool)
    requires forall i :: 0 <= i < |ts| ==> ts[i].Text?
    ensures Scan(s, [StartTag(TAG_TITLE, attributes)] + ts + [EndTag(TAG_TITLE)], parseDate, isAbsolute).title == Some(Texts(ts))
  {
    var body := [StartTag(TAG_TITLE, attributes)] + ts;
    OpenThenTexts(s, TAG_TITLE, attributes, ts, parseDate, isAbsolute);
    ScanAppend(s, body, [EndTag(TAG_TITLE)], parseDate, isAbsolute);
    assert [EndTag(TAG_TITLE)][..0] == [];
  }

  /** `<published>t1 .. tn</published>` sets the date to the parsed texts
      when they are non-empty and parse. */
  lemma PublishedIsItsText(s: EntryScan, attributes: seq<Attribute>, ts: seq<Event>,
                           parseDate: string -> Option<int>, isAbsolute: string -> bool)
    requires forall i :: 0 <= i < |ts| ==> ts[i].Text?
    ensures var s' := Scan(s, [StartTag(TAG_PUBLISHED, attributes)] + ts + [EndTag(TAG_PUBLISHED)], parseDate, isAbsolute);
      s'.published == (if Texts(ts) != "" && parseDate(Texts(ts)).Some? then parseDate(Texts(ts)).value else s.published)
  {
    var body := [StartTag(TAG_PUBLISHED, attributes)] + ts;
    OpenThenTexts(s, TAG_PUBLISHED, attributes, ts, parseDate, isAbsolute);
    ScanAppend(s, body, [EndTag(TAG_PUBLISHED)], parseDate, isAbsolute);
    assert [EndTag(TAG_PUBLISHED)][..0] == [];
    PublishedUntouched(s, body, parseDate, isAbsolute);
  }

  /** Without a `published` end tag, the date keeps its value: an entry
      without one has -1. */
  lemma {:induction false} PublishedUntouched(s: EntryScan, es: seq<Event>,
                                              parseDate: string -> Option<int>, isAbsolute: string -> bool)
    requires forall i :: 0 <= i < |es| ==> es[i] != EndTag(TAG_PUBLISHED)
    ensures Scan(s, es, parseDate, isAbsolute).published == s.published
  {
    if es != [] {
      PublishedUntouched(s, es[..|es| - 1], parseDate, isAbsolute);
    }
  }

  /** Nor does an unparseable date change it. */
  lemma {:induction false} UnparseableUntouched(s: EntryScan, es: seq<Event>,
                                                parseDate: string -> Option<int>, isAbsolute: string -> bool)
    requires forall t :: parseDate(t).None?
    ensures Scan(s, es, parseDate, isAbsolute).published == s.published
  {
    if es != [] {
      UnparseableUntouched(s, es[..|es| - 1], parseDate, isAbsolute);
    }
  }

  // readFeed and parse

  /** The loop of `readFeed`, from `pos`, with the entries `acc` read so
      far: until an end tag (that of `feed`); an `entry` element is read,
      any other child element skipped whole, text passed over. It returns
      the entries and what was thrown, if anything: what was read before
      the failure stays in the list. */
  function FeedLoop(events: seq<Event>, pos: nat, acc: seq<FeedEntry>,
                    parseDate: string -> Option<int>, isAbsolute: string -> bool): (r: (seq<FeedEntry>, Option<Failure>))
    requires pos <= |events|
    decreases |events| - pos
  {
    match Next(events, pos)
    case Err(f) => (acc, Some(f))
    case Ok(e) =>
      if e.EndTag? then (acc, None)
      else if !e.StartTag? then FeedLoop(events, pos + 1, acc, parseDate, isAbsolute)
      else if e.name == TAG_ENTRY then
        match ReadEntry(events, pos + 1, parseDate, isAbsolute)
        case Err(f) => (acc, Some(f))
        case Ok((entry, q)) =>
          FeedLoop(events, q, acc + (if entry.Some? then [entry.value] else []), parseDate, isAbsolute)
      else
        match Skip(events, e, pos + 1)
        case Err(f) => (acc, Some(f))
        case Ok(q) => FeedLoop(events, q, acc, parseDate, isAbsolute)
  }

  /** The list is only ever appended to: the entries read before are
      kept, in order, and what follows does not depend on them. */
  lemma {:induction false} FeedLoopAppends(events: seq<Event>, pos: nat, acc: seq<FeedEntry>,
                                           parseDate: string -> Option<int>, isAbsolute: string -> bool)
    requires pos <= |events|
    ensures FeedLoop(events, pos, acc, parseDate, isAbsolute).0 == acc + FeedLoop(events, pos, [], parseDate, isAbsolute).0
    ensures FeedLoop(events, pos, acc, parseDate, isAbsolute).1 == FeedLoop(events, pos, [], parseDate, isAbsolute).1
    decreases |events| - pos
  {
    match Next(events, pos)
    case Err(f) =>
    case Ok(e) =>
      if e.EndTag? {
      } else if !e.StartTag? {
        FeedLoopAppends(events, pos + 1, acc, parseDate, isAbsolute);
      } else if e.name == TAG_ENTRY {
        match ReadEntry(events, pos + 1, parseDate, isAbsolute)
        case Err(f) =>
        case Ok((entry, q)) =>
          var one := if entry.Some? then [entry.value] else [];
          FeedLoopAppends(events, q, acc + one, parseDate, isAbsolute);
          FeedLoopAppends(events, q, one, parseDate, isAbsolute);
          assert [] + one == one;
          assert acc + one + FeedLoop(events, q, [], parseDate, isAbsolute).0
              == acc + (one + FeedLoop(events, q, [], parseDate, isAbsolute).0);
      } else {
        match Skip(events, e, pos + 1)
        case Err(f) =>
        case Ok(q) =>
          FeedLoopAppends(events, q, acc, parseDate, isAbsolute);
      }
  }

  /** A child other than `entry` is skipped whole: the loop goes on right
      after the end tag that closes it. */
  lemma SkipsOtherChild(events: seq<Event>, pos: nat, q: nat, acc: seq<FeedEntry>,
                        parseDate: string -> Option<int>, isAbsolute: string -> bool)
    requires pos + 1 < q <= |events|
    requires events[pos].StartTag? && events[pos].name != TAG_ENTRY
    requires Closes(events, pos + 1, 1, q)
    ensures FeedLoop(events, pos, acc, parseDate, isAbsolute) == FeedLoop(events, q, acc, parseDate, isAbsolute)
  {
    ClosesSkipFrom(events, pos + 1, 1, q);
  }

  /** An `entry` element adds its entry, if it makes one, and the loop
      goes on after its end tag. */
  lemma ReadsEntryChild(events: seq<Event>, pos: nat, q: nat, acc: seq<FeedEntry>,
                        parseDate: string -> Option<int>, isAbsolute: string -> bool)
    requires pos + 1 < q <= |events|
    requires events[pos].StartTag? && events[pos].name == TAG_ENTRY
    requires events[q - 1] == EndTag(TAG_ENTRY)
    requires forall j :: pos + 1 <= j < q - 1 ==> events[j] != EndTag(TAG_ENTRY) && !events[j].Broken?
    ensures var entry := EntryOf(Scan(INITIAL_SCAN, events[pos + 1..q], parseDate, isAbsolute));
      FeedLoop(events, pos, acc, parseDate, isAbsolute)
        == FeedLoop(events, q, acc + (if entry.Some? then [entry.value] else []), parseDate, isAbsolute)
  {
    EntryLoopReaches(events, pos + 1, INITIAL_SCAN, q, parseDate, isAbsolute);
    EntryLoopScans(events, pos + 1, INITIAL_SCAN, parseDate, isAbsolute);
  }

  /** A failure right after an `entry` element ends the loop but keeps the
      entry it made: `parse` returns what was read before the failure. */
  lemma FailureKeepsEntry(events: seq<Event>, pos: nat, q: nat, acc: seq<FeedEntry>,
                          parseDate: string -> Option<int>, isAbsolute: string -> bool)
    requires pos + 1 < q < |events|
    requires events[pos].StartTag? && events[pos].name == TAG_ENTRY
    requires events[q - 1] == EndTag(TAG_ENTRY) && events[q].Broken?
    requires forall j :: pos + 1 <= j < q - 1 ==> events[j] != EndTag(TAG_ENTRY) && !events[j].Broken?
    ensures var entry := EntryOf(Scan(INITIAL_SCAN, events[pos + 1..q], parseDate, isAbsolute));
      FeedLoop(events, pos, acc, parseDate, isAbsolute)
        == (acc + (if entry.Some? then [entry.value] else []), Some(XmlFailure))
  {
    ReadsEntryChild(events, pos, q, acc, parseDate, isAbsolute);
  }

  /** Every entry read is valid. */
  lemma {:induction false} FeedLoopValid(events: seq<Event>, pos: nat, acc: seq<FeedEntry>,
                                         parseDate: string -> Option<int>, isAbsolute: string -> bool)
    requires pos <= |events|
    requires AllValid(acc, events, isAbsolute)
    ensures AllValid(FeedLoop(events, pos, acc, parseDate, isAbsolute).0, events, isAbsolute)
    decreases |events| - pos
  {
    match Next(events, pos)
    case Err(f) =>
    case Ok(e) =>
      if e.EndTag? {
      } else if !e.StartTag? {
        FeedLoopValid(events, pos + 1, acc, parseDate, isAbsolute);
      } else if e.name == TAG_ENTRY {
        match ReadEntry(events, pos + 1, parseDate, isAbsolute)
        case Err(f) =>
        case Ok((entry, q)) =>
          ReadEntryValid(events, pos + 1, parseDate, isAbsolute);
          var acc' := acc + (if entry.Some? then [entry.value] else []);
          assert AllValid(acc', events, isAbsolute) by {
            forall i | 0 <= i < |acc'| ensures Valid(acc'[i], isAbsolute) && LinkedIn(acc'[i], events) {
              if i < |acc| { assert acc'[i] == acc[i]; }
            }
          }
          FeedLoopValid(events, q, acc', parseDate, isAbsolute);
      } else {
        match Skip(events, e, pos + 1)
        case Err(f) =>
        case Ok(q) =>
          FeedLoopValid(events, q, acc, parseDate, isAbsolute);
      }
  }

  /** Whitespace, as `nextTag` skips it. */
  predicate IsWhitespace(s: string)
  {
    forall i :: 0 <= i < |s| ==> s[i] == ' ' || s[i] == '\t' || s[i] == '\n' || s[i] == '\r'
  }

  /** `nextTag()` at the start of the document: past whitespace text to a
      start or end tag; anything else throws. */
  function NextTag(events: seq<Event>, pos: nat): (r: Result<nat, Failure>)
    requires pos <= |events|
    ensures r.Ok? ==> && pos <= r.value < |events|
                      && (events[r.value].StartTag? || events[r.value].EndTag?)
                      && forall j :: pos <= j < r.value ==> events[j].Text? && IsWhitespace(events[j].text)
    ensures r.Err? ==> r.error == XmlFailure
    decreases |events| - pos
  {
    match Next(events, pos)
    case Err(f) => Err(f)
    case Ok(e) =>
      if e.StartTag? || e.EndTag? then Ok(pos)
      else if e.Text? && IsWhitespace(e.text) then NextTag(events, pos + 1)
      else Err(XmlFailure)
  }

  /** `parse(in, charset)`: the entries of a `feed` document. A failure
      anywhere ends the reading but keeps the entries read before it; a
      document whose root is not `feed` has none. */
  function Parse(events: seq<Event>, parseDate: string -> Option<int>, isAbsolute: string -> bool): seq<FeedEntry>
  {
    match NextTag(events, 0)
    case Err(_) => []
    case Ok(k) =>
      if events[k].StartTag? && events[k].name == TAG_FEED then FeedLoop(events, k + 1, [], parseDate, isAbsolute).0
      else []
  }

  /** A root other than `feed` gives no entries. */
  lemma RootNotFeed(events: seq<Event>, k: nat, parseDate: string -> Option<int>, isAbsolute: string -> bool)
    requires k < |events| && events[k].StartTag? && events[k].name != TAG_FEED
    requires forall j :: 0 <= j < k ==> events[j].Text? && IsWhitespace(events[j].text)
    ensures Parse(events, parseDate, isAbsolute) == []
  {
    NextTagFinds(events, 0, k);
  }

  lemma {:induction false} NextTagFinds(events: seq<Event>, pos: nat, k: nat)
    requires pos <= k < |events| && (events[k].StartTag? || events[k].EndTag?)
    requires forall j :: pos <= j < k ==> events[j].Text? && IsWhitespace(events[j].text)
    ensures NextTag(events, pos) == Ok(k)
    decreases k - pos
  {
    if pos < k {
      NextTagFinds(events, pos + 1, k);
    }
  }

  /** Every entry `parse` returns has a non-empty id and title and a
      non-empty absolute link, the `href` of an alternate link of the
      document. */
  lemma ParseValid(events: seq<Event>, parseDate: string -> Option<int>, isAbsolute: string -> bool)
    ensures AllValid(Parse(events, parseDate, isAbsolute), events, isAbsolute)
  {
    match NextTag(events, 0)
    case Err(_) =>
    case Ok(k) =>
      if events[k].StartTag? && events[k].name == TAG_FEED {
        FeedLoopValid(events, k + 1, [], parseDate, isAbsolute);
      }
  }
}
