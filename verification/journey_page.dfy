/** The public journey page (`app/journey/page.tsx`): the journey as the
    public route answers it, the list fields parsed line by line, which
    sections show, the legacy story and the placeholder, the headline
    lines, the title and the image. Rendering is not modelled. */
module JourneyPage {
  import opened Wrappers
  import opened Js
  import Text
  import opened Lines

  /** `parseLines`: the text (`''` when absent) split on "\n", each line
      trimmed, the empty ones dropped. */
  function ParseLines(text: Option<string>): (r: seq<string>)
    ensures forall x :: x in r ==> x != "" && Text.Trimmed(x)
    ensures |r| <= |Text.Split(if text.Some? then text.value else "", "\n")|
  {
    TrimEachTrimmed(Text.Split(if text.Some? then text.value else "", "\n"));
    NonEmpty(TrimEach(Text.Split(if text.Some? then text.value else "", "\n")))
  }

  /** No text gives no lines. */
  lemma ParseNothing()
    ensures ParseLines(None) == []
  {
    assert Text.Split("", "\n") == [""];
    assert TrimEach([""]) == [""];
  }

  /** Lines are parsed one at a time and keep their order: a first line
      (holding no "\n") contributes its trimmed self when it is not blank,
      then come the lines of the rest. */
  lemma {:induction false} ParseLinesCons(line: string, rest: string)
    requires '\n' !in line
    ensures ParseLines(Some(line + "\n" + rest))
            == (if Text.Trim(line) != "" then [Text.Trim(line)] else []) + ParseLines(Some(rest))
  {
    Text.SplitAtFirst(line, "\n", rest);
    var pieces := Text.Split(rest, "\n");
    assert ([line] + pieces)[1..] == pieces;
    var tl := Text.Trim(line);
    TrimEachCons([line] + pieces);
    assert ([tl] + TrimEach(pieces))[1..] == TrimEach(pieces);
  }

  /** A text field of the journey as the page reads it: a missing journey
      or a non-string value reads as absent. */
  function Field(journey: Option<Obj>, key: string): (r: Option<string>)
    ensures r.Some? <==> journey.Some? && Get(journey.value, key).Str?
    ensures r.Some? ==> r.value == Get(journey.value, key).s
  {
    if journey.Some? && Get(journey.value, key).Str? then Some(Get(journey.value, key).s) else None
  }

  /** `Boolean(x?.trim())`: the text is there and not blank. */
  predicate HasText(text: Option<string>)
  {
    text.Some? && Text.Trim(text.value) != ""
  }

  /** Which parts of the page have something to show. */
  datatype Sections = Sections(whoIAm: bool, whatIDo: bool, goals: bool, experience: bool, howIWork: bool,
                               legacy: bool)

  /** The page's `has…` flags: "Who I Am" and the legacy story need
      non-blank text, the list sections at least one parsed line, the goals
      one in either list. */
  function Flags(journey: Option<Obj>): Sections
  {
    Sections(HasText(Field(journey, "whoIAm")),
             |ParseLines(Field(journey, "whatIDo"))| > 0,
             |ParseLines(Field(journey, "shortTermGoals"))| > 0 || |ParseLines(Field(journey, "longTermGoals"))| > 0,
             |ParseLines(Field(journey, "experience"))| > 0,
             |ParseLines(Field(journey, "howIWork"))| > 0,
             HasText(Field(journey, "content")))
  }

  predicate AnySection(f: Sections)
  {
    f.whoIAm || f.whatIDo || f.goals || f.experience || f.howIWork
  }

  /** The legacy story shows only when it has text and no section does. */
  predicate ShowLegacy(f: Sections)
  {
    f.legacy && !AnySection(f)
  }

  /** The placeholder shows only when nothing at all has text. */
  predicate ShowPlaceholder(f: Sections)
  {
    !AnySection(f) && !f.legacy
  }

  /** The page shows exactly one of: the sections, the legacy story, the
      placeholder. */
  lemma OneBody(f: Sections)
    ensures AnySection(f) ==> !ShowLegacy(f) && !ShowPlaceholder(f)
    ensures !AnySection(f) ==> ShowLegacy(f) != ShowPlaceholder(f)
  {
  }

  /** Before the fetch lands (or when it answers `null`) the page shows
      the placeholder and the default title. */
  lemma NoJourneyPlaceholder()
    ensures ShowPlaceholder(Flags(None))
    ensures Title(None) == DefaultTitle
  {
    ParseNothing();
    var f := Flags(None);
    assert f == Sections(false, |ParseLines(None)| > 0, |ParseLines(None)| > 0 || |ParseLines(None)| > 0,
                         |ParseLines(None)| > 0, |ParseLines(None)| > 0, false);
  }

  /** The headline: shown when it has text, as its non-blank lines,
      trimmed. */
  function HeadlineLines(journey: Option<Obj>): (r: seq<string>)
    ensures !HasText(Field(journey, "headline")) ==> r == []
  {
    var h := Field(journey, "headline");
    if HasText(h) then TrimEach(NonBlank(Text.Split(h.value, "\n"))) else []
  }

  /** The headline lines are the headline parsed as `parseLines` does:
      blank lines dropped, the rest trimmed, in order. */
  lemma {:induction false} HeadlineIsParsed(journey: Option<Obj>)
    ensures HeadlineLines(journey) == ParseLines(Field(journey, "headline"))
  {
    var h := Field(journey, "headline");
    var text := if h.Some? then h.value else "";
    TrimThenDrop(Text.Split(text, "\n"));
    if !HasText(h) {
      if h.Some? {
        BlankTextBlankLines(h.value);
      } else {
        ParseNothing();
      }
    }
  }

  /** The "Who I Am" paragraphs: every line, trimmed, blank ones kept. */
  function WhoIAmParagraphs(journey: Option<Obj>): (r: seq<string>)
    ensures HasText(Field(journey, "whoIAm")) ==> |r| == |Text.Split(Field(journey, "whoIAm").value, "\n")|
    ensures !HasText(Field(journey, "whoIAm")) ==> r == []
  {
    var w := Field(journey, "whoIAm");
    if HasText(w) then TrimEach(Text.Split(w.value, "\n")) else []
  }

  /** The legacy story's paragraphs: its non-blank lines, untrimmed. */
  function LegacyParagraphs(journey: Option<Obj>): (r: seq<string>)
    ensures forall x :: x in r ==> Text.Trim(x) != ""
    ensures !ShowLegacy(Flags(journey)) ==> r == []
  {
    if ShowLegacy(Flags(journey)) then NonBlank(Text.Split(Field(journey, "content").value, "\n")) else []
  }

  const DefaultTitle := "My Journey"

  /** `journey?.title || 'My Journey'`. */
  function Title(journey: Option<Obj>): (r: string)
    ensures r != ""
    ensures Field(journey, "title").Some? && Field(journey, "title").value != "" ==> r == Field(journey, "title").value
    ensures !(Field(journey, "title").Some? && Field(journey, "title").value != "") ==> r == DefaultTitle
  {
    var t := Field(journey, "title");
    if t.Some? && t.value != "" then t.value else DefaultTitle
  }

  /** `journey?.imageUrl || profileImage`: the journey's own image wins,
      the profile's image is the fallback. */
  function Image(journey: Option<Obj>, profileImage: Option<string>): (r: Option<string>)
    ensures Field(journey, "imageUrl").Some? && Field(journey, "imageUrl").value != "" ==> r == Field(journey, "imageUrl")
    ensures !(Field(journey, "imageUrl").Some? && Field(journey, "imageUrl").value != "") ==> r == profileImage
  {
    var own := Field(journey, "imageUrl");
    if own.Some? && own.value != "" then own else profileImage
  }

  /** `fetchJourney`: an OK answer that is not `null` replaces the journey;
      anything else leaves it. */
  function AfterFetch(journey: Option<Obj>, ok: bool, data: Option<Obj>): (r: Option<Obj>)
    ensures ok && data.Some? ==> r == data
    ensures !(ok && data.Some?) ==> r == journey
  {
    if ok && data.Some? then data else journey
  }
}
