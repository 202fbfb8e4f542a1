/**
 * Cards and the records they are read from and written to: `addCard` filling
 * a card from a record, `loadCards` adapting legacy records, `saveAndExport`
 * mapping cards to records, and the record-by-record fold that both
 * `importData` and `loadCards` perform until one record throws.
 */
module Cards {
  import opened Wrappers
  import opened Text
  import opened Tags

  /** One card: the fields of its template that the manager reads and writes. */
  datatype Card = Card(
    title: string,     // the shown title
    titleEdit: string, // the title input of the edit form
    url: string,       // the URL text area, one URL per line
    copyText: string,  // the text copied on click; may hold placeholders
    tagsText: string,  // the tags input, comma-separated
    wired: bool)       // its event handlers are attached

  /** The title given to a card whose record has no (or an empty) title. */
  const DefaultTitle: string := "Nouveau titre"

  /** A card cloned from the template and not yet filled. */
  const TemplateCard: Card := Card("", "", "", "", "", false)

  /** The `tags` field of a parsed record: a JSON array or a JSON string. */
  datatype TagsField = TagList(items: seq<string>) | TagText(text: string)

  /**
   * A parsed JSON object as far as the manager reads it; `None` is an absent
   * field. `link` and `copytext` are the legacy names of `url` and `copyText`.
   */
  datatype Record = Record(
    title: Option<string>,
    url: Option<string>,
    link: Option<string>,
    copyText: Option<string>,
    copytext: Option<string>,
    tags: Option<TagsField>)

  /** An element of a parsed JSON array. */
  datatype Entry = Null | Object(record: Record)

  /** The outcome of `JSON.parse` on a stored or imported text. */
  datatype Json = Malformed | NotArray | Array(entries: seq<Entry>)

  /** JavaScript's `value || fallback` on a string field that may be absent. */
  function Or(value: Option<string>, fallback: string): string {
    if value.Some? && value.value != "" then value.value else fallback
  }

  /** Whether a string field is present and non-empty (truthy). */
  predicate Filled(value: Option<string>) {
    value.Some? && value.value != ""
  }

  /**
   * What happened to one record: `addCard` appended a card, or appended it
   * and then threw while filling it, or the record threw before any card was
   * appended.
   */
  datatype Step = Added(card: Card) | AddedThenThrew(card: Card) | Threw

  /** The cards a step appends. */
  function StepCards(s: Step): (r: seq<Card>)
    ensures s.Threw? ==> r == []
    ensures !s.Threw? ==> r == [s.card]
  {
    if s.Threw? then [] else [s.card]
  }

  /** Whether the record is one whose `tags.join` throws: a non-empty string. */
  predicate TagsThrow(r: Record) {
    r.tags.Some? && r.tags.value.TagText? && r.tags.value.text != ""
  }

  /**
   * `addCard(data)`: the template card is appended first, then filled from the
   * record, then wired. A non-empty string `tags` throws at `data.tags.join`,
   * after the title, URL and copy text are filled and before the card is wired.
   */
  function AddCardStep(data: Option<Record>): (s: Step)
    ensures !s.Threw?
    ensures s.Added? <==> !(data.Some? && TagsThrow(data.value))
    ensures s.card.wired <==> s.Added?
    ensures data.None? ==> s.card == TemplateCard.(wired := true)
    ensures data.Some? ==> s.card.title == s.card.titleEdit != ""
    ensures data.Some? && Filled(data.value.title) ==> s.card.title == data.value.title.value
    ensures data.Some? && !Filled(data.value.title) ==> s.card.title == DefaultTitle
    ensures data.Some? ==> s.card.url == Or(data.value.url, "") && s.card.copyText == Or(data.value.copyText, "")
    ensures data.Some? && data.value.tags.Some? && data.value.tags.value.TagList? ==>
            s.card.tagsText == Join(data.value.tags.value.items, TagSeparator)
    ensures data.Some? && !(data.value.tags.Some? && data.value.tags.value.TagList?) ==> s.card.tagsText == ""
  {
    match data
    case None => Added(TemplateCard.(wired := true))
    case Some(r) =>
      var title := Or(r.title, DefaultTitle);
      var filled := TemplateCard.(title := title, titleEdit := title,
                                  url := Or(r.url, ""), copyText := Or(r.copyText, ""));
      match r.tags
      case None => Added(filled.(wired := true))
      case Some(TagList(items)) => Added(filled.(tagsText := Join(items, TagSeparator), wired := true))
      case Some(TagText(text)) =>
        if text == "" then Added(filled.(wired := true)) else AddedThenThrew(filled)
  }

  /**
   * The record `loadCards` builds from a stored one: the new field names first,
   * then the legacy ones, else empty; string tags are split on commas and
   * trimmed (empty pieces are kept).
   */
  function Adapt(r: Record): (a: Record)
    ensures a.title == Some(Or(r.title, ""))
    ensures Filled(r.url) ==> a.url == r.url
    ensures !Filled(r.url) && Filled(r.link) ==> a.url == r.link
    ensures !Filled(r.url) && !Filled(r.link) ==> a.url == Some("")
    ensures Filled(r.copyText) ==> a.copyText == r.copyText
    ensures !Filled(r.copyText) && Filled(r.copytext) ==> a.copyText == r.copytext
    ensures !Filled(r.copyText) && !Filled(r.copytext) ==> a.copyText == Some("")
    ensures a.tags.Some? && a.tags.value.TagList?
    ensures r.tags.Some? && r.tags.value.TagList? ==> a.tags.value.items == r.tags.value.items
    ensures r.tags.Some? && r.tags.value.TagText? && r.tags.value.text != "" ==>
            a.tags.value.items == TrimEach(Split(r.tags.value.text, ','))
    ensures r.tags.None? || r.tags == Some(TagText("")) ==> a.tags.value.items == []
    ensures !TagsThrow(a)
  {
    var tags :=
      match r.tags
      case Some(TagList(items)) => items
      case Some(TagText(text)) => if text == "" then [] else TrimEach(Split(text, ','))
      case None => [];
    Record(Some(Or(r.title, "")), Some(Or(r.url, Or(r.link, ""))), None,
           Some(Or(r.copyText, Or(r.copytext, ""))), None, Some(TagList(tags)))
  }

  /**
   * What `addCard` does with one stored record in `loadCards`: a null record
   * throws, any other is adapted and appended without throwing.
   */
  function LoadStep(e: Entry): (s: Step)
    ensures s.Threw? <==> e.Null?
    ensures !s.AddedThenThrew?
  {
    match e
    case Null => Threw  // `data.title` on null throws before any card is added
    case Object(r) => AddCardStep(Some(Adapt(r)))
  }

  /**
   * What `addCard` does with one imported record: the raw record, unadapted.
   * A card is always appended, blank for a null record, and the record throws
   * only for a non-empty string `tags`.
   */
  function ImportStep(e: Entry): (s: Step)
    ensures !s.Threw?
    ensures s.AddedThenThrew? <==> e.Object? && TagsThrow(e.record)
    ensures e.Null? ==> s.card == TemplateCard.(wired := true)
  {
    match e
    case Null => AddCardStep(None)
    case Object(r) => AddCardStep(Some(r))
  }

  function LoadSteps(entries: seq<Entry>): (r: seq<Step>)
    ensures |r| == |entries| && forall i :: 0 <= i < |r| ==> r[i] == LoadStep(entries[i])
  {
    seq(|entries|, i requires 0 <= i < |entries| => LoadStep(entries[i]))
  }

  function ImportSteps(entries: seq<Entry>): (r: seq<Step>)
    ensures |r| == |entries| && forall i :: 0 <= i < |r| ==> r[i] == ImportStep(entries[i])
  {
    seq(|entries|, i requires 0 <= i < |entries| => ImportStep(entries[i]))
  }

  /**
   * `forEach` over the records, stopping at the first one that throws: the
   * cards appended, and whether every record went through.
   */
  function Run(steps: seq<Step>): (r: (seq<Card>, bool))
    ensures |r.0| <= |steps| && (r.1 ==> |r.0| == |steps|)
    ensures forall i :: 0 <= i < |r.0| ==> !steps[i].Threw? && r.0[i] == steps[i].card
  {
    if steps == [] then ([], true)
    else match steps[0]
      case Added(c) => var rest := Run(steps[1..]); ([c] + rest.0, rest.1)
      case AddedThenThrew(c) => ([c], false)
      case Threw => ([], false)
  }

  /** While no record has thrown, one more record appends its cards. */
  lemma {:induction false} RunSnoc(p: seq<Step>, s: Step)
    requires Run(p).1
    ensures Run(p + [s]) == (Run(p).0 + StepCards(s), s.Added?)
  {
    if p == [] {
      assert p + [s] == [s];
      assert [s][1..] == [];
      assert Run([s][1..]) == ([], true);
      assert Run(p).0 + StepCards(s) == StepCards(s);
      match s {
        case Added(c) =>
          var rest := Run([s][1..]);
          assert Run([s]) == ([c] + rest.0, rest.1);
          assert [c] + rest.0 == [c];
        case AddedThenThrew(c) => assert Run([s]) == ([c], false);
        case Threw => assert Run([s]) == ([], false);
      }
    } else {
      assert (p + [s])[0] == p[0];
      assert (p + [s])[1..] == p[1..] + [s];
      assert p[0].Added?;
      RunSnoc(p[1..], s);
      assert [p[0].card] + (Run(p[1..]).0 + StepCards(s)) == ([p[0].card] + Run(p[1..]).0) + StepCards(s);
    }
  }

  /** Once a record has thrown, the records after it are never looked at. */
  lemma {:induction false} RunStops(p: seq<Step>, q: seq<Step>)
    requires !Run(p).1
    ensures Run(p + q) == Run(p)
  {
    assert p != [];
    assert (p + q)[0] == p[0];
    if p[0].Added? {
      assert (p + q)[1..] == p[1..] + q;
      RunStops(p[1..], q);
    }
  }

  /** While no record has thrown, the pass over one more record appends that record's cards. */
  lemma RunPrefixStep(steps: seq<Step>, k: nat)
    requires k < |steps| && Run(steps[..k]).1
    ensures Run(steps[..k + 1]) == (Run(steps[..k]).0 + StepCards(steps[k]), steps[k].Added?)
  {
    assert steps[..k + 1] == steps[..k] + [steps[k]];
    RunSnoc(steps[..k], steps[k]);
  }

  /** A pass stopped by a throw, or run to the end, is the pass over every record. */
  lemma RunPrefixEnds(steps: seq<Step>, k: nat)
    requires k <= |steps| && (k == |steps| || !Run(steps[..k]).1)
    ensures Run(steps) == Run(steps[..k])
  {
    if k < |steps| {
      RunStops(steps[..k], steps[k..]);
      assert steps[..k] + steps[k..] == steps;
    } else {
      assert steps[..k] == steps;
    }
  }

  /** The fold goes through iff every record only appends; then it appends one card each, in order. */
  lemma {:induction false} RunAllAdded(steps: seq<Step>)
    ensures Run(steps).1 <==> forall i :: 0 <= i < |steps| ==> steps[i].Added?
    ensures Run(steps).1 ==> Run(steps).0 == seq(|steps|, i requires 0 <= i < |steps| => steps[i].card)
  {
    if steps != [] {
      RunAllAdded(steps[1..]);
      if steps[0].Added? {
        assert forall i :: 1 <= i < |steps| ==> steps[i] == steps[1..][i - 1];
      }
    }
  }

  /**
   * An import goes through iff no record has a non-empty string `tags`; it then
   * holds one card per record, in file order, each filled from its record.
   */
  lemma ImportOutcome(entries: seq<Entry>)
    ensures Run(ImportSteps(entries)).1 <==>
            forall i :: 0 <= i < |entries| ==> !(entries[i].Object? && TagsThrow(entries[i].record))
    ensures Run(ImportSteps(entries)).1 ==>
            |Run(ImportSteps(entries)).0| == |entries| &&
            forall i :: 0 <= i < |entries| ==> Run(ImportSteps(entries)).0[i] == ImportStep(entries[i]).card
  {
    RunAllAdded(ImportSteps(entries));
  }

  /** A load goes through iff no stored record is null; every object record yields a card. */
  lemma LoadOutcome(entries: seq<Entry>)
    ensures Run(LoadSteps(entries)).1 <==> Null !in entries
    ensures Run(LoadSteps(entries)).1 ==>
            |Run(LoadSteps(entries)).0| == |entries| &&
            forall i :: 0 <= i < |entries| ==> Run(LoadSteps(entries)).0[i] == LoadStep(entries[i]).card
  {
    RunAllAdded(LoadSteps(entries));
    assert Null in entries ==> exists i :: 0 <= i < |entries| && entries[i] == Null;
  }

  /**
   * A stored record whose `tags` is a string, as older versions saved it,
   * loads as a card whose tags parse to the tags of that string: the adapted
   * list keeps empty pieces, and joining and parsing drops them again.
   */
  lemma LegacyTagsLoad(r: Record, text: string)
    requires r.tags == Some(TagText(text))
    ensures LoadStep(Object(r)).Added?
    ensures ParseTags(LoadStep(Object(r)).card.tagsText) == ParseTags(text)
  {
    var card := LoadStep(Object(r)).card;
    if text == "" {
      assert card.tagsText == Join([], TagSeparator) == "";
      ParseBlank("");
    } else {
      var pieces := TrimEach(Split(text, ','));
      assert card.tagsText == Join(pieces, TagSeparator);
      forall i | 0 <= i < |pieces| ensures Trimmed(pieces[i]) && ',' !in pieces[i] {
        assert ',' !in Split(text, ',')[i];
      }
      ParsePiecesAfterSpace([], pieces);
      assert [] + card.tagsText == card.tagsText;
    }
  }

  /** The record `saveAndExport` writes for a card; the tags are parsed into a list. */
  function ExportRecord(c: Card): (r: Record)
    ensures r.title == Some(c.title) && r.url == Some(c.url) && r.copyText == Some(c.copyText)
    ensures r.link.None? && r.copytext.None?
    ensures r.tags == Some(TagList(ParseTags(c.tagsText)))
  {
    Record(Some(c.title), Some(c.url), None, Some(c.copyText), None,
           Some(TagList(ParseTags(c.tagsText))))
  }

  /** `cards.map(...)`: one record per card, in order. */
  function Export(cards: seq<Card>): (r: seq<Entry>)
    ensures |r| == |cards|
    ensures forall i :: 0 <= i < |r| ==> r[i] == Object(ExportRecord(cards[i]))
  {
    seq(|cards|, i requires 0 <= i < |cards| => Object(ExportRecord(cards[i])))
  }

  /**
   * What survives a save followed by a load: URL, copy text and the parsed tag
   * list; the title too unless it was empty, which comes back as the default.
   */
  predicate SameAfterReload(loaded: Card, saved: Card) {
    && loaded.url == saved.url
    && loaded.copyText == saved.copyText
    && ParseTags(loaded.tagsText) == ParseTags(saved.tagsText)
    && loaded.title == loaded.titleEdit == (if saved.title == "" then DefaultTitle else saved.title)
    && loaded.wired
  }

  /** Loading the record saved for a card gives back the same card, as far as a record can carry it. */
  lemma ReloadCard(c: Card)
    ensures LoadStep(Object(ExportRecord(c))).Added?
    ensures SameAfterReload(LoadStep(Object(ExportRecord(c))).card, c)
  {
    var tags := ParseTags(c.tagsText);
    var a := Adapt(ExportRecord(c));
    assert a == Record(Some(c.title), Some(c.url), None, Some(c.copyText), None, Some(TagList(tags)));
    var loaded := AddCardStep(Some(a)).card;
    assert loaded.tagsText == Join(tags, TagSeparator);
    assert loaded.url == c.url && loaded.copyText == c.copyText;
    ParseIdempotent(c.tagsText);
  }

  /** Saving then loading the collection gives back every card, in order. */
  lemma SaveLoadRoundTrip(cards: seq<Card>)
    ensures Run(LoadSteps(Export(cards))).1
    ensures |Run(LoadSteps(Export(cards))).0| == |cards|
    ensures forall i :: 0 <= i < |cards| ==> SameAfterReload(Run(LoadSteps(Export(cards))).0[i], cards[i])
  {
    var entries := Export(cards);
    LoadOutcome(entries);
    forall i | 0 <= i < |cards|
      ensures SameAfterReload(Run(LoadSteps(entries)).0[i], cards[i])
    {
      ReloadCard(cards[i]);
    }
  }

  /** After one save and load, saving again writes the same records, provided no title was empty. */
  lemma ReloadIsStable(cards: seq<Card>)
    requires forall i :: 0 <= i < |cards| ==> cards[i].title != ""
    ensures Export(Run(LoadSteps(Export(cards))).0) == Export(cards)
  {
    SaveLoadRoundTrip(cards);
    var loaded := Run(LoadSteps(Export(cards))).0;
    forall i | 0 <= i < |cards| ensures ExportRecord(loaded[i]) == ExportRecord(cards[i]) {
      ReloadCard(cards[i]);
    }
  }
}
