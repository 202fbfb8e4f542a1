/**
 * The card manager itself: the ordered list of cards, the set of active tags,
 * the text of the search box and the text saved under the key `cards`, and
 * the handlers that change them — loading at start-up, adding, editing,
 * saving, deleting, importing, searching and clicking a tag or a title.
 */
module Manager {
  import opened Wrappers
  import opened Text
  import opened Cards
  import opened Query
  import opened Links
  import opened Placeholders

  /**
   * The cards `loadCards` appends for what was saved: nothing unless it
   * parses as an array; then at most one card per record, each with its
   * handlers attached, since an adapted record never throws once its card is
   * appended.
   */
  function Loaded(saved: Option<Json>): (r: seq<Card>)
    ensures !(saved.Some? && saved.value.Array?) ==> r == []
    ensures saved.Some? && saved.value.Array? ==> |r| <= |saved.value.entries|
    ensures forall i :: 0 <= i < |r| ==> r[i].wired
  {
    match saved
    case Some(Array(entries)) => Run(LoadSteps(entries)).0
    case _ => []
  }

  /** The steps of one pass over parsed records: adapted ones on load, raw ones on import. */
  function EntrySteps(entries: seq<Entry>, adapt: bool): seq<Step> {
    if adapt then LoadSteps(entries) else ImportSteps(entries)
  }

  /** The input fields of a card's edit form. */
  datatype Input = TitleInput | UrlInput | CopyTextInput | TagsInput

  /**
   * A card after typing `value` into one of its inputs. The title input is
   * mirrored into the shown title only when the card's handlers are attached.
   */
  function Edited(c: Card, input: Input, value: string): (r: Card)
    ensures r.wired == c.wired
    ensures c.wired && c.title == c.titleEdit ==> r.title == r.titleEdit
    ensures input == TitleInput ==> r.titleEdit == value && r.url == c.url && r.copyText == c.copyText && r.tagsText == c.tagsText
    ensures input == TitleInput && c.wired ==> r.title == value
    ensures input == TitleInput && !c.wired ==> r.title == c.title
    ensures input != TitleInput ==> r.title == c.title && r.titleEdit == c.titleEdit
    ensures input == UrlInput ==> r.url == value && r.copyText == c.copyText && r.tagsText == c.tagsText
    ensures input == CopyTextInput ==> r.copyText == value && r.url == c.url && r.tagsText == c.tagsText
    ensures input == TagsInput ==> r.tagsText == value && r.url == c.url && r.copyText == c.copyText
  {
    match input
    case TitleInput => c.(titleEdit := value, title := if c.wired then value else c.title)
    case UrlInput => c.(url := value)
    case CopyTextInput => c.(copyText := value)
    case TagsInput => c.(tagsText := value)
  }

  /** What the import reports. */
  datatype ImportResult = NoFile | ImportError | ImportSuccess

  class CardManager {
    /** `this.cards`, in display order. */
    var cards: seq<Card>
    /** `this.activeTags`. */
    var activeTags: set<string>
    /** The value of the search box. */
    var search: string
    /** The text saved under `cards`, as `JSON.parse` reads it; `None` when there is none. */
    var stored: Option<Json>

    /** Every card with handlers shows the title its title input holds. */
    ghost predicate Valid()
      reads this
    {
      forall i :: 0 <= i < |cards| ==> cards[i].wired ==> cards[i].title == cards[i].titleEdit
    }

    /** The constructor: no active tag, an empty search, and the saved cards loaded. */
    constructor(saved: Option<Json>)
      ensures Valid()
      ensures cards == Loaded(saved)
      ensures activeTags == {} && search == "" && stored == saved
    {
      cards, activeTags, search, stored := [], {}, "", saved;
      new;
      LoadCards();
    }

    /**
     * `addCard(data)`: appends a card filled from the record; answers whether
     * it went through without throwing.
     */
    method AddCard(data: Option<Record>) returns (finished: bool)
      requires Valid()
      modifies this
      ensures Valid()
      ensures cards == old(cards) + [AddCardStep(data).card]
      ensures finished == AddCardStep(data).Added?
      ensures activeTags == old(activeTags) && search == old(search) && stored == old(stored)
    {
      var step := AddCardStep(data);
      cards := cards + [step.card];
      finished := step.Added?;
    }

    /**
     * `cardData.forEach(data => ...addCard(...))`: adds one card per record,
     * in order, until a record throws; answers whether every record went
     * through. On load a record is adapted first, and a null one throws
     * before any card is added; on import it is passed as it is.
     */
    method AddEntries(entries: seq<Entry>, adapt: bool) returns (complete: bool)
      requires Valid()
      modifies this
      ensures Valid()
      ensures cards == old(cards) + Run(EntrySteps(entries, adapt)).0
      ensures complete == Run(EntrySteps(entries, adapt)).1
      ensures activeTags == old(activeTags) && search == old(search) && stored == old(stored)
    {
      ghost var steps := EntrySteps(entries, adapt);
      ghost var start := cards;
      var k := 0;
      complete := true;
      assert steps[..0] == [];
      while k < |entries| && complete
        invariant 0 <= k <= |entries|
        invariant complete == Run(steps[..k]).1
        invariant cards == start + Run(steps[..k]).0
        invariant Valid()
        invariant activeTags == old(activeTags) && search == old(search) && stored == old(stored)
      {
        var e := entries[k];
        ghost var step := steps[k];
        RunPrefixStep(steps, k);
        ghost var before := cards;
        if adapt && e.Null? {
          complete := false;
        } else {
          var data := if e.Null? then None else Some(if adapt then Adapt(e.record) else e.record);
          assert step == AddCardStep(data);
          complete := AddCard(data);
        }
        assert cards == before + StepCards(step);
        Regroup(start, Run(steps[..k]).0, StepCards(step));
        k := k + 1;
      }
      RunPrefixEnds(steps, k);
    }

    method LoadCards()
      requires Valid()
      modifies this
      ensures Valid()
      ensures cards == old(cards) + Loaded(stored)
      ensures activeTags == old(activeTags) && search == old(search) && stored == old(stored)
    {
      match stored
      case Some(Array(entries)) =>
        var _ := AddEntries(entries, true);
      case _ =>
    }

    /** `saveAndExport`: writes one record per card and offers the same records as a download. */
    method SaveAndExport() returns (exported: seq<Entry>)
      modifies this
      ensures exported == Export(cards) && stored == Some(Array(exported))
      ensures cards == old(cards) && activeTags == old(activeTags) && search == old(search)
    {
      exported := Export(cards);
      stored := Some(Array(exported));
    }

    /** Typing into one input of a card's edit form. */
    method Type(i: nat, input: Input, value: string)
      requires i < |cards| && Valid()
      modifies this
      ensures Valid()
      ensures cards == old(cards)[i := Edited(old(cards)[i], input, value)]
      ensures activeTags == old(activeTags) && search == old(search) && stored == old(stored)
    {
      cards := cards[i := Edited(cards[i], input, value)];
    }

    /**
     * The save button: copies the title input into the shown title, then
     * saves. Since typing already mirrors the title, the cards stay as they
     * are and only the saved records change. A card without handlers ignores
     * the click.
     */
    method Save(i: nat) returns (exported: Option<seq<Entry>>)
      requires i < |cards| && Valid()
      modifies this
      ensures Valid()
      ensures cards == old(cards)
      ensures old(cards[i]).wired ==> exported == Some(Export(cards)) && stored == Some(Array(Export(cards)))
      ensures !old(cards[i]).wired ==> exported.None? && stored == old(stored)
      ensures activeTags == old(activeTags) && search == old(search)
    {
      if cards[i].wired {
        cards := cards[i := cards[i].(title := cards[i].titleEdit)];
        assert cards == old(cards);
        var records := SaveAndExport();
        exported := Some(records);
      } else {
        exported := None;
      }
    }

    /**
     * The delete button: after a confirmation, removes exactly that card,
     * keeps the others in order and saves; declined, it changes nothing.
     */
    method Delete(i: nat, confirmed: bool) returns (exported: Option<seq<Entry>>)
      requires i < |cards| && Valid()
      modifies this
      ensures Valid()
      ensures confirmed && old(cards[i]).wired ==>
                cards == old(cards[..i] + cards[i + 1..]) &&
                exported == Some(Export(cards)) && stored == Some(Array(Export(cards)))
      ensures !(confirmed && old(cards[i]).wired) ==> cards == old(cards) && exported.None? && stored == old(stored)
      ensures activeTags == old(activeTags) && search == old(search)
    {
      if confirmed && cards[i].wired {
        cards := cards[..i] + cards[i + 1..];
        var records := SaveAndExport();
        exported := Some(records);
      } else {
        exported := None;
      }
    }

    /**
     * `importData`: without a file nothing happens; a text that does not
     * parse changes nothing. Otherwise the list is cleared first; a parsed
     * value that is not an array then fails; an array rebuilds the list from
     * its raw records, in file order, and is saved as it is if no record threw.
     */
    method ImportData(file: Option<Json>) returns (result: ImportResult)
      requires Valid()
      modifies this
      ensures Valid()
      ensures file.None? ==> result == NoFile && cards == old(cards) && stored == old(stored)
      ensures file == Some(Malformed) ==> result == ImportError && cards == old(cards) && stored == old(stored)
      ensures file == Some(NotArray) ==> result == ImportError && cards == [] && stored == old(stored)
      ensures file.Some? && file.value.Array? ==>
                var run := Run(ImportSteps(file.value.entries));
                && cards == run.0
                && (result == ImportSuccess <==> run.1)
                && result != NoFile
                && stored == (if run.1 then file else old(stored))
      ensures activeTags == old(activeTags) && search == old(search)
    {
      match file
      case None =>
        result := NoFile;
      case Some(Malformed) =>
        result := ImportError;
      case Some(NotArray) =>
        cards := [];
        result := ImportError;
      case Some(Array(entries)) =>
        cards := [];
        var complete := AddEntries(entries, false);
        if complete {
          stored := file;
          result := ImportSuccess;
        } else {
          result := ImportError;
        }
    }

    /** The search box: filters the cards with the new text and the active tags. */
    method Search(text: string) returns (shown: seq<bool>, count: nat, counter: string)
      modifies this
      ensures search == text
      ensures cards == old(cards) && activeTags == old(activeTags) && stored == old(stored)
      ensures |shown| == |cards|
      ensures forall i :: 0 <= i < |cards| ==> shown[i] == Visible(cards[i], text, activeTags)
      ensures count == VisibleCount(cards, text, activeTags) && counter == ResultText(count)
    {
      search := text;
      shown, count, counter := FilterCards(cards, search, activeTags);
    }

    /** A click on a tag of the cloud: toggles it, then filters again with the current search. */
    method ClickTag(tag: string) returns (shown: seq<bool>, count: nat, counter: string)
      modifies this
      ensures activeTags == Toggle(old(activeTags), tag)
      ensures cards == old(cards) && search == old(search) && stored == old(stored)
      ensures |shown| == |cards|
      ensures forall i :: 0 <= i < |cards| ==> shown[i] == Visible(cards[i], search, activeTags)
      ensures count == VisibleCount(cards, search, activeTags) && counter == ResultText(count)
    {
      activeTags := Toggle(activeTags, tag);
      shown, count, counter := FilterCards(cards, search, activeTags);
    }

    /**
     * A click on a card's title: copies its text with the placeholders
     * replaced, then opens its URLs when it has any. `now`, `clipboard` and
     * `browser` stand for the clock, the clipboard read and `window.open`.
     */
    method ClickTitle(i: nat, now: DateTime, clipboard: Option<string>, browser: (nat, string) -> OpenOutcome)
      returns (copied: Option<string>, attempts: seq<string>, notices: seq<Notice>)
      requires i < |cards|
      ensures !cards[i].wired ==> copied.None? && attempts == [] && notices == []
      ensures cards[i].wired ==> copied == Some(Substitute(cards[i].copyText, Registry(now, clipboard)))
      ensures cards[i].wired ==>
                |attempts| == |UrlLines(cards[i].url)| &&
                forall j :: 0 <= j < |attempts| ==> attempts[j] == Trim(UrlLines(cards[i].url)[j])
      ensures ManyLinksWarning in notices ==> |attempts| > 1
    {
      copied, attempts, notices := None, [], [];
      var card := cards[i];
      if card.wired {
        var text := ReplacePlaceholders(card.copyText, Registry(now, clipboard));
        copied := Some(text);
        if |UrlLines(card.url)| > 0 {
          var outcomes, ok;
          attempts, outcomes, notices, ok := OpenCardUrls(card.url, browser);
        }
      }
    }
  }

  /**
   * A null record behaves differently in the two passes: an import adds a
   * blank card for it, a load throws and adds nothing.
   */
  lemma NullRecordImportedNotLoaded()
    ensures Run(ImportSteps([Null])).0 == [TemplateCard.(wired := true)]
    ensures Run(LoadSteps([Null])) == ([], false)
  {
    assert ImportSteps([Null])[1..] == [];
    assert LoadSteps([Null])[0] == Threw;
  }

  /** The legacy field `link` is read on load but ignored on import. */
  lemma LegacyLinkOnlyOnLoad(r: Record)
    requires !Filled(r.url) && Filled(r.link) && !TagsThrow(r)
    ensures ImportStep(Object(r)).card.url == ""
    ensures LoadStep(Object(r)).card.url == r.link.value
  {
  }
}
