/**
 * The query engine of the search box and the tag cloud: which cards
 * `filterCards` shows for a search text and a set of active tags, how many
 * it counts, the result label it writes, and the toggle of a clicked tag.
 */
module Query {
  import opened Text
  import opened Tags
  import opened Cards

  /**
   * The title matches the search: an empty search, or a case-insensitive
   * substring, so a matching search is never longer than the title.
   */
  predicate MatchesSearch(title: string, search: string)
    ensures MatchesSearch(title, search) ==> |search| <= |title|
  {
    search == "" || Contains(Lower(title), Lower(search))
  }

  /**
   * Every active tag is one of the card's tags (AND, not OR); the test on an
   * empty set only short-cuts what the quantifier already gives.
   */
  predicate HasAllActiveTags(tags: seq<string>, active: set<string>)
    ensures HasAllActiveTags(tags, active) <==> forall t :: t in active ==> t in tags
  {
    |active| == 0 || forall t :: t in active ==> t in tags
  }

  /**
   * Whether `filterCards` shows the card. A shown card's parsed tags include
   * every active tag, so every active tag is one parsing can produce.
   */
  predicate Visible(c: Card, search: string, active: set<string>)
    ensures Visible(c, search, active) ==> forall t :: t in active ==> t in ParseTags(c.tagsText) && ValidTag(t)
  {
    MatchesSearch(c.title, search) && HasAllActiveTags(ParseTags(c.tagsText), active)
  }

  /** How many of the cards a test accepts. */
  function CountIf(cards: seq<Card>, shows: Card -> bool): nat {
    if cards == [] then 0
    else CountIf(cards[..|cards| - 1], shows) + (if shows(cards[|cards| - 1]) then 1 else 0)
  }

  /** Counting over one more card of a list adds that card's vote. */
  lemma CountIfNext(cards: seq<Card>, k: nat, shows: Card -> bool)
    requires k < |cards|
    ensures CountIf(cards[..k + 1], shows) == CountIf(cards[..k], shows) + (if shows(cards[k]) then 1 else 0)
  {
    assert cards[..k + 1][..k] == cards[..k];
  }

  /** The first `k` flags say, card by card, whether the test accepts the card. */
  ghost predicate ShownAs(cards: seq<Card>, shown: seq<bool>, shows: Card -> bool, k: nat) {
    k <= |cards| && |shown| == k && forall i :: 0 <= i < k ==> shown[i] == shows(cards[i])
  }

  /** The flag of the next card extends the flags by one. */
  lemma ShownNext(cards: seq<Card>, shown: seq<bool>, shows: Card -> bool, k: nat)
    requires ShownAs(cards, shown, shows, k) && k < |cards|
    ensures ShownAs(cards, shown + [shows(cards[k])], shows, k + 1)
  {
  }

  /** How many of the cards are visible. */
  function VisibleCount(cards: seq<Card>, search: string, active: set<string>): nat {
    CountIf(cards, c => Visible(c, search, active))
  }

  /** The label of the result counter: "N résultat(s)", or "Aucun résultat" for none. */
  function ResultText(count: nat): (r: string)
    ensures count == 0 <==> r == "Aucun r\U{00E9}sultat"
    ensures count > 0 ==>
              var n := |NatToString(count)|;
              && |r| > n && IsDigits(r[..n]) && DecimalValue(r[..n]) == count && r[n] == ' '
              && (r[|r| - 1] == 's' <==> count > 1)
  {
    if count > 0 then
      var digits := NatToString(count);
      var r := digits + " r\U{00E9}sultat" + (if count > 1 then "s" else "");
      assert r[..|digits|] == digits;
      r
    else "Aucun r\U{00E9}sultat"
  }

  /**
   * `filterCards(search)`: decides every card's visibility, counts the
   * visible ones and builds the counter label.
   */
  method FilterCards(cards: seq<Card>, search: string, active: set<string>)
    returns (shown: seq<bool>, count: nat, counter: string)
    ensures |shown| == |cards|
    ensures forall i :: 0 <= i < |cards| ==> shown[i] == Visible(cards[i], search, active)
    ensures count == VisibleCount(cards, search, active)
    ensures counter == ResultText(count)
  {
    ghost var shows := c => Visible(c, search, active);
    shown, count := [], 0;
    var k := 0;
    while k < |cards|
      invariant 0 <= k <= |cards|
      invariant ShownAs(cards, shown, shows, k)
      invariant count == CountIf(cards[..k], shows)
    {
      var card := cards[k];
      var visible := Visible(card, search, active);
      assert visible == shows(card);
      CountIfNext(cards, k, shows);
      ShownNext(cards, shown, shows, k);
      shown := shown + [visible];
      count := count + (if visible then 1 else 0);
      k := k + 1;
    }
    assert cards[..k] == cards;
    counter := ResultText(count);
  }

  /** A count never exceeds the number of cards, and reaches it only when the test accepts every card. */
  lemma {:induction false} CountIfBound(cards: seq<Card>, shows: Card -> bool)
    ensures CountIf(cards, shows) <= |cards|
    ensures CountIf(cards, shows) == |cards| <==> forall i :: 0 <= i < |cards| ==> shows(cards[i])
  {
    if cards != [] {
      var front := cards[..|cards| - 1];
      CountIfBound(front, shows);
      assert forall i :: 0 <= i < |front| ==> front[i] == cards[i];
    }
  }

  /** A test that accepts fewer cards counts fewer. */
  lemma {:induction false} CountIfMonotone(cards: seq<Card>, fewer: Card -> bool, more: Card -> bool)
    requires forall c :: fewer(c) ==> more(c)
    ensures CountIf(cards, fewer) <= CountIf(cards, more)
  {
    if cards != [] {
      CountIfMonotone(cards[..|cards| - 1], fewer, more);
    }
  }

  /** The visible count is at most the number of cards, and equal to it exactly when every card is shown. */
  lemma VisibleCountBound(cards: seq<Card>, search: string, active: set<string>)
    ensures VisibleCount(cards, search, active) <= |cards|
    ensures VisibleCount(cards, search, active) == |cards| <==>
            forall i :: 0 <= i < |cards| ==> Visible(cards[i], search, active)
  {
    CountIfBound(cards, c => Visible(c, search, active));
  }

  /** With an empty search and no active tag, every card is shown. */
  lemma ShowAll(cards: seq<Card>)
    ensures forall i :: 0 <= i < |cards| ==> Visible(cards[i], "", {})
    ensures VisibleCount(cards, "", {}) == |cards|
  {
    VisibleCountBound(cards, "", {});
  }

  /** More active tags never show a card that fewer tags hide. */
  lemma MoreTagsShowLess(c: Card, search: string, active: set<string>, more: set<string>)
    requires active <= more
    ensures Visible(c, search, more) ==> Visible(c, search, active)
  {
    if Visible(c, search, more) && |active| > 0 {
      assert forall t :: t in active ==> t in more;
    }
  }

  /** Activating more tags never raises the count. */
  lemma MoreTagsCountLess(cards: seq<Card>, search: string, active: set<string>, more: set<string>)
    requires active <= more
    ensures VisibleCount(cards, search, more) <= VisibleCount(cards, search, active)
  {
    forall c | Visible(c, search, more) ensures Visible(c, search, active) {
      MoreTagsShowLess(c, search, active, more);
    }
    CountIfMonotone(cards, c => Visible(c, search, more), c => Visible(c, search, active));
  }

  /** An empty tag is never produced by parsing, so an active empty tag hides every card. */
  lemma EmptyTagMatchesNothing(c: Card, search: string, active: set<string>)
    requires "" in active
    ensures !Visible(c, search, active)
  {
  }

  /** The search ignores case: the title "Draft v2" matches "draft". */
  lemma SearchIgnoresCase()
    ensures MatchesSearch("Draft v2", "draft")
  {
    assert Lower("draft") == "draft";
    assert Lower("Draft v2")[..5] == "draft";
  }

  /**
   * Active tags combine with AND: a card tagged `a, b` is shown for {a} and
   * for {a, b}, and hidden for {a, x} when `x` is neither of its tags.
   */
  lemma TagsCombineWithAnd(c: Card, a: string, b: string, x: string)
    requires ValidTag(a) && ValidTag(b) && x != a && x != b
    requires c.tagsText == a + TagSeparator + b
    ensures Visible(c, "", {a}) && Visible(c, "", {a, b})
    ensures !Visible(c, "", {a, x})
  {
    TwoTags(a, b);
    ShownForFirstTag(c, a, b);
    ShownForBothTags(c, a, b);
    HiddenForOtherTag(c, a, b, x);
  }

  /** A card whose tags parse to `[a, b]` is shown for {a}. */
  lemma ShownForFirstTag(c: Card, a: string, b: string)
    requires ParseTags(c.tagsText) == [a, b]
    ensures Visible(c, "", {a})
  {
    ShownWhenAllPresent(c, {a}, [a, b]);
  }

  /** A card whose tags parse to `[a, b]` is shown for {a, b}. */
  lemma ShownForBothTags(c: Card, a: string, b: string)
    requires ParseTags(c.tagsText) == [a, b]
    ensures Visible(c, "", {a, b})
  {
    ShownWhenAllPresent(c, {a, b}, [a, b]);
  }

  /** A card whose tags parse to `[a, b]` is hidden for {a, x} when `x` is neither. */
  lemma HiddenForOtherTag(c: Card, a: string, b: string, x: string)
    requires ParseTags(c.tagsText) == [a, b] && x != a && x != b
    ensures !Visible(c, "", {a, x})
  {
    NotInPair(x, a, b);
    HiddenWhenOneMissing(c, {a, x}, [a, b], x);
  }

  /** A string that is neither of two is not in their pair. */
  lemma NotInPair(x: string, a: string, b: string)
    requires x != a && x != b
    ensures x !in [a, b]
  {
  }

  /** Two valid tags written with `", "` parse back to the two tags. */
  lemma TwoTags(a: string, b: string)
    requires ValidTag(a) && ValidTag(b)
    ensures ParseTags(a + TagSeparator + b) == [a, b]
  {
    assert [a, b][1..] == [b];
    assert Join([a, b], TagSeparator) == a + TagSeparator + b;
    ParseJoin([a, b]);
  }

  /** With an empty search, a card whose parsed tags include every active tag is shown. */
  lemma ShownWhenAllPresent(c: Card, active: set<string>, tags: seq<string>)
    requires ParseTags(c.tagsText) == tags
    requires forall t :: t in active ==> t in tags
    ensures Visible(c, "", active)
  {
  }

  /** A card is hidden as soon as one active tag is missing from its parsed tags. */
  lemma HiddenWhenOneMissing(c: Card, active: set<string>, tags: seq<string>, x: string)
    requires ParseTags(c.tagsText) == tags
    requires x in active && x !in tags
    ensures !Visible(c, "", active)
  {
  }

  /** A click on a tag: removes it from the active set if present, adds it otherwise. */
  function Toggle(active: set<string>, tag: string): (r: set<string>)
    ensures tag in r <==> tag !in active
    ensures forall t :: t != tag ==> (t in r <==> t in active)
  {
    if tag in active then active - {tag} else active + {tag}
  }

  /** Two clicks on the same tag give back the active set. */
  lemma ToggleTwice(active: set<string>, tag: string)
    ensures Toggle(Toggle(active, tag), tag) == active
  {
  }
}
