/**
 * The tag cloud: `updateTagCloud` counts how many times each tag occurs over
 * all cards, splits the tags into a row of capitalised tags and a row of the
 * others, and sorts each row alphabetically.
 */
module TagCloud {
  import opened Text
  import opened Tags
  import opened Cards

  /** Every tag occurrence of the cards, card by card, in order. */
  function AllTags(cards: seq<Card>): seq<string> {
    if cards == [] then []
    else AllTags(cards[..|cards| - 1]) + ParseTags(cards[|cards| - 1].tagsText)
  }

  /** How many times a tag occurs over all cards. */
  function Occurrences(cards: seq<Card>, tag: string): nat {
    multiset(AllTags(cards))[tag]
  }

  /**
   * The distinct elements of `xs` in order of first occurrence: the key order
   * of a `Map` filled from `xs`.
   */
  function FirstOccurrences(xs: seq<string>): (r: seq<string>)
    ensures forall t :: t in r <==> t in xs
    ensures Distinct(r)
  {
    if xs == [] then []
    else
      var front := FirstOccurrences(xs[..|xs| - 1]);
      assert forall t :: t in xs <==> t in xs[..|xs| - 1] || t == xs[|xs| - 1];
      if xs[|xs| - 1] in front then front else front + [xs[|xs| - 1]]
  }

  predicate Distinct(xs: seq<string>) {
    forall i, j :: 0 <= i < j < |xs| ==> xs[i] != xs[j]
  }

  /**
   * `tag[0] === tag[0].toUpperCase()`: the tag goes to the first row. Only a
   * lower-case first letter sends a tag to the second row; a digit or a sign
   * counts as capitalised.
   */
  predicate IsUpperFirst(tag: string)
    ensures IsUpperFirst(tag) <==> |tag| > 0 && !('a' <= tag[0] <= 'z')
  {
    |tag| > 0 && UpperChar(tag[0]) == tag[0]
  }

  /**
   * `a.localeCompare(b) < 0`, as code-point lexicographic order: a proper
   * prefix sorts first, and no tag sorts before an equal one.
   */
  predicate Less(a: string, b: string)
    ensures a < b ==> Less(a, b)
    ensures Less(a, b) ==> a != b
    decreases |a|
  {
    if a == [] then b != []
    else if b == [] then false
    else a[0] < b[0] || (a[0] == b[0] && Less(a[1..], b[1..]))
  }

  lemma {:induction false} LessIrreflexive(a: string)
    ensures !Less(a, a)
    decreases |a|
  {
    if a != [] {
      LessIrreflexive(a[1..]);
    }
  }

  lemma {:induction false} LessTransitive(a: string, b: string, c: string)
    requires Less(a, b) && Less(b, c)
    ensures Less(a, c)
    decreases |a|
  {
    if a != [] && a[0] == b[0] && b[0] == c[0] {
      LessTransitive(a[1..], b[1..], c[1..]);
    }
  }

  lemma {:induction false} LessTotal(a: string, b: string)
    requires a != b
    ensures Less(a, b) || Less(b, a)
    decreases |a|
  {
    if a != [] && b != [] && a[0] == b[0] {
      assert a == [a[0]] + a[1..] && b == [b[0]] + b[1..];
      LessTotal(a[1..], b[1..]);
    }
  }

  /** A row of the cloud: tags with their counts. */
  type Row = seq<(string, nat)>

  /** Strictly ascending by tag, so no tag appears twice. */
  predicate StrictlySorted(row: Row) {
    forall i, j :: 0 <= i < j < |row| ==> Less(row[i].0, row[j].0)
  }

  predicate DistinctTags(row: Row) {
    forall i, j :: 0 <= i < j < |row| ==> row[i].0 != row[j].0
  }

  /** Inserts one pair into a row, before the first pair whose tag follows it. */
  function InsertByTag(p: (string, nat), row: Row): (r: Row)
    ensures multiset(r) == multiset(row) + multiset{p}
  {
    if row == [] then [p]
    else if Less(p.0, row[0].0) then [p] + row
    else
      assert row == [row[0]] + row[1..];
      [row[0]] + InsertByTag(p, row[1..])
  }

  /** `sort((a, b) => a[0].localeCompare(b[0]))` on a row. */
  function SortByTag(row: Row): (r: Row)
    ensures multiset(r) == multiset(row)
  {
    if row == [] then []
    else
      assert row == [row[0]] + row[1..];
      InsertByTag(row[0], SortByTag(row[1..]))
  }

  /** Sorting keeps exactly the pairs of the row. */
  lemma SortKeepsPairs(row: Row)
    ensures forall p :: p in SortByTag(row) <==> p in row
  {
    var r := SortByTag(row);
    forall p ensures p in r <==> p in row {
      assert p in r <==> p in multiset(r);
      assert p in row <==> p in multiset(row);
    }
  }

  /** Inserting a pair whose tag is new keeps a row strictly sorted. */
  lemma {:induction false} InsertSorted(p: (string, nat), row: Row)
    requires StrictlySorted(row)
    requires forall q :: q in row ==> q.0 != p.0
    ensures StrictlySorted(InsertByTag(p, row))
  {
    if row == [] {
    } else if Less(p.0, row[0].0) {
      var r := [p] + row;
      forall i, j | 0 <= i < j < |r| ensures Less(r[i].0, r[j].0) {
        if i == 0 && j > 1 {
          LessTransitive(p.0, row[0].0, row[j - 1].0);
        }
      }
    } else {
      LessTotal(p.0, row[0].0);
      InsertSorted(p, row[1..]);
      var rest := InsertByTag(p, row[1..]);
      assert multiset(rest) == multiset(row[1..]) + multiset{p};
      forall q | q in rest ensures Less(row[0].0, q.0) {
        assert q in multiset(rest);
        if q != p {
          assert q in row[1..];
        }
      }
    }
  }

  /** Sorting a row with distinct tags makes it strictly sorted. */
  lemma {:induction false} SortSorted(row: Row)
    requires DistinctTags(row)
    ensures StrictlySorted(SortByTag(row))
  {
    if row != [] {
      var rest := row[1..];
      SortSorted(rest);
      forall q | q in SortByTag(rest) ensures q.0 != row[0].0 {
        assert q in multiset(SortByTag(rest));
        assert q in rest;
      }
      InsertSorted(row[0], SortByTag(rest));
    }
  }

  /** The tag occurrences of a prefix of the cards grow by one card's tags. */
  lemma AllTagsStep(cards: seq<Card>, k: nat)
    requires k < |cards|
    ensures AllTags(cards[..k + 1]) == AllTags(cards[..k]) + ParseTags(cards[k].tagsText)
  {
    assert cards[..k + 1][..k] == cards[..k];
  }

  /** The counts and the key order agree with the occurrences `seen`. */
  ghost predicate Tally(counts: map<string, nat>, order: seq<string>, seen: seq<string>) {
    && order == FirstOccurrences(seen)
    && (forall t :: t in counts <==> t in seen)
    && (forall t :: t in counts ==> counts[t] == multiset(seen)[t])
  }

  /** One `tagCount.set`: the tag's count goes up by one, and a new tag becomes the last key. */
  function Bump(counts: map<string, nat>, order: seq<string>, tag: string): (map<string, nat>, seq<string>) {
    (counts[tag := (if tag in counts then counts[tag] else 0) + 1], if tag in counts then order else order + [tag])
  }

  /** The counts and keys after counting `tags`, one after the other. */
  function BumpAll(counts: map<string, nat>, order: seq<string>, tags: seq<string>): (map<string, nat>, seq<string>) {
    if tags == [] then (counts, order)
    else
      var before := BumpAll(counts, order, tags[..|tags| - 1]);
      Bump(before.0, before.1, tags[|tags| - 1])
  }

  /** Counting one more occurrence keeps the counts and the key order in step. */
  lemma TallyStep(counts: map<string, nat>, order: seq<string>, seen: seq<string>, tag: string)
    requires Tally(counts, order, seen)
    ensures Tally(Bump(counts, order, tag).0, Bump(counts, order, tag).1, seen + [tag])
  {
    var next := seen + [tag];
    assert next[..|next| - 1] == seen && next[|next| - 1] == tag;
    assert FirstOccurrences(next) == Bump(counts, order, tag).1;
    assert multiset(next) == multiset(seen) + multiset{tag};
  }

  /** Counting a run of occurrences keeps the counts and the key order in step. */
  lemma {:induction false} TallyAll(counts: map<string, nat>, order: seq<string>, seen: seq<string>, tags: seq<string>)
    requires Tally(counts, order, seen)
    ensures Tally(BumpAll(counts, order, tags).0, BumpAll(counts, order, tags).1, seen + tags)
  {
    if tags == [] {
      assert seen + tags == seen;
    } else {
      var front, last := tags[..|tags| - 1], tags[|tags| - 1];
      SnocFront(seen, tags);
      TallyAll(counts, order, seen, front);
      var before := BumpAll(counts, order, front);
      TallyStep(before.0, before.1, seen + front, last);
    }
  }

  /** A non-empty list is its front followed by its last element, after any prefix. */
  lemma SnocFront(seen: seq<string>, tags: seq<string>)
    requires tags != []
    ensures seen + tags[..|tags| - 1] + [tags[|tags| - 1]] == seen + tags
  {
    assert tags[..|tags| - 1] + [tags[|tags| - 1]] == tags;
  }

  /** `tags.forEach(tag => tagCount.set(tag, (tagCount.get(tag) || 0) + 1))`. */
  method CountCardTags(counts0: map<string, nat>, order0: seq<string>, tags: seq<string>)
    returns (counts: map<string, nat>, order: seq<string>)
    ensures (counts, order) == BumpAll(counts0, order0, tags)
  {
    counts, order := counts0, order0;
    var j := 0;
    while j < |tags|
      invariant 0 <= j <= |tags|
      invariant (counts, order) == BumpAll(counts0, order0, tags[..j])
    {
      var tag := tags[j];
      assert tags[..j + 1][..j] == tags[..j];
      if tag !in counts {
        order := order + [tag];
      }
      counts := counts[tag := (if tag in counts then counts[tag] else 0) + 1];
      j := j + 1;
    }
    assert tags[..j] == tags;
  }

  /**
   * The counting pass: a `Map` from tag to occurrences, filled card by card
   * and tag by tag, and its keys in insertion order.
   */
  method CountTags(cards: seq<Card>) returns (counts: map<string, nat>, order: seq<string>)
    ensures order == FirstOccurrences(AllTags(cards))
    ensures forall t :: t in counts <==> t in AllTags(cards)
    ensures forall t :: t in counts ==> counts[t] == Occurrences(cards, t)
  {
    counts, order := map[], [];
    var k := 0;
    while k < |cards|
      invariant 0 <= k <= |cards|
      invariant Tally(counts, order, AllTags(cards[..k]))
    {
      var tags := ParseTags(cards[k].tagsText);
      AllTagsStep(cards, k);
      TallyAll(counts, order, AllTags(cards[..k]), tags);
      counts, order := CountCardTags(counts, order, tags);
      k := k + 1;
    }
    assert cards[..k] == cards;
  }

  /**
   * `tagCount.forEach`: walks the keys in insertion order and appends each tag
   * with its count to the first row or the second.
   */
  method SplitRows(counts: map<string, nat>, order: seq<string>) returns (upperTags: Row, lowerTags: Row)
    requires Distinct(order)
    requires forall t :: t in order ==> t in counts
    ensures DistinctTags(upperTags) && DistinctTags(lowerTags)
    ensures forall p :: p in upperTags ==> IsUpperFirst(p.0) && p.0 in order && p.1 == counts[p.0]
    ensures forall p :: p in lowerTags ==> !IsUpperFirst(p.0) && p.0 in order && p.1 == counts[p.0]
    ensures forall t :: t in order ==> (t, counts[t]) in (if IsUpperFirst(t) then upperTags else lowerTags)
  {
    upperTags, lowerTags := [], [];
    var i := 0;
    while i < |order|
      invariant 0 <= i <= |order|
      invariant forall p :: p in upperTags ==> IsUpperFirst(p.0) && p.0 in order[..i] && p.1 == counts[p.0]
      invariant forall p :: p in lowerTags ==> !IsUpperFirst(p.0) && p.0 in order[..i] && p.1 == counts[p.0]
      invariant DistinctTags(upperTags) && DistinctTags(lowerTags)
      invariant forall t :: t in order[..i] ==> (t, counts[t]) in (if IsUpperFirst(t) then upperTags else lowerTags)
    {
      var tag := order[i];
      assert tag !in order[..i];
      assert order[..i + 1] == order[..i] + [tag];
      if IsUpperFirst(tag) {
        upperTags := upperTags + [(tag, counts[tag])];
      } else {
        lowerTags := lowerTags + [(tag, counts[tag])];
      }
      i := i + 1;
    }
    assert order[..i] == order;
  }

  /**
   * `updateTagCloud`: the two rows of the cloud. The first holds the tags
   * whose first character is unchanged by upper-casing, the second the rest;
   * each row is sorted and pairs every tag with its number of occurrences.
   */
  method UpdateTagCloud(cards: seq<Card>) returns (upper: Row, lower: Row)
    ensures StrictlySorted(upper) && StrictlySorted(lower)
    ensures forall p :: p in upper ==> IsUpperFirst(p.0)
    ensures forall p :: p in lower ==> !IsUpperFirst(p.0)
    ensures forall p :: p in upper + lower ==> p.0 in AllTags(cards) && p.1 == Occurrences(cards, p.0)
    ensures forall t :: t in AllTags(cards) ==>
              (t, Occurrences(cards, t)) in (if IsUpperFirst(t) then upper else lower)
  {
    var counts, order := CountTags(cards);
    var upperTags, lowerTags := SplitRows(counts, order);
    upper := SortByTag(upperTags);
    lower := SortByTag(lowerTags);
    SortSorted(upperTags);
    SortSorted(lowerTags);
    SortKeepsPairs(upperTags);
    SortKeepsPairs(lowerTags);
  }

  /** A capitalised tag and its lower-case twin land in different rows. */
  lemma RowsByCapital()
    ensures IsUpperFirst("Urgent") && !IsUpperFirst("urgent")
  {
  }

  /** A tag written twice on one card counts twice. */
  lemma RepeatedTagCountsTwice(c: Card)
    requires c.tagsText == "a, a"
    ensures AllTags([c]) == ["a", "a"]
    ensures Occurrences([c], "a") == 2
  {
    assert Join(["a", "a"], TagSeparator) == "a, a";
    ParseJoin(["a", "a"]);
    assert [c][..0] == [];
  }
}
