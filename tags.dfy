/**
 * The tag list of a card. The card keeps its tags as the text of its tags
 * input; every reader parses that text with `split(',')`, `trim` on each
 * piece and a filter that drops empty pieces, and every writer joins a tag
 * list with ", ".
 */
module Tags {
  import opened Text

  /** What parsing can produce: a non-empty, trimmed tag without a comma. */
  predicate ValidTag(t: string) {
    t != [] && Trimmed(t) && ',' !in t
  }

  /** The separator `addCard` joins a tag list with. */
  const TagSeparator: string := ", "

  /**
   * `filter(tag => tag)`: keeps the non-empty strings, in order, each as
   * often as it occurs.
   */
  function DropEmpty(parts: seq<string>): (r: seq<string>)
    ensures forall t :: t in r <==> t in parts && t != []
    ensures multiset(r) == multiset(parts)[[] := 0]
    ensures |r| <= |parts|
  {
    if parts == [] then []
    else
      assert parts == [parts[0]] + parts[1..];
      if parts[0] == [] then DropEmpty(parts[1..])
      else [parts[0]] + DropEmpty(parts[1..])
  }

  /** The tags of a card, read from its tags text. */
  function ParseTags(text: string): (r: seq<string>)
    ensures forall i :: 0 <= i < |r| ==> ValidTag(r[i])
  {
    var pieces := Split(text, ',');
    var trimmed := TrimEach(pieces);
    TrimmedPieces(pieces);
    DropEmptyValid(trimmed);
    DropEmpty(trimmed)
  }

  /** Trimming comma-free pieces gives trimmed, comma-free pieces. */
  lemma TrimmedPieces(pieces: seq<string>)
    requires forall i :: 0 <= i < |pieces| ==> ',' !in pieces[i]
    ensures forall i :: 0 <= i < |pieces| ==> Trimmed(TrimEach(pieces)[i]) && ',' !in TrimEach(pieces)[i]
  {
    forall i | 0 <= i < |pieces| ensures ',' !in TrimEach(pieces)[i] {
      assert ',' !in pieces[i];
    }
  }

  /** Dropping the empty ones from trimmed, comma-free pieces leaves valid tags. */
  lemma DropEmptyValid(parts: seq<string>)
    requires forall i :: 0 <= i < |parts| ==> Trimmed(parts[i]) && ',' !in parts[i]
    ensures forall i :: 0 <= i < |DropEmpty(parts)| ==> ValidTag(DropEmpty(parts)[i])
  {
    var r := DropEmpty(parts);
    forall i | 0 <= i < |r| ensures ValidTag(r[i]) {
      assert r[i] in r;
      var j :| 0 <= j < |parts| && parts[j] == r[i];
    }
  }

  /** A text without a comma is one piece: at most one tag. */
  lemma ParseOnePiece(a: string)
    requires ',' !in a
    ensures ParseTags(a) == DropEmpty([Trim(a)])
  {
    SplitWithoutSep(a, ',');
    assert TrimEach([a]) == [Trim(a)];
  }

  lemma {:induction false} TrimEachAppend(a: seq<string>, b: seq<string>)
    ensures TrimEach(a + b) == TrimEach(a) + TrimEach(b)
  {
    if a != [] {
      assert (a + b)[1..] == a[1..] + b;
      TrimEachAppend(a[1..], b);
    } else {
      assert a + b == b;
    }
  }

  lemma {:induction false} DropEmptyAppend(a: seq<string>, b: seq<string>)
    ensures DropEmpty(a + b) == DropEmpty(a) + DropEmpty(b)
  {
    if a != [] {
      assert (a + b)[1..] == a[1..] + b;
      DropEmptyAppend(a[1..], b);
    } else {
      assert a + b == b;
    }
  }

  /** A comma after a comma-free prefix ends the first piece. */
  lemma ParseAfterPiece(a: string, b: string)
    requires ',' !in a
    ensures ParseTags(a + [','] + b) == DropEmpty([Trim(a)]) + ParseTags(b)
  {
    SplitAfterPiece(a, ',', b);
    var pieces := Split(b, ',');
    TrimEachAppend([a], pieces);
    DropEmptyAppend(TrimEach([a]), TrimEach(pieces));
  }

  /** White space followed by a text without a comma holds no comma. */
  lemma SpacedTagHasNoComma(w: string, t: string)
    requires IsBlank(w) && ',' !in t
    ensures ',' !in w + t
  {
    forall i | 0 <= i < |w + t| ensures (w + t)[i] != ',' {
      if i >= |w| { assert (w + t)[i] == t[i - |w|]; }
    }
  }

  /** Blank text parses to no tag. */
  lemma ParseBlank(w: string)
    requires IsBlank(w)
    ensures ParseTags(w) == []
  {
    assert ',' !in w by { assert forall i :: 0 <= i < |w| ==> w[i] != ','; }
    ParseOnePiece(w);
  }

  /** White space then one valid tag parses to that tag. */
  lemma ParseSpacedTag(w: string, t: string)
    requires IsBlank(w) && ValidTag(t)
    ensures ParseTags(w + t) == [t]
  {
    SpacedTagHasNoComma(w, t);
    ParseOnePiece(w + t);
    TrimAfterSpace(w, t);
  }

  /** White space, a valid tag, a comma and more text: the tag comes first. */
  lemma ParseSpacedTagThen(w: string, t: string, rest: string)
    requires IsBlank(w) && ValidTag(t)
    ensures ParseTags(w + t + [','] + rest) == [t] + ParseTags(rest)
  {
    SpacedTagHasNoComma(w, t);
    ParseAfterPiece(w + t, rest);
    TrimAfterSpace(w, t);
  }

  /** A `", "` between two texts, after a prefix, is a comma then a space. */
  lemma SeparatorChars(w: string, a: string, rest: string)
    ensures w + (a + TagSeparator + rest) == w + a + [','] + ([' '] + rest)
  {
    assert TagSeparator == [','] + [' '];
  }

  /** A `", "`-join of two or more tags, after a prefix, split at its first comma. */
  lemma JoinFirst(w: string, tags: seq<string>)
    requires |tags| >= 2
    ensures w + Join(tags, TagSeparator) == w + tags[0] + [','] + ([' '] + Join(tags[1..], TagSeparator))
    ensures [tags[0]] + tags[1..] == tags
  {
    var rest := Join(tags[1..], TagSeparator);
    assert Join(tags, TagSeparator) == tags[0] + TagSeparator + rest;
    SeparatorChars(w, tags[0], rest);
  }

  /** The first tag of a join of two or more, after white space, parses first. */
  lemma ParseJoinStep(w: string, tags: seq<string>)
    requires IsBlank(w) && |tags| >= 2 && ValidTag(tags[0])
    requires ParseTags([' '] + Join(tags[1..], TagSeparator)) == tags[1..]
    ensures ParseTags(w + Join(tags, TagSeparator)) == tags
  {
    JoinFirst(w, tags);
    ParseSpacedTagThen(w, tags[0], [' '] + Join(tags[1..], TagSeparator));
  }

  /**
   * Parsing the ", "-join of valid tags, after any leading white space, gives
   * the tags back.
   */
  lemma {:induction false} ParseJoinAfterSpace(w: string, tags: seq<string>)
    requires IsBlank(w)
    requires forall i :: 0 <= i < |tags| ==> ValidTag(tags[i])
    ensures ParseTags(w + Join(tags, TagSeparator)) == tags
    decreases |tags|
  {
    if |tags| == 0 {
      assert w + Join(tags, TagSeparator) == w;
      ParseBlank(w);
    } else if |tags| == 1 {
      assert tags == [tags[0]];
      ParseSpacedTag(w, tags[0]);
    } else {
      ParseJoinAfterSpace([' '], tags[1..]);
      ParseJoinStep(w, tags);
    }
  }

  /** One trimmed, comma-free piece after white space parses to itself, unless empty. */
  lemma ParseSpacedPiece(w: string, p: string)
    requires IsBlank(w) && Trimmed(p) && ',' !in p
    ensures ParseTags(w + p) == DropEmpty([p])
  {
    SpacedTagHasNoComma(w, p);
    TrimAfterSpace(w, p);
    ParseOnePiece(w + p);
  }

  /** The first of two or more joined pieces, after white space, parses first. */
  lemma ParsePieceThen(w: string, pieces: seq<string>)
    requires IsBlank(w) && |pieces| >= 2 && Trimmed(pieces[0]) && ',' !in pieces[0]
    requires ParseTags([' '] + Join(pieces[1..], TagSeparator)) == DropEmpty(pieces[1..])
    ensures ParseTags(w + Join(pieces, TagSeparator)) == DropEmpty(pieces)
  {
    var p := pieces[0];
    SpacedTagHasNoComma(w, p);
    TrimAfterSpace(w, p);
    JoinFirst(w, pieces);
    ParseAfterPiece(w + p, [' '] + Join(pieces[1..], TagSeparator));
    DropEmptyAppend([p], pieces[1..]);
  }

  /**
   * Parsing the ", "-join of trimmed, comma-free pieces, some possibly empty,
   * after any leading white space, gives the non-empty pieces, in order.
   */
  lemma {:induction false} ParsePiecesAfterSpace(w: string, pieces: seq<string>)
    requires IsBlank(w)
    requires forall i :: 0 <= i < |pieces| ==> Trimmed(pieces[i]) && ',' !in pieces[i]
    ensures ParseTags(w + Join(pieces, TagSeparator)) == DropEmpty(pieces)
    decreases |pieces|
  {
    if |pieces| == 0 {
      assert w + Join(pieces, TagSeparator) == w;
      ParseBlank(w);
    } else if |pieces| == 1 {
      assert pieces == [pieces[0]];
      ParseSpacedPiece(w, pieces[0]);
    } else {
      assert forall i :: 0 <= i < |pieces[1..]| ==> pieces[1..][i] == pieces[i + 1];
      ParsePiecesAfterSpace([' '], pieces[1..]);
      ParsePieceThen(w, pieces);
    }
  }

  /** Parsing the ", "-join of valid tags gives the tags back. */
  lemma ParseJoin(tags: seq<string>)
    requires forall i :: 0 <= i < |tags| ==> ValidTag(tags[i])
    ensures ParseTags(Join(tags, TagSeparator)) == tags
  {
    var text := Join(tags, TagSeparator);
    ParseJoinAfterSpace([], tags);
    EmptyPrefix(text);
  }

  /** The empty prefix. */
  lemma EmptyPrefix(s: string)
    ensures [] + s == s
  {
  }

  /**
   * Writing parsed tags back with ", " and parsing again is a fixed point:
   * this is what lets tags survive a save followed by a load.
   */
  lemma ParseIdempotent(text: string)
    ensures ParseTags(Join(ParseTags(text), TagSeparator)) == ParseTags(text)
  {
    ParseJoin(ParseTags(text));
  }
}
