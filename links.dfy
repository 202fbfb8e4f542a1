/**
 * The link side of a card: the URL lines of its URL text area, the loop of
 * `openCardUrls` that opens each of them in a new window and reports what the
 * browser did, and the action icons that show whether a card has URLs and a
 * text to copy.
 */
module Links {
  import opened Text

  /** `filter(url => url.trim())`: keeps the lines that are not blank, in order. */
  function KeepNonBlank(lines: seq<string>): (r: seq<string>)
    ensures forall l :: l in r <==> l in lines && !IsBlank(l)
    ensures forall l :: multiset(r)[l] == if IsBlank(l) then 0 else multiset(lines)[l]
    ensures |r| <= |lines|
    ensures (forall l :: l in lines ==> IsBlank(l)) ==> r == []
  {
    if lines == [] then []
    else
      assert lines == [lines[0]] + lines[1..];
      if IsBlank(lines[0]) then KeepNonBlank(lines[1..])
    else [lines[0]] + KeepNonBlank(lines[1..])
  }

  /** Lines that are all non-blank go through the filter unchanged. */
  lemma {:induction false} KeepNonBlankAll(lines: seq<string>)
    requires forall i :: 0 <= i < |lines| ==> !IsBlank(lines[i])
    ensures KeepNonBlank(lines) == lines
  {
    if lines != [] {
      KeepNonBlankAll(lines[1..]);
      assert [lines[0]] + lines[1..] == lines;
    }
  }

  /**
   * `value.split('\n').filter(url => url.trim())`: the URL lines of a card,
   * untrimmed; none is blank and none spans two lines.
   */
  function UrlLines(text: string): (r: seq<string>)
    ensures forall l :: l in r ==> !IsBlank(l) && '\n' !in l && Trim(l) != []
  {
    var r := KeepNonBlank(Split(text, '\n'));
    assert forall l :: l in r ==> l in Split(text, '\n');
    r
  }

  /** A character of a join is in one of the parts, or in a separator between two of them. */
  lemma {:induction false} JoinMembers(parts: seq<string>, sep: string, c: char)
    ensures c in Join(parts, sep) <==>
            (exists i :: 0 <= i < |parts| && c in parts[i]) || (|parts| >= 2 && c in sep)
  {
    if |parts| == 1 {
    } else if |parts| >= 2 {
      var rest := parts[1..];
      JoinMembers(rest, sep, c);
      assert Join(parts, sep) == parts[0] + sep + Join(rest, sep);
      if exists i :: 0 <= i < |rest| && c in rest[i] {
        var i :| 0 <= i < |rest| && c in rest[i];
        assert c in parts[i + 1];
      }
      if exists i :: 0 <= i < |parts| && c in parts[i] {
        var i :| 0 <= i < |parts| && c in parts[i];
        if i > 0 {
          assert c in rest[i - 1];
        }
      }
    }
  }

  /**
   * A URL text yields no URL line exactly when it is blank: the same test
   * (`trim() !== ''`) that decides the link icon.
   */
  lemma UrlLinesEmpty(text: string)
    ensures UrlLines(text) == [] <==> IsBlank(text)
  {
    var parts := Split(text, '\n');
    JoinSplit(text, '\n');
    assert text == Join(parts, "\n");
    if IsBlank(text) {
      forall i | 0 <= i < |parts| ensures IsBlank(parts[i]) {
        forall j | 0 <= j < |parts[i]| ensures IsSpace(parts[i][j]) {
          var c := parts[i][j];
          JoinMembers(parts, "\n", c);
          var k :| 0 <= k < |text| && text[k] == c;
        }
      }
    } else {
      var k :| 0 <= k < |text| && !IsSpace(text[k]);
      var c := text[k];
      JoinMembers(parts, "\n", c);
      var i :| 0 <= i < |parts| && c in parts[i];
      assert !IsBlank(parts[i]);
      assert parts[i] in UrlLines(text);
    }
  }

  /** Writing non-blank, single-line URLs one per line and reading them back gives the same URLs. */
  lemma UrlLinesJoin(urls: seq<string>)
    requires forall i :: 0 <= i < |urls| ==> !IsBlank(urls[i]) && '\n' !in urls[i]
    ensures UrlLines(Join(urls, "\n")) == urls
  {
    if urls == [] {
      assert Split([], '\n') == [[]];
      assert IsBlank([]);
    } else {
      SplitJoin(urls, '\n');
      KeepNonBlankAll(urls);
    }
  }

  /** What `window.open` did: a window, `null` (a blocked popup), or an exception. */
  datatype OpenOutcome = Opened | Blocked | Failed

  /** The notifications `openCardUrls` shows. */
  datatype Notice = ManyLinksWarning | PopupBlocked | OpenError

  /** The notification reported after one attempt, if any. */
  function Report(o: OpenOutcome): seq<Notice> {
    match o
    case Opened => []
    case Blocked => [PopupBlocked]
    case Failed => [OpenError]
  }

  /**
   * The notifications reported after a run of attempts, in order: errors
   * only, never the multi-link warning, and at most one per attempt.
   */
  function Reports(outcomes: seq<OpenOutcome>): (r: seq<Notice>)
    ensures ManyLinksWarning !in r
    ensures |r| <= |outcomes|
  {
    if outcomes == [] then [] else Reports(outcomes[..|outcomes| - 1]) + Report(outcomes[|outcomes| - 1])
  }

  /** One more attempt adds its own notification, if any, at the end. */
  lemma ReportsSnoc(outcomes: seq<OpenOutcome>, o: OpenOutcome)
    ensures Reports(outcomes + [o]) == Reports(outcomes) + Report(o)
  {
    assert (outcomes + [o])[..|outcomes|] == outcomes;
  }

  /** No notification iff every attempt opened a window. */
  lemma {:induction false} ReportsNone(outcomes: seq<OpenOutcome>)
    ensures Reports(outcomes) == [] <==> forall i :: 0 <= i < |outcomes| ==> outcomes[i] == Opened
  {
    if outcomes != [] {
      var front, last := outcomes[..|outcomes| - 1], outcomes[|outcomes| - 1];
      ReportsNone(front);
      assert |Reports(outcomes)| == |Reports(front)| + |Report(last)|;
      assert forall i :: 0 <= i < |front| ==> front[i] == outcomes[i];
    }
  }

  /** One notification per attempt iff no attempt opened a window. */
  lemma {:induction false} ReportsEach(outcomes: seq<OpenOutcome>)
    ensures |Reports(outcomes)| == |outcomes| <==> forall i :: 0 <= i < |outcomes| ==> outcomes[i] != Opened
  {
    if outcomes != [] {
      var front, last := outcomes[..|outcomes| - 1], outcomes[|outcomes| - 1];
      ReportsEach(front);
      assert |Reports(outcomes)| == |Reports(front)| + |Report(last)|;
      assert forall i :: 0 <= i < |front| ==> front[i] == outcomes[i];
    }
  }

  /** The first `n` lines were tried, trimmed and in order, with the outcomes the browser gave. */
  predicate Tried(urls: seq<string>, attempts: seq<string>, outcomes: seq<OpenOutcome>,
                  browser: (nat, string) -> OpenOutcome, n: nat)
  {
    n <= |urls| && |attempts| == |outcomes| == n &&
    forall i :: 0 <= i < n ==> attempts[i] == Trim(urls[i]) && outcomes[i] == browser(i, attempts[i])
  }

  /** Trying the next line extends what was tried by one. */
  lemma TriedNext(urls: seq<string>, attempts: seq<string>, outcomes: seq<OpenOutcome>,
                  browser: (nat, string) -> OpenOutcome, n: nat)
    requires Tried(urls, attempts, outcomes, browser, n) && n < |urls|
    ensures Tried(urls, attempts + [Trim(urls[n])], outcomes + [browser(n, Trim(urls[n]))], browser, n + 1)
  {
  }

  /**
   * The `forEach` of `openCardUrls`: tries every line, trimmed, in order; a
   * blocked or failing one only adds its error notification, since returning
   * from the callback does not stop the loop. `browser(k, url)` stands for
   * what `window.open` does on the `k`-th attempt.
   */
  method OpenEach(urls: seq<string>, browser: (nat, string) -> OpenOutcome)
    returns (attempts: seq<string>, outcomes: seq<OpenOutcome>, errors: seq<Notice>)
    requires forall l :: l in urls ==> Trim(l) != []
    ensures |attempts| == |outcomes| == |urls|
    ensures forall i :: 0 <= i < |urls| ==>
              attempts[i] == Trim(urls[i]) && attempts[i] != [] && outcomes[i] == browser(i, attempts[i])
    ensures errors == Reports(outcomes)
  {
    attempts, outcomes, errors := [], [], [];
    var i := 0;
    while i < |urls|
      invariant 0 <= i <= |urls|
      invariant Tried(urls, attempts, outcomes, browser, i)
      invariant errors == Reports(outcomes)
    {
      var url := Trim(urls[i]);
      var outcome := browser(i, url);
      TriedNext(urls, attempts, outcomes, browser, i);
      ReportsSnoc(outcomes, outcome);
      attempts, outcomes := attempts + [url], outcomes + [outcome];
      errors := errors + Report(outcome);
      i := i + 1;
    }
    forall j | 0 <= j < |urls| ensures attempts[j] != [] {
      assert urls[j] in urls;
    }
  }

  /**
   * `openCardUrls`: with no URL line it returns false and opens nothing.
   * Otherwise it warns first when there are several lines, then tries every
   * line and returns true.
   */
  method OpenCardUrls(urlText: string, browser: (nat, string) -> OpenOutcome)
    returns (attempts: seq<string>, outcomes: seq<OpenOutcome>, notices: seq<Notice>, ok: bool)
    ensures ok <==> !IsBlank(urlText)
    ensures |attempts| == |outcomes| == |UrlLines(urlText)|
    ensures forall i :: 0 <= i < |attempts| ==>
              attempts[i] == Trim(UrlLines(urlText)[i]) && attempts[i] != [] &&
              outcomes[i] == browser(i, attempts[i])
    ensures notices == (if |attempts| > 1 then [ManyLinksWarning] else []) + Reports(outcomes)
  {
    var urls := UrlLines(urlText);
    UrlLinesEmpty(urlText);
    if |urls| > 0 {
      var errors;
      attempts, outcomes, errors := OpenEach(urls, browser);
      notices := (if |urls| > 1 then [ManyLinksWarning] else []) + errors;
      ok := true;
    } else {
      attempts, outcomes, notices, ok := [], [], [], false;
    }
  }

  /** The icon shown when a card has URLs. */
  const LinkIcon: char := '\U{1F517}'

  /** The icon shown when a card has a text to copy. */
  const CopyIcon: char := '\U{1F4CB}'

  /**
   * `updateActionIcons`: the link icon when the URL text is not blank, the
   * copy icon when the copy text is not blank, joined by a space.
   */
  function ActionIcons(url: string, copyText: string): (r: string)
    ensures LinkIcon in r <==> !IsBlank(url)
    ensures CopyIcon in r <==> !IsBlank(copyText)
    ensures r == [] <==> IsBlank(url) && IsBlank(copyText)
    ensures ' ' in r <==> !IsBlank(url) && !IsBlank(copyText)
  {
    var icons := (if Trim(url) != [] then [[LinkIcon]] else []) + (if Trim(copyText) != [] then [[CopyIcon]] else []);
    var r := Join(icons, " ");
    assert |icons| == 2 ==> r == icons[0] + " " + Join(icons[1..], " ") == [LinkIcon] + " " + [CopyIcon];
    r
  }

  /** The link icon is shown exactly when a click on the title would open some URL. */
  lemma LinkIconMeansUrls(url: string, copyText: string)
    ensures LinkIcon in ActionIcons(url, copyText) <==> |UrlLines(url)| > 0
  {
    UrlLinesEmpty(url);
  }
}
