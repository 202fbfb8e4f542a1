/**
 * Placeholder substitution: before a card's text is copied, every `{key}`
 * token of a registered placeholder is replaced by the placeholder's value.
 * Two placeholders are registered, in this order: the current date and time,
 * and the text of the clipboard.
 */
module Placeholders {
  import opened Wrappers
  import opened Text

  /** What the `Date` getters report for the current instant (`month` counts from 0). */
  datatype DateTime = DateTime(year: int, month: nat, day: nat, hours: nat, minutes: nat, seconds: nat)

  /** The ranges the `Date` getters keep to. */
  predicate ValidClock(d: DateTime) {
    d.month < 12 && 1 <= d.day <= 31 && d.hours < 24 && d.minutes < 60 && d.seconds < 60
  }

  /** The number written by two decimal digits. */
  function TwoDigitValue(s: string, i: nat): nat
    requires i + 2 <= |s|
  {
    DigitValue(s[i]) * 10 + DigitValue(s[i + 1])
  }

  /** Two decimal digit characters at position `i`. */
  predicate TwoDigitsAt(s: string, i: nat) {
    i + 2 <= |s| && '0' <= s[i] <= '9' && '0' <= s[i + 1] <= '9'
  }

  /** `String(num).padStart(2, '0')`. */
  function Pad(n: nat): (r: string)
    ensures |r| >= 2 && IsDigits(r)
    ensures n < 100 ==> |r| == 2 && TwoDigitValue(r, 0) == n
  {
    var s := NatToString(n);
    if |s| < 2 then "0" + s else s
  }

  /** A separator followed by a field of at least two digits. */
  function Field(sep: char, n: nat): (r: string)
    ensures |r| >= 3 && r[0] == sep && IsDigits(r[1..]) && TwoDigitsAt(r, 1)
    ensures n < 100 ==> |r| == 3 && TwoDigitValue(r, 1) == n
  {
    [sep] + Pad(n)
  }

  /** A year is written with digits and perhaps a minus sign. */
  lemma YearPlain(year: int)
    ensures '{' !in IntToString(year) && '$' !in IntToString(year)
  {
    if year < 0 {
      assert IntToString(year) == "-" + NatToString(-year);
    }
  }

  /** A field is its separator and digits. */
  lemma FieldPlain(sep: char, n: nat)
    requires sep != '{' && sep != '$'
    ensures '{' !in Field(sep, n) && '$' !in Field(sep, n)
  {
    assert Field(sep, n) == [sep] + Pad(n);
  }

  /**
   * The value of the date placeholder: `YYYY-MM-DD_HH-mm-SS` with the local
   * time. It holds digits, `-` and `_` only: never a `{`, so it cannot create
   * a token, and never a `$`, so `replaceAll` inserts it as it is.
   */
  function FormatDate(d: DateTime): (r: string)
    ensures '{' !in r && '$' !in r
  {
    YearPlain(d.year);
    FieldPlain('-', d.month + 1);
    FieldPlain('-', d.day);
    FieldPlain('_', d.hours);
    FieldPlain('-', d.minutes);
    FieldPlain('-', d.seconds);
    IntToString(d.year) + Field('-', d.month + 1) + Field('-', d.day) + Field('_', d.hours)
      + Field('-', d.minutes) + Field('-', d.seconds)
  }

  /**
   * Five fields of a separator and two digits, after a prefix, read back at
   * offsets 0, 3, 6, 9 and 12 past the prefix.
   */
  lemma FieldsAt(y: string, f1: string, f2: string, f3: string, f4: string, f5: string)
    requires |f1| == 3 && |f2| == 3 && |f3| == 3 && |f4| == 3 && |f5| == 3
    ensures var s, n := y + f1 + f2 + f3 + f4 + f5, |y|;
            && |s| == n + 15 && s[..n] == y
            && s[n] == f1[0] && s[n + 3] == f2[0] && s[n + 6] == f3[0] && s[n + 9] == f4[0] && s[n + 12] == f5[0]
            && TwoDigitValue(s, n + 1) == TwoDigitValue(f1, 1)
            && TwoDigitValue(s, n + 4) == TwoDigitValue(f2, 1)
            && TwoDigitValue(s, n + 7) == TwoDigitValue(f3, 1)
            && TwoDigitValue(s, n + 10) == TwoDigitValue(f4, 1)
            && TwoDigitValue(s, n + 13) == TwoDigitValue(f5, 1)
  {
    var s, n := y + f1 + f2 + f3 + f4 + f5, |y|;
    assert s[n + 1] == f1[1] && s[n + 2] == f1[2];
    assert s[n + 4] == f2[1] && s[n + 5] == f2[2];
    assert s[n + 7] == f3[1] && s[n + 8] == f3[2];
    assert s[n + 10] == f4[1] && s[n + 11] == f4[2];
    assert s[n + 13] == f5[1] && s[n + 14] == f5[2];
  }

  /** Five digit fields, after a prefix, leave two digits at offsets 1, 4, 7, 10 and 13 past it. */
  lemma DigitsAt(y: string, f1: string, f2: string, f3: string, f4: string, f5: string)
    requires |f1| == 3 && |f2| == 3 && |f3| == 3 && |f4| == 3 && |f5| == 3
    requires TwoDigitsAt(f1, 1) && TwoDigitsAt(f2, 1) && TwoDigitsAt(f3, 1) && TwoDigitsAt(f4, 1) && TwoDigitsAt(f5, 1)
    ensures var s, n := y + f1 + f2 + f3 + f4 + f5, |y|;
            && TwoDigitsAt(s, n + 1) && TwoDigitsAt(s, n + 4) && TwoDigitsAt(s, n + 7)
            && TwoDigitsAt(s, n + 10) && TwoDigitsAt(s, n + 13)
  {
    var s, n := y + f1 + f2 + f3 + f4 + f5, |y|;
    assert s[n + 1] == f1[1] && s[n + 2] == f1[2];
    assert s[n + 4] == f2[1] && s[n + 5] == f2[2];
    assert s[n + 7] == f3[1] && s[n + 8] == f3[2];
    assert s[n + 10] == f4[1] && s[n + 11] == f4[2];
    assert s[n + 13] == f5[1] && s[n + 14] == f5[2];
  }

  /**
   * A text made of a year text and five fields with values below 100 reads
   * back: at fixed offsets after the year, each separator, then two digits
   * worth the field's value.
   */
  lemma FieldsLayout(s: string, y: string, month: nat, day: nat, hours: nat, minutes: nat, seconds: nat)
    requires month < 100 && day < 100 && hours < 100 && minutes < 100 && seconds < 100
    requires s == y + Field('-', month) + Field('-', day) + Field('_', hours) + Field('-', minutes) + Field('-', seconds)
    ensures var n := |y|;
            && |s| == n + 15 && s[..n] == y
            && s[n] == '-' && s[n + 3] == '-' && s[n + 6] == '_' && s[n + 9] == '-' && s[n + 12] == '-'
            && TwoDigitsAt(s, n + 1) && TwoDigitsAt(s, n + 4) && TwoDigitsAt(s, n + 7)
            && TwoDigitsAt(s, n + 10) && TwoDigitsAt(s, n + 13)
            && TwoDigitValue(s, n + 1) == month
            && TwoDigitValue(s, n + 4) == day
            && TwoDigitValue(s, n + 7) == hours
            && TwoDigitValue(s, n + 10) == minutes
            && TwoDigitValue(s, n + 13) == seconds
  {
    var f1, f2, f3 := Field('-', month), Field('-', day), Field('_', hours);
    var f4, f5 := Field('-', minutes), Field('-', seconds);
    assert |f1| == 3 && f1[0] == '-' && TwoDigitValue(f1, 1) == month && TwoDigitsAt(f1, 1);
    assert |f2| == 3 && f2[0] == '-' && TwoDigitValue(f2, 1) == day && TwoDigitsAt(f2, 1);
    assert |f3| == 3 && f3[0] == '_' && TwoDigitValue(f3, 1) == hours && TwoDigitsAt(f3, 1);
    assert |f4| == 3 && f4[0] == '-' && TwoDigitValue(f4, 1) == minutes && TwoDigitsAt(f4, 1);
    assert |f5| == 3 && f5[0] == '-' && TwoDigitValue(f5, 1) == seconds && TwoDigitsAt(f5, 1);
    FieldsAt(y, f1, f2, f3, f4, f5);
    DigitsAt(y, f1, f2, f3, f4, f5);
  }

  /**
   * The stamp reads back: after the year come, at fixed offsets, the month
   * counted from 1, the day, the hours, the minutes and the seconds, each in
   * two digits (zero-padded), separated by `-`, `-`, `_`, `-` and `-`.
   */
  lemma StampLayout(d: DateTime)
    requires ValidClock(d)
    ensures var s, y := FormatDate(d), IntToString(d.year);
            var n := |y|;
            && |s| == n + 15 && s[..n] == y
            && s[n] == '-' && s[n + 3] == '-' && s[n + 6] == '_' && s[n + 9] == '-' && s[n + 12] == '-'
            && TwoDigitsAt(s, n + 1) && TwoDigitsAt(s, n + 4) && TwoDigitsAt(s, n + 7)
            && TwoDigitsAt(s, n + 10) && TwoDigitsAt(s, n + 13)
            && TwoDigitValue(s, n + 1) == d.month + 1
            && TwoDigitValue(s, n + 4) == d.day
            && TwoDigitValue(s, n + 7) == d.hours
            && TwoDigitValue(s, n + 10) == d.minutes
            && TwoDigitValue(s, n + 13) == d.seconds
  {
    FieldsLayout(FormatDate(d), IntToString(d.year), d.month + 1, d.day, d.hours, d.minutes, d.seconds);
  }

  /** The key of the date placeholder. */
  const DateKey: string := "YYYY-MM-DD_HH-mm-SS"

  /** The key of the clipboard placeholder. */
  const ClipboardKey: string := "clipboard"

  /** Neither key holds a `{`, so neither token can overlap itself. */
  lemma KeysWithoutBrace()
    ensures '{' !in DateKey && '{' !in ClipboardKey
  {
  }

  /** The token a key is written as in a card's text. */
  function Token(key: string): (r: string)
    ensures |r| == |key| + 2 && r[0] == '{' && r[|r| - 1] == '}' && r[1..|r| - 1] == key
    ensures '{' !in key ==> r[0] !in r[1..]
  {
    "{" + key + "}"
  }

  /** A registered placeholder with the outcome of its `getValue`: `None` when it threw. */
  datatype Placeholder = Placeholder(key: string, value: Option<string>)

  /** The clipboard value: the text read, or the token itself when the read fails. */
  function ClipboardValue(read: Option<string>): (r: string)
    ensures read.None? ==> r == Token(ClipboardKey)
    ensures read.Some? ==> r == read.value
  {
    match read
    case None => "{clipboard}"
    case Some(text) => text
  }

  /** The registry in declaration order, for a clock reading and a clipboard read. */
  function Registry(now: DateTime, clipboard: Option<string>): (r: seq<Placeholder>)
    ensures |r| == 2 && r[0].key == DateKey && r[1].key == ClipboardKey
    ensures r[0].value == Some(FormatDate(now)) && r[1].value == Some(ClipboardValue(clipboard))
  {
    [Placeholder(DateKey, Some(FormatDate(now))), Placeholder(ClipboardKey, Some(ClipboardValue(clipboard)))]
  }

  /** One step of `replacePlaceholders`: a present token is replaced unless its value threw. */
  function Apply(text: string, p: Placeholder): (r: string)
    ensures p.value.None? || !Contains(text, Token(p.key)) ==> r == text
  {
    if Contains(text, Token(p.key)) && p.value.Some? then ReplaceAll(text, Token(p.key), p.value.value)
    else text
  }

  /**
   * The placeholders applied one after the other, in registry order. A text
   * without `{` holds no token, so it comes back as it is.
   */
  function Substitute(text: string, registry: seq<Placeholder>): (r: string)
    ensures '{' !in text ==> r == text
  {
    if registry == [] then text
    else
      var last := registry[|registry| - 1];
      assert '{' !in text ==> !Contains(text, Token(last.key)) by {
        if '{' !in text { MissingCharNotContained(text, Token(last.key), '{'); }
      }
      Apply(Substitute(text, registry[..|registry| - 1]), last)
  }

  /** `replacePlaceholders(text)`. */
  method ReplacePlaceholders(text: string, registry: seq<Placeholder>) returns (result: string)
    ensures result == Substitute(text, registry)
  {
    result := text;
    var i := 0;
    while i < |registry|
      invariant 0 <= i <= |registry|
      invariant result == Substitute(text, registry[..i])
    {
      var placeholder := Token(registry[i].key);
      assert registry[..i + 1][..i] == registry[..i];
      assert Substitute(text, registry[..i + 1]) == Apply(result, registry[i]);
      if Contains(result, placeholder) {
        match registry[i].value {
          case Some(value) =>
            result := ReplaceAll(result, placeholder, value);
          case None =>
        }
      }
      i := i + 1;
    }
    assert registry[..i] == registry;
  }

  /** Substituting a registry in two parts is substituting the first part, then the second. */
  lemma {:induction false} SubstituteAppend(text: string, a: seq<Placeholder>, b: seq<Placeholder>)
    ensures Substitute(text, a + b) == Substitute(Substitute(text, a), b)
    decreases |b|
  {
    if b == [] {
      assert a + b == a;
    } else {
      var front, last := b[..|b| - 1], b[|b| - 1];
      SubstituteAppend(text, a, front);
      assert (a + b)[..|a + b| - 1] == a + front && (a + b)[|a + b| - 1] == last;
      assert Substitute(text, a + b) == Apply(Substitute(text, a + front), last);
      assert Substitute(Substitute(text, a), b) == Apply(Substitute(Substitute(text, a), front), last);
    }
  }

  /** A placeholder whose value threw is skipped, and the ones after it still apply. */
  lemma FailingPlaceholderSkipped(text: string, a: seq<Placeholder>, key: string, b: seq<Placeholder>)
    ensures Substitute(text, a + [Placeholder(key, None)] + b) == Substitute(text, a + b)
  {
    SubstituteAppend(text, a + [Placeholder(key, None)], b);
    SubstituteAppend(text, a, [Placeholder(key, None)]);
    SubstituteAppend(text, a, b);
    assert [Placeholder(key, None)][..0] == [];
  }

  /** A text lacking a character of `pat` does not contain `pat`. */
  lemma {:induction false} MissingCharNotContained(s: string, pat: string, c: char)
    requires c in pat && c !in s
    ensures !Contains(s, pat)
    decreases |s|
  {
    if |s| > 0 {
      MissingCharNotContained(s[1..], pat, c);
    }
  }

  /** When the clipboard cannot be read, `{clipboard}` stays in the text. */
  lemma ClipboardFallbackKeepsToken(text: string)
    ensures Apply(text, Placeholder(ClipboardKey, Some(ClipboardValue(None)))) == text
  {
    ReplaceAllSelf([], text, Token(ClipboardKey));
  }

  /** Two placeholders applied in order. */
  lemma SubstituteTwo(text: string, p: Placeholder, q: Placeholder)
    ensures Substitute(text, [p, q]) == Apply(Apply(text, p), q)
  {
    assert [p][..0] == [];
    assert Substitute(text, [p]) == Apply(text, p);
    assert [p, q][..1] == [p];
  }

  /** A placeholder whose token is absent leaves the text alone. */
  lemma ApplyAbsent(text: string, p: Placeholder, c: char)
    requires c in Token(p.key) && c !in text
    ensures Apply(text, p) == text
  {
    MissingCharNotContained(text, Token(p.key), c);
  }

  /**
   * A resolved placeholder replaces every one of its tokens: pieces without
   * the token, separated by it, become the same pieces with each separator
   * replaced by the expansion of the value; a value without `$` is inserted
   * as it is.
   */
  lemma ApplyEvery(pieces: seq<string>, key: string, value: string)
    requires '{' !in key
    requires forall i :: 0 <= i < |pieces| ==> !Contains(pieces[i], Token(key))
    ensures Apply(Join(pieces, Token(key)), Placeholder(key, Some(value))) == SubstitutedJoin([], pieces, Token(key), value)
    ensures '$' !in value ==> Apply(Join(pieces, Token(key)), Placeholder(key, Some(value))) == Join(pieces, value)
  {
    var text := Join(pieces, Token(key));
    ReplaceAllEvery([], pieces, Token(key), value);
    if !Contains(text, Token(key)) {
      ReplaceAllAbsent([], text, Token(key), value);
    }
    if '$' !in value {
      SubstitutedJoinPlain([], pieces, Token(key), value);
    }
  }

  /**
   * With the clipboard read, every `{clipboard}` token of a text that holds
   * no date token is replaced by the clipboard text, expanded as
   * `replaceAll` expands a replacement; a clipboard text without `$` is
   * inserted as it is.
   */
  lemma ClipboardEverywhere(now: DateTime, pieces: seq<string>, clipboard: string)
    requires forall i :: 0 <= i < |pieces| ==> !Contains(pieces[i], Token(ClipboardKey))
    requires !Contains(Join(pieces, Token(ClipboardKey)), Token(DateKey))
    ensures Substitute(Join(pieces, Token(ClipboardKey)), Registry(now, Some(clipboard)))
            == SubstitutedJoin([], pieces, Token(ClipboardKey), clipboard)
    ensures '$' !in clipboard ==>
            Substitute(Join(pieces, Token(ClipboardKey)), Registry(now, Some(clipboard))) == Join(pieces, clipboard)
  {
    var text := Join(pieces, Token(ClipboardKey));
    var reg := Registry(now, Some(clipboard));
    SubstituteTwo(text, reg[0], reg[1]);
    assert reg == [reg[0], reg[1]];
    assert Apply(text, reg[0]) == text;
    KeysWithoutBrace();
    ApplyEvery(pieces, ClipboardKey, clipboard);
  }

  /**
   * Every date token of a text is replaced by the stamp of the current
   * instant, before the clipboard placeholder applies; when the text around
   * the tokens has no `{`, nothing else changes.
   */
  lemma DateEverywhere(now: DateTime, pieces: seq<string>, clipboard: Option<string>)
    requires forall i :: 0 <= i < |pieces| ==> !Contains(pieces[i], Token(DateKey))
    ensures Substitute(Join(pieces, Token(DateKey)), Registry(now, clipboard))
            == Apply(Join(pieces, FormatDate(now)), Registry(now, clipboard)[1])
    ensures (forall i :: 0 <= i < |pieces| ==> '{' !in pieces[i]) ==>
            Substitute(Join(pieces, Token(DateKey)), Registry(now, clipboard)) == Join(pieces, FormatDate(now))
  {
    var text := Join(pieces, Token(DateKey));
    var stamp := FormatDate(now);
    var reg := Registry(now, clipboard);
    SubstituteTwo(text, reg[0], reg[1]);
    assert reg == [reg[0], reg[1]];
    KeysWithoutBrace();
    ApplyEvery(pieces, DateKey, stamp);
    if forall i :: 0 <= i < |pieces| ==> '{' !in pieces[i] {
      JoinLacks(pieces, stamp, '{');
      ApplyAbsent(Join(pieces, stamp), reg[1], '{');
    }
  }

  /** The year 2025 is written with its four digits. */
  lemma YearDigits()
    ensures NatToString(2025) == "2025"
  {
    assert NatToString(2) == "2";
    assert NatToString(20) == NatToString(2) + "0";
    assert NatToString(202) == NatToString(20) + "2";
    assert NatToString(2025) == NatToString(202) + "5";
  }

  /** The fields of the documented example, padded where below ten. */
  lemma ExampleFields()
    ensures Field('-', 2) == "-02" && Field('-', 19) == "-19" && Field('_', 15) == "_15"
    ensures Field('-', 39) == "-39" && Field('-', 5) == "-05"
  {
    assert NatToString(1) == "1";
    assert NatToString(3) == "3";
    assert NatToString(19) == NatToString(1) + "9";
    assert NatToString(15) == NatToString(1) + "5";
    assert NatToString(39) == NatToString(3) + "9";
  }

  /** 19 February 2025, 15:39:05 (month 1 counting from 0) is stamped `2025-02-19_15-39-05`. */
  lemma StampExample()
    ensures FormatDate(DateTime(2025, 1, 19, 15, 39, 5)) == "2025-02-19_15-39-05"
  {
    YearDigits();
    ExampleFields();
    ExampleParts(IntToString(2025), Field('-', 2), Field('-', 19), Field('_', 15), Field('-', 39), Field('-', 5));
  }

  /** The parts of the documented example stamp, put together. */
  lemma ExampleParts(year: string, month: string, day: string, hours: string, minutes: string, seconds: string)
    requires year == "2025" && month == "-02" && day == "-19"
    requires hours == "_15" && minutes == "-39" && seconds == "-05"
    ensures year + month + day + hours + minutes + seconds == "2025-02-19_15-39-05"
  {
  }

  /** The characters the two-token example relies on. */
  lemma TokenChars()
    ensures 'Y' in Token(DateKey) && 'Y' !in Token(ClipboardKey) && '{' in Token(ClipboardKey)
    ensures 'Y' !in " and " && '{' !in " and "
  {
    assert DateKey[0] == 'Y';
    TokenHolds('Y', DateKey);
    TokenHolds('Y', ClipboardKey);
  }

  /** A character other than the braces is in a token exactly when it is in the key. */
  lemma TokenHolds(ch: char, key: string)
    requires ch != '{' && ch != '}'
    ensures ch in Token(key) <==> ch in key
  {
    assert Token(key) == ['{'] + key + ['}'];
  }

  /** Empty pieces at both ends of a three-piece join add nothing. */
  lemma EmptyEnds<T>(x: seq<T>, y: seq<T>)
    ensures [] + x + y + x + [] == x + y + x
  {
  }

  /** The text `{clipboard} and {clipboard}` as pieces around its two tokens. */
  lemma TwoTokens(text: string)
    requires text == Token(ClipboardKey) + " and " + Token(ClipboardKey)
    ensures text == Join(["", " and ", ""], Token(ClipboardKey))
    ensures !Contains(text, Token(DateKey))
    ensures forall i :: 0 <= i < 3 ==> !Contains(["", " and ", ""][i], Token(ClipboardKey))
  {
    var tok, m := Token(ClipboardKey), " and ";
    TokenChars();
    JoinThree("", m, "", tok);
    EmptyEnds(tok, m);
    assert 'Y' !in text;
    MissingCharNotContained(text, Token(DateKey), 'Y');
    MissingCharNotContained(m, tok, '{');
    MissingCharNotContained("", tok, '{');
  }

  /** A middle piece between two separators, each separator expanded at its place. */
  lemma SubstitutedAround(m: string, pat: string, rep: string)
    ensures SubstitutedJoin([], ["", m, ""], pat, rep) ==
            Expand(rep, pat, "", m + pat) + m + Expand(rep, pat, pat + m, "")
  {
    var e1, e2 := Expand(rep, pat, "", m + pat), Expand(rep, pat, pat + m, "");
    assert ["", m, ""][1..] == [m, ""] && [m, ""][1..] == [""];
    assert Join([m, ""], pat) == m + pat + "" == m + pat;
    assert [] + "" == "" && [] + "" + pat == pat;
    assert Join([""], pat) == "";
    assert SubstitutedJoin(pat + m + pat, [""], pat, rep) == "";
    assert SubstitutedJoin(pat, [m, ""], pat, rep) == m + e2 + "";
    assert SubstitutedJoin([], ["", m, ""], pat, rep) == "" + e1 + SubstitutedJoin(pat, [m, ""], pat, rep);
    assert "" + e1 + (m + e2 + "") == e1 + m + e2;
  }

  /**
   * `{clipboard} and {clipboard}` with the clipboard holding `x` becomes
   * `x and x` when `x` has no `$`; in general each token becomes the
   * expansion of `x` at its own position.
   */
  lemma ClipboardTwice(now: DateTime, text: string, x: string)
    requires text == Token(ClipboardKey) + " and " + Token(ClipboardKey)
    ensures Substitute(text, Registry(now, Some(x))) ==
            Expand(x, Token(ClipboardKey), "", " and " + Token(ClipboardKey)) + " and "
            + Expand(x, Token(ClipboardKey), Token(ClipboardKey) + " and ", "")
    ensures '$' !in x ==> Substitute(text, Registry(now, Some(x))) == x + " and " + x
  {
    var tok := Token(ClipboardKey);
    TwoTokens(text);
    ClipboardEverywhere(now, ["", " and ", ""], x);
    SubstitutedAround(" and ", tok, x);
    if '$' !in x {
      ExpandPlain(x, tok, "", " and " + tok);
      ExpandPlain(x, tok, tok + " and ", "");
    }
  }

  /**
   * A clipboard holding `$$` is pasted as a single `$`: `replaceAll` reads
   * `$$` in a replacement as an escaped dollar sign.
   */
  lemma ClipboardDollars(now: DateTime, text: string)
    requires text == Token(ClipboardKey) + " and " + Token(ClipboardKey)
    ensures Substitute(text, Registry(now, Some("$$"))) == "$ and $"
  {
    var tok := Token(ClipboardKey);
    ClipboardTwice(now, text, "$$");
    var e1, e2 := Expand("$$", tok, "", " and " + tok), Expand("$$", tok, tok + " and ", "");
    assert Substitute(text, Registry(now, Some("$$"))) == e1 + " and " + e2;
    ExpandDollars(tok, "", " and " + tok);
    ExpandDollars(tok, tok + " and ", "");
    DollarAndDollar(e1, e2);
  }

  /** Two dollar signs around ` and `. */
  lemma DollarAndDollar(e1: string, e2: string)
    requires e1 == "$" && e2 == "$"
    ensures e1 + " and " + e2 == "$ and $"
  {
  }
}
