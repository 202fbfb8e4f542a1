/**
 * The JavaScript string operations the card manager relies on, over `string`
 * (a sequence of characters): `trim`, `split` on one character, `join`,
 * `includes`, `replaceAll`, `String(n)` and the case mappings (as ASCII
 * stand-ins).
 */
module Text {

  /** The white space and line terminators that `String.prototype.trim` removes. */
  predicate IsSpace(c: char) {
    || c == '\t' || c == '\n' || c == '\U{000B}' || c == '\U{000C}' || c == '\r' || c == ' '
    || c == '\U{00A0}' || c == '\U{1680}' || ('\U{2000}' <= c <= '\U{200A}')
    || c == '\U{2028}' || c == '\U{2029}' || c == '\U{202F}' || c == '\U{205F}'
    || c == '\U{3000}' || c == '\U{FEFF}'
  }

  /** Every character is white space (so `s.trim()` is falsy). */
  predicate IsBlank(s: string) {
    forall i :: 0 <= i < |s| ==> IsSpace(s[i])
  }

  /** Neither end of `s` is white space: trimming leaves it alone. */
  predicate Trimmed(s: string) {
    s == [] || (!IsSpace(s[0]) && !IsSpace(s[|s| - 1]))
  }

  /** `s.trimEnd()`: white space removed from the end. */
  function TrimEnd(s: string): (r: string)
    ensures |r| <= |s| && r == s[..|r|]
    ensures r == [] || !IsSpace(r[|r| - 1])
    ensures forall i :: |r| <= i < |s| ==> IsSpace(s[i])
  {
    if |s| > 0 && IsSpace(s[|s| - 1]) then TrimEnd(s[..|s| - 1]) else s
  }

  /** `r` is `s` with white space, and only white space, cut from its two ends. */
  predicate Stripped(s: string, r: string) {
    exists i, j :: 0 <= i <= j <= |s| && r == s[i..j] && IsBlank(s[..i]) && IsBlank(s[j..])
  }

  /** Cutting one more white-space character from the front keeps a strip a strip. */
  lemma StrippedAfterSpace(s: string, r: string)
    requires |s| > 0 && IsSpace(s[0]) && Stripped(s[1..], r)
    ensures Stripped(s, r)
  {
    var i, j :| 0 <= i <= j <= |s[1..]| && r == s[1..][i..j] && IsBlank(s[1..][..i]) && IsBlank(s[1..][j..]);
    assert r == s[i + 1..j + 1];
    assert s[1..][j..] == s[j + 1..];
    var front := s[..i + 1];
    forall k | 0 <= k < |front| ensures IsSpace(front[k]) {
      if k > 0 { assert front[k] == s[1..][..i][k - 1]; }
    }
  }

  /** The result of `trimEnd` is a strip of its input. */
  lemma StrippedEnd(s: string, r: string)
    requires |r| <= |s| && r == s[..|r|]
    requires forall i :: |r| <= i < |s| ==> IsSpace(s[i])
    ensures Stripped(s, r)
  {
    assert r == s[0..|r|] && s[..0] == [];
    assert forall k :: 0 <= k < |s[|r|..]| ==> s[|r|..][k] == s[|r| + k];
  }

  /** `s.trim()`: white space removed from both ends. */
  function Trim(s: string): (r: string)
    ensures Trimmed(r) && Stripped(s, r)
    ensures Trimmed(s) ==> r == s
    ensures r == [] <==> IsBlank(s)
    ensures forall c :: c in r ==> c in s
  {
    if |s| > 0 && IsSpace(s[0]) then
      var r := Trim(s[1..]);
      StrippedAfterSpace(s, r);
      r
    else
      var r := TrimEnd(s);
      assert r != [] ==> r[0] == s[0];
      StrippedEnd(s, r);
      assert forall c :: c in r ==> c in s;
      r
  }

  /** `map(x => x.trim())` over a list of strings. */
  function TrimEach(parts: seq<string>): (r: seq<string>)
    ensures |r| == |parts|
    ensures forall i :: 0 <= i < |r| ==> r[i] == Trim(parts[i])
  {
    if parts == [] then [] else [Trim(parts[0])] + TrimEach(parts[1..])
  }

  /** Trimming ignores white space in front of a trimmed string. */
  lemma {:induction false} TrimAfterSpace(w: string, x: string)
    requires IsBlank(w) && Trimmed(x)
    ensures Trim(w + x) == x
  {
    if w == [] {
      assert w + x == x;
    } else {
      assert (w + x)[0] == w[0];
      assert (w + x)[1..] == w[1..] + x;
      TrimAfterSpace(w[1..], x);
    }
  }

  /** `s.split(sep)` for a one-character separator: always at least one piece. */
  function Split(s: string, sep: char): (r: seq<string>)
    ensures |r| >= 1
    ensures forall i :: 0 <= i < |r| ==> sep !in r[i]
  {
    if s == [] then [[]]
    else if s[0] == sep then [[]] + Split(s[1..], sep)
    else
      var rest := Split(s[1..], sep);
      [[s[0]] + rest[0]] + rest[1..]
  }

  /** `parts.join(sep)`. */
  function Join(parts: seq<string>, sep: string): string {
    if |parts| == 0 then []
    else if |parts| == 1 then parts[0]
    else parts[0] + sep + Join(parts[1..], sep)
  }

  /** Joining the pieces of a split with its separator gives the text back. */
  lemma {:induction false} JoinSplit(s: string, sep: char)
    ensures Join(Split(s, sep), [sep]) == s
  {
    if s == [] {
    } else if s[0] == sep {
      var rest := Split(s[1..], sep);
      JoinSplit(s[1..], sep);
      assert ([[]] + rest)[1..] == rest;
    } else {
      var rest := Split(s[1..], sep);
      JoinSplit(s[1..], sep);
      if |rest| > 1 {
        assert ([[s[0]] + rest[0]] + rest[1..])[1..] == rest[1..];
      }
    }
  }

  /** A text without the separator is one piece. */
  lemma {:induction false} SplitWithoutSep(a: string, sep: char)
    requires sep !in a
    ensures Split(a, sep) == [a]
  {
    if a != [] {
      SplitWithoutSep(a[1..], sep);
      assert [a[0]] + a[1..] == a;
    }
  }

  /** A separator after a separator-free prefix closes the first piece. */
  lemma {:induction false} SplitAfterPiece(a: string, sep: char, b: string)
    requires sep !in a
    ensures Split(a + [sep] + b, sep) == [a] + Split(b, sep)
  {
    if a == [] {
      assert a + [sep] + b == [sep] + b;
      assert ([sep] + b)[1..] == b;
    } else {
      assert (a + [sep] + b)[0] == a[0];
      assert (a + [sep] + b)[1..] == a[1..] + [sep] + b;
      SplitAfterPiece(a[1..], sep, b);
      assert [a[0]] + a[1..] == a;
    }
  }

  /** Splitting a join of separator-free pieces gives the pieces back. */
  lemma {:induction false} SplitJoin(parts: seq<string>, sep: char)
    requires |parts| >= 1
    requires forall i :: 0 <= i < |parts| ==> sep !in parts[i]
    ensures Split(Join(parts, [sep]), sep) == parts
  {
    if |parts| == 1 {
      SplitWithoutSep(parts[0], sep);
    } else {
      SplitJoin(parts[1..], sep);
      SplitAfterPiece(parts[0], sep, Join(parts[1..], [sep]));
      assert [parts[0]] + parts[1..] == parts;
    }
  }

  /** The join of three pieces. */
  lemma JoinThree(a: string, b: string, c: string, sep: string)
    ensures Join([a, b, c], sep) == a + sep + b + sep + c
  {
    assert [a, b, c][1..] == [b, c];
    assert [b, c][1..] == [c];
    assert Join([b, c], sep) == b + sep + c;
  }

  /** A character found in no piece and not in the separator is not in the join. */
  lemma {:induction false} JoinLacks(parts: seq<string>, sep: string, c: char)
    requires c !in sep
    requires forall i :: 0 <= i < |parts| ==> c !in parts[i]
    ensures c !in Join(parts, sep)
  {
    if |parts| > 1 {
      JoinLacks(parts[1..], sep, c);
    }
  }

  /** `s.includes(sub)`: `sub` occurs in `s` at some position. */
  predicate Contains(s: string, sub: string)
    ensures Contains(s, sub) ==> |sub| <= |s|
    ensures sub <= s ==> Contains(s, sub)
    decreases |s|
  {
    sub <= s || (|s| > 0 && Contains(s[1..], sub))
  }

  /** `sub` occurs in `s` starting at position `i`. */
  predicate OccursAt(s: string, sub: string, i: int) {
    0 <= i && i + |sub| <= |s| && s[i..i + |sub|] == sub
  }

  /** An occurrence at some position makes `includes` hold. */
  lemma {:induction false} OccursContains(s: string, sub: string, i: int)
    requires OccursAt(s, sub, i)
    ensures Contains(s, sub)
    decreases i
  {
    if i == 0 {
      assert s[..|sub|] == sub;
    } else {
      assert OccursAt(s[1..], sub, i - 1);
      OccursContains(s[1..], sub, i - 1);
    }
  }

  /** When `includes` holds, the text occurs at some position. */
  lemma {:induction false} ContainsOccurs(s: string, sub: string) returns (i: int)
    requires Contains(s, sub)
    ensures OccursAt(s, sub, i)
    decreases |s|
  {
    if sub <= s {
      i := 0;
      assert s[0..|sub|] == sub;
    } else {
      var j := ContainsOccurs(s[1..], sub);
      i := j + 1;
      assert s[i..i + |sub|] == s[1..][j..j + |sub|];
    }
  }

  /** `s` contains `sub` iff `sub` occurs in `s` at some position. */
  lemma ContainsAt(s: string, sub: string)
    ensures Contains(s, sub) <==> exists i :: OccursAt(s, sub, i)
  {
    if Contains(s, sub) {
      var i := ContainsOccurs(s, sub);
    }
    if exists i :: OccursAt(s, sub, i) {
      var i :| OccursAt(s, sub, i);
      OccursContains(s, sub, i);
    }
  }

  /** `toLowerCase` on one character, as an ASCII stand-in. */
  function LowerChar(c: char): char {
    if 'A' <= c <= 'Z' then (c as int + 32) as char else c
  }

  /** `toUpperCase` on one character, as an ASCII stand-in. */
  function UpperChar(c: char): char {
    if 'a' <= c <= 'z' then (c as int - 32) as char else c
  }

  /** `s.toLowerCase()`, character by character. */
  function Lower(s: string): (r: string)
    ensures |r| == |s|
    ensures forall i :: 0 <= i < |s| ==> r[i] == LowerChar(s[i])
  {
    seq(|s|, i requires 0 <= i < |s| => LowerChar(s[i]))
  }

  /**
   * The text that replaces one match of a string pattern, by the substitution
   * rules of `replace` and `replaceAll` (GetSubstitution, section 22.1.3.19.1
   * of ECMA-262, 2023 edition): in `rep`, `$$` stands for `$`, `$&` for the
   * match, `` $` `` for the text before the match and `$'` for the text after
   * it; a string pattern has no capture groups, so any other `$` is kept as it
   * is.
   */
  function Expand(rep: string, matched: string, before: string, after: string): string
    decreases |rep|
  {
    if |rep| >= 2 && rep[0] == '$' && rep[1] == '$' then "$" + Expand(rep[2..], matched, before, after)
    else if |rep| >= 2 && rep[0] == '$' && rep[1] == '&' then matched + Expand(rep[2..], matched, before, after)
    else if |rep| >= 2 && rep[0] == '$' && rep[1] == '`' then before + Expand(rep[2..], matched, before, after)
    else if |rep| >= 2 && rep[0] == '$' && rep[1] == '\'' then after + Expand(rep[2..], matched, before, after)
    else if rep == [] then []
    else [rep[0]] + Expand(rep[1..], matched, before, after)
  }

  /** A replacement without `$` is inserted as it is. */
  lemma {:induction false} ExpandPlain(rep: string, matched: string, before: string, after: string)
    requires '$' !in rep
    ensures Expand(rep, matched, before, after) == rep
  {
    if rep != [] {
      ExpandPlain(rep[1..], matched, before, after);
      assert [rep[0]] + rep[1..] == rep;
    }
  }

  /** `$$` is one dollar sign, whatever the match. */
  lemma ExpandDollars(matched: string, before: string, after: string)
    ensures Expand("$$", matched, before, after) == "$"
  {
    assert "$$"[2..] == [];
  }

  /** `$&` inserts the matched text. */
  lemma ExpandMatch(t: string, matched: string, before: string, after: string)
    ensures Expand("$&" + t, matched, before, after) == matched + Expand(t, matched, before, after)
  {
    var rep := "$&" + t;
    assert rep[0] == '$' && rep[1] == '&' && rep[2..] == t;
  }

  /** `` $` `` inserts the text before the match. */
  lemma ExpandBefore(t: string, matched: string, before: string, after: string)
    ensures Expand("$`" + t, matched, before, after) == before + Expand(t, matched, before, after)
  {
    var rep := "$`" + t;
    assert rep[0] == '$' && rep[1] == '`' && rep[2..] == t;
  }

  /** `$'` inserts the text after the match. */
  lemma ExpandAfter(t: string, matched: string, before: string, after: string)
    ensures Expand("$'" + t, matched, before, after) == after + Expand(t, matched, before, after)
  {
    var rep := "$'" + t;
    assert rep[0] == '$' && rep[1] == '\'' && rep[2..] == t;
  }

  /** `$$` inserts one `$`, and the rest of the replacement is expanded after it. */
  lemma ExpandDollarThen(t: string, matched: string, before: string, after: string)
    ensures Expand("$$" + t, matched, before, after) == "$" + Expand(t, matched, before, after)
  {
    var rep := "$$" + t;
    assert rep[0] == '$' && rep[1] == '$' && rep[2..] == t;
  }

  /** A character other than `$` is copied. */
  lemma ExpandLiteral(c: char, t: string, matched: string, before: string, after: string)
    requires c != '$'
    ensures Expand([c] + t, matched, before, after) == [c] + Expand(t, matched, before, after)
  {
    assert ([c] + t)[1..] == t;
  }

  /**
   * A `$` that starts none of the four patterns is kept as it is: a string
   * pattern has no capture groups, so `$1` or `$<` insert nothing special.
   */
  lemma ExpandLoneDollar(c: char, t: string, matched: string, before: string, after: string)
    requires c != '$' && c != '&' && c != '`' && c != '\''
    ensures Expand(['$', c] + t, matched, before, after) == ['$'] + Expand([c] + t, matched, before, after)
  {
    assert (['$', c] + t)[1..] == [c] + t;
  }

  /** A `$` that ends the replacement is kept as it is. */
  lemma ExpandFinalDollar(matched: string, before: string, after: string)
    ensures Expand("$", matched, before, after) == "$"
  {
    assert "$"[1..] == [];
  }

  /**
   * `replaceAll(pat, rep)` on the rest `s` of a text whose first part,
   * `before`, has been scanned: left to right, each occurrence of `pat` is
   * replaced by the expansion of `rep` and the scan resumes after it, so
   * occurrences never overlap.
   */
  function ReplaceAllFrom(before: string, s: string, pat: string, rep: string): string
    requires |pat| > 0
    decreases |s|
  {
    if pat <= s then Expand(rep, pat, before, s[|pat|..]) + ReplaceAllFrom(before + pat, s[|pat|..], pat, rep)
    else if s == [] then []
    else [s[0]] + ReplaceAllFrom(before + [s[0]], s[1..], pat, rep)
  }

  /**
   * `s.replaceAll(pat, rep)` for a string pattern: without an occurrence
   * nothing changes, and a token without `$` replaced by itself changes
   * nothing either.
   */
  function ReplaceAll(s: string, pat: string, rep: string): (r: string)
    requires |pat| > 0
    ensures !Contains(s, pat) ==> r == s
    ensures rep == pat && '$' !in pat ==> r == s
  {
    if !Contains(s, pat) then ReplaceAllAbsent([], s, pat, rep); ReplaceAllFrom([], s, pat, rep)
    else if rep == pat && '$' !in pat then ReplaceAllSelf([], s, pat); ReplaceAllFrom([], s, pat, rep)
    else ReplaceAllFrom([], s, pat, rep)
  }

  /** Without an occurrence of `pat` nothing is replaced. */
  lemma {:induction false} ReplaceAllAbsent(before: string, s: string, pat: string, rep: string)
    requires |pat| > 0 && !Contains(s, pat)
    ensures ReplaceAllFrom(before, s, pat, rep) == s
    decreases |s|
  {
    if s != [] {
      ReplaceAllAbsent(before + [s[0]], s[1..], pat, rep);
      assert [s[0]] + s[1..] == s;
    }
  }

  /** Replacing a token without `$` by itself leaves every text unchanged. */
  lemma {:induction false} ReplaceAllSelf(before: string, s: string, pat: string)
    requires |pat| > 0 && '$' !in pat
    ensures ReplaceAllFrom(before, s, pat, pat) == s
    decreases |s|
  {
    if pat <= s {
      ExpandPlain(pat, pat, before, s[|pat|..]);
      ReplaceAllSelf(before + pat, s[|pat|..], pat);
      assert pat + s[|pat|..] == s;
    } else if s != [] {
      ReplaceAllSelf(before + [s[0]], s[1..], pat);
      assert [s[0]] + s[1..] == s;
    }
  }

  /** Text that cannot start an occurrence is copied through unchanged. */
  lemma {:induction false} ReplaceAllSkips(before: string, a: string, t: string, pat: string, rep: string)
    requires |pat| > 0 && pat[0] !in a
    ensures ReplaceAllFrom(before, a + t, pat, rep) == a + ReplaceAllFrom(before + a, t, pat, rep)
    decreases |a|
  {
    if a == [] {
      assert a + t == t;
      assert before + a == before;
    } else {
      var s := a + t;
      assert s[0] == a[0] != pat[0];
      assert !(pat <= s);
      assert s[1..] == a[1..] + t;
      assert ReplaceAllFrom(before, s, pat, rep) == [a[0]] + ReplaceAllFrom(before + [a[0]], s[1..], pat, rep);
      ReplaceAllSkips(before + [a[0]], a[1..], t, pat, rep);
      assert before + [a[0]] + a[1..] == before + a;
      assert [a[0]] + a[1..] == a;
    }
  }

  /** A text that starts with the token has the token replaced first. */
  lemma ReplaceAllAtToken(before: string, pat: string, rest: string, rep: string)
    requires |pat| > 0
    ensures ReplaceAllFrom(before, pat + rest, pat, rep) ==
            Expand(rep, pat, before, rest) + ReplaceAllFrom(before + pat, rest, pat, rep)
  {
    assert pat <= pat + rest;
    assert (pat + rest)[|pat|..] == rest;
  }

  /**
   * A token that cannot overlap itself (its first character occurs nowhere
   * else in it) does not start inside non-empty text that does not contain it.
   */
  lemma NoMatchBefore(a: string, pat: string, t: string)
    requires |pat| > 0 && pat[0] !in pat[1..] && |a| > 0 && !Contains(a, pat)
    ensures !(pat <= a + pat + t)
  {
    var s := a + pat + t;
    if |a| >= |pat| {
      assert !(pat <= a);
      assert s[..|pat|] == a[..|pat|];
    } else {
      assert s[|a|] == pat[0];
      assert pat[|a|] == pat[1..][|a| - 1] != pat[0];
    }
  }

  /** Where no occurrence starts, the scan copies one character. */
  lemma ReplaceAllCopies(before: string, s: string, pat: string, rep: string)
    requires |pat| > 0 && |s| > 0 && !(pat <= s)
    ensures ReplaceAllFrom(before, s, pat, rep) == [s[0]] + ReplaceAllFrom(before + [s[0]], s[1..], pat, rep)
  {
  }

  /** Moving the first character of a piece across a concatenation. */
  lemma MoveFirst<T>(before: seq<T>, a: seq<T>, e: seq<T>, f: seq<T>)
    requires |a| > 0
    ensures before + [a[0]] + a[1..] == before + a
    ensures [a[0]] + (a[1..] + e + f) == a + e + f
  {
    assert [a[0]] + a[1..] == a;
  }

  /**
   * After text that does not contain it, such a token is the next one
   * replaced: the text before it is copied through.
   */
  lemma {:induction false} ReplaceAllPast(before: string, a: string, t: string, pat: string, rep: string)
    requires |pat| > 0 && pat[0] !in pat[1..] && !Contains(a, pat)
    ensures ReplaceAllFrom(before, a + pat + t, pat, rep) ==
            a + Expand(rep, pat, before + a, t) + ReplaceAllFrom(before + a + pat, t, pat, rep)
    decreases |a|
  {
    if a == [] {
      assert a + pat + t == pat + t && before + a == before;
      ReplaceAllAtToken(before, pat, t, rep);
    } else {
      var s := a + pat + t;
      NoMatchBefore(a, pat, t);
      ReplaceAllCopies(before, s, pat, rep);
      assert s[0] == a[0] && s[1..] == a[1..] + pat + t;
      var before' := before + [a[0]];
      ReplaceAllPast(before', a[1..], t, pat, rep);
      var e := Expand(rep, pat, before' + a[1..], t);
      var f := ReplaceAllFrom(before' + a[1..] + pat, t, pat, rep);
      MoveFirst(before, a, e, f);
    }
  }

  /**
   * The pieces joined with each separator replaced as `replaceAll` replaces
   * the token that stood there: the text before it is `before` followed by
   * the pieces and tokens ahead of it, the text after it the rest of the join.
   */
  function SubstitutedJoin(before: string, pieces: seq<string>, pat: string, rep: string): string
    decreases |pieces|
  {
    if |pieces| == 0 then []
    else if |pieces| == 1 then pieces[0]
    else pieces[0] + Expand(rep, pat, before + pieces[0], Join(pieces[1..], pat))
         + SubstitutedJoin(before + pieces[0] + pat, pieces[1..], pat, rep)
  }

  /** With a replacement free of `$`, every separator becomes the replacement. */
  lemma {:induction false} SubstitutedJoinPlain(before: string, pieces: seq<string>, pat: string, rep: string)
    requires '$' !in rep
    ensures SubstitutedJoin(before, pieces, pat, rep) == Join(pieces, rep)
    decreases |pieces|
  {
    if |pieces| > 1 {
      ExpandPlain(rep, pat, before + pieces[0], Join(pieces[1..], pat));
      SubstitutedJoinPlain(before + pieces[0] + pat, pieces[1..], pat, rep);
    }
  }

  /**
   * Every occurrence is replaced: a text made of pieces that do not contain a
   * token which cannot overlap itself, separated by that token, becomes the
   * same pieces with each separator replaced by its expansion.
   */
  lemma {:induction false} ReplaceAllEvery(before: string, pieces: seq<string>, pat: string, rep: string)
    requires |pat| > 0 && pat[0] !in pat[1..]
    requires forall i :: 0 <= i < |pieces| ==> !Contains(pieces[i], pat)
    ensures ReplaceAllFrom(before, Join(pieces, pat), pat, rep) == SubstitutedJoin(before, pieces, pat, rep)
    decreases |pieces|
  {
    if |pieces| == 1 {
      ReplaceAllAbsent(before, pieces[0], pat, rep);
    } else if |pieces| > 1 {
      var rest := Join(pieces[1..], pat);
      ReplaceAllEvery(before + pieces[0] + pat, pieces[1..], pat, rep);
      ReplaceAllPast(before, pieces[0], rest, pat, rep);
    }
  }

  /** Concatenation regrouped. */
  lemma Regroup<T>(a: seq<T>, b: seq<T>, c: seq<T>)
    ensures a + b + c == a + (b + c)
  {
  }

  /** The character for a decimal digit. */
  function Digit(d: nat): char
    requires d < 10
  {
    "0123456789"[d]
  }

  /** The value of a decimal digit character (0 for any other character). */
  function DigitValue(c: char): nat {
    if '0' <= c <= '9' then c as int - '0' as int else 0
  }

  predicate IsDigits(s: string) {
    forall i :: 0 <= i < |s| ==> '0' <= s[i] <= '9'
  }

  /** The number written by a string of decimal digits. */
  function DecimalValue(s: string): nat {
    if s == [] then 0 else DecimalValue(s[..|s| - 1]) * 10 + DigitValue(s[|s| - 1])
  }

  /** `String(n)` for a natural number: its decimal digits. */
  function NatToString(n: nat): (r: string)
    ensures |r| >= 1 && IsDigits(r)
    ensures DecimalValue(r) == n
    ensures n < 10 <==> |r| == 1
  {
    if n < 10 then
      assert DecimalValue([Digit(n)]) == DecimalValue([]) * 10 + DigitValue(Digit(n));
      [Digit(n)]
    else
      var front := NatToString(n / 10);
      var r := front + [Digit(n % 10)];
      assert r[..|r| - 1] == front;
      r
  }

  /** The digits carry no leading zero: only 0 itself starts with `0`. */
  lemma {:induction false} NatToStringNoLeadingZero(n: nat)
    ensures NatToString(n)[0] == '0' <==> n == 0
  {
    if n >= 10 {
      NatToStringNoLeadingZero(n / 10);
    }
  }

  /** `String(i)` for any integer. */
  function IntToString(i: int): string {
    if i < 0 then "-" + NatToString(-i) else NatToString(i)
  }
}
