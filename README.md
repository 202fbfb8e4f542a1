# Card manager model

A Dafny model of `CardManager`, the browser-side manager of a prompt-card
collection. Each card has:

- a title, with a separate title input that feeds it;
- a URL text area holding one URL per line;
- a text that is copied to the clipboard when the title is clicked;
- a comma-separated tag input.

The model covers:

- the ordered card list and the handlers that change it: load at start-up, add, type into a field, save, delete, import;
- the saved records and the legacy field names that loading still accepts;
- tag parsing;
- the search and tag filter, with its result counter;
- the tag cloud: occurrence counts, the capitalised and uncapitalised rows, each sorted;
- placeholder substitution: the date stamp and the clipboard value;
- the URL lines opened from a card, and the action icons.

Modules, one file each:

- `Wrappers` (wrappers.dfy): `Option`.
- `Text` (text.dfy): the JavaScript string operations the manager relies on: `trim`, `split`, `join`, `includes`, `replaceAll`, `String(n)`, and the case mappings.
- `Tags` (tags.dfy): how a tag text is parsed into tags.
- `Cards` (cards.dfy):
  - a card, and a parsed record;
  - how `addCard` fills a card;
  - how `loadCards` adapts a stored record;
  - how `saveAndExport` writes a card;
  - the record-by-record pass that stops at the first record that throws.
- `Query` (query.dfy): `filterCards`, the result counter, the tag toggle.
- `TagCloud` (tag_cloud.dfy): the counting, partition and sort of `updateTagCloud`.
- `Placeholders` (placeholders.dfy): the placeholder registry and `replacePlaceholders`.
- `Links` (links.dfy): the URL lines, `openCardUrls`, and the action icons.
- `Manager` (manager.dfy): the class `CardManager`. Its fields are the cards, the active tags, the search text and the saved records. Its methods are the event handlers.

External values are parameters:

- the parsed content of local storage and of an imported file (a `Json` value);
- the current date and time (a `DateTime`);
- the clipboard read: `None` when it throws;
- what `window.open` does on each attempt.

A card records whether its event handlers were attached (`wired`).
`addCard` appends the card before it fills it. If a raw imported record's
`tags` is a non-empty string, `tags.join` throws. That card stays in the
list without handlers, and the rest of the import is abandoned.

Two behaviours of app.js are easy to assume otherwise:

- `importData` passes each raw record to `addCard`. An import therefore does not accept the legacy field names, nor a `{"cards": [...]}` object.
- `loadCards` appends to the list rather than replacing it. At start-up the list is empty, so nothing is duplicated there.

Placeholder values are inserted with `replaceAll`, which reads `$` in the
replacement: `$$` becomes `$`, `$&` the matched token, `` $` `` the text
before it and `$'` the text after it. The clipboard holds arbitrary text, so
the model expands these as JavaScript does (GetSubstitution, section
22.1.3.19.1 of ECMA-262, 2023 edition).

## Model

| member | source | states |
|---|---|---|
| Text.TrimEnd | app.js:181-184 | the result is a prefix of the input, ends in a non-space character, and only white space was removed |
| Text.StrippedAfterSpace | app.js:181-184 | cutting one more white-space character from the front keeps a strip of the text a strip |
| Text.StrippedEnd | app.js:181-184 | what `trimEnd` leaves is a strip of the text |
| Text.Trim | app.js:181-184 | the result is the text with white space, and only white space, cut from its two ends: a slice `s[i..j]` with blank `s[..i]` and `s[j..]`. It has no white space at either end, a trimmed text is unchanged, and the result is empty iff the text is blank |
| Text.TrimEach | app.js:183 | one trimmed string per input string, in order |
| Text.TrimAfterSpace | app.js:183 | white space in front of a trimmed text is dropped by trimming |
| Text.Split | app.js:182 | splitting gives at least one piece, and no piece holds the separator |
| Text.JoinSplit | app.js:182 | joining the pieces of a split with its separator gives the text back |
| Text.SplitWithoutSep | app.js:182 | a text without the separator is a single piece |
| Text.SplitAfterPiece | app.js:182 | a separator after a separator-free prefix closes the first piece |
| Text.SplitJoin | app.js:182 | splitting a join of separator-free pieces gives the pieces back |
| Text.ReplaceAllAtToken | app.js:617 | a text starting with the token has that token replaced first, by the expansion of the replacement with the text before and after it, and the rest is replaced after it |
| Text.JoinThree | app.js:428 | the join of three pieces is piece, separator, piece, separator, piece |
| Text.JoinLacks | app.js:428 | a character found neither in the pieces nor in the separator is not in the join |
| Text.Lower | app.js:191-192 | lower-casing maps every character and keeps the length |
| Text.ReplaceAllAbsent | app.js:617 | with no occurrence of the token, the scan leaves the text unchanged |
| Text.ReplaceAllSelf | app.js:617 | replacing a token without `$` by itself leaves any text unchanged |
| Text.ReplaceAllSkips | app.js:617 | text that cannot start an occurrence is copied through |
| Text.ReplaceAllCopies | app.js:617 | a text that does not start with the token has its first character copied, and the scan goes on after it |
| Text.ReplaceAllEvery | app.js:617 | for a token that cannot overlap itself, pieces without it joined by it become the same pieces, each separator replaced by the expansion of the replacement at that place: every occurrence, left to right |
| Text.ExpandPlain | app.js:617 | a replacement without `$` is inserted as it is |
| Text.ExpandDollars | app.js:617 | the replacement `$$` inserts a single `$` |
| Text.ExpandDollarThen | app.js:617 | `$$` inserts one `$`, and the rest of the replacement is expanded after it |
| Text.ExpandMatch | app.js:617 | `$&` inserts the matched token |
| Text.ExpandBefore | app.js:617 | `` $` `` inserts the text before the match |
| Text.ExpandAfter | app.js:617 | `$'` inserts the text after the match |
| Text.ExpandLiteral | app.js:617 | a character other than `$` is copied |
| Text.ExpandLoneDollar | app.js:617 | a `$` that starts none of the four patterns is kept, since a string pattern has no capture groups |
| Text.ExpandFinalDollar | app.js:617 | a `$` at the end of the replacement is kept |
| Text.ReplaceAll | app.js:617 | without an occurrence of the token the text is unchanged, and so it is when a token without `$` replaces itself |
| Text.NoMatchBefore | app.js:617 | a token whose first character occurs nowhere else in it cannot start inside text that does not contain it |
| Text.ReplaceAllPast | app.js:617 | after text that does not contain it, such a token is the next one replaced, expanded with the text before and after it |
| Text.SubstitutedJoinPlain | app.js:617 | with a replacement free of `$`, every separator becomes the replacement itself |
| Text.Contains | app.js:192 | a text contains only what is no longer than it, and contains each of its prefixes |
| Text.ContainsAt | app.js:613 | `includes` holds iff the text has a slice equal to the searched text |
| Text.OccursContains | app.js:613 | a slice equal to the searched text makes `includes` hold |
| Text.ContainsOccurs | app.js:613 | when `includes` holds, it returns a position where the searched text occurs |
| Text.NatToString | app.js:15-21 | `String(n)` is a non-empty digit string whose decimal value is `n`; it is a single digit iff `n < 10` |
| Text.NatToStringNoLeadingZero | app.js:12 | `String(n)` starts with `0` only for 0 |
| Tags.DropEmpty | app.js:184 | the filter keeps exactly the non-empty strings, each as often as it occurs (the multiset loses only its empty strings), and never lengthens the list |
| Tags.ParseTags | app.js:181-184 | every parsed tag is non-empty, trimmed and free of commas |
| Tags.TrimmedPieces | app.js:182-183 | trimming comma-free pieces gives trimmed, comma-free pieces |
| Tags.DropEmptyValid | app.js:183-184 | dropping the empty ones from trimmed, comma-free pieces leaves only valid tags |
| Tags.ParseOnePiece | app.js:181-184 | a text without a comma gives at most its trimmed self |
| Tags.TrimEachAppend | app.js:183 | trimming distributes over concatenation of lists |
| Tags.DropEmptyAppend | app.js:184 | the filter distributes over concatenation of lists |
| Tags.ParseAfterPiece | app.js:181-184 | a comma ends the first piece, and the rest is parsed on its own |
| Tags.SpacedTagHasNoComma | app.js:181-184 | white space followed by a text without a comma holds no comma |
| Tags.ParseBlank | app.js:181-184 | a blank text parses to no tag |
| Tags.ParseSpacedTag | app.js:181-184 | white space then one valid tag parses to that tag |
| Tags.ParseSpacedTagThen | app.js:181-184 | white space, a valid tag and a comma put that tag first |
| Tags.JoinFirst | app.js:428 | a `", "`-join of two or more tags is the first tag, a comma, a space and the join of the rest |
| Tags.ParseJoinStep | app.js:428 | the first tag of a `", "`-join parses first |
| Tags.ParseJoinAfterSpace | app.js:428 | parsing a `", "`-join of valid tags after leading white space gives the tags back |
| Tags.ParsePiecesAfterSpace | app.js:181-184 | parsing the `", "`-join of trimmed, comma-free pieces, some possibly empty, after white space, gives the non-empty pieces in order |
| Tags.ParseSpacedPiece | app.js:181-184 | white space then one trimmed, comma-free piece parses to that piece, or to nothing when it is empty |
| Tags.ParsePieceThen | app.js:181-184 | the first of two or more `", "`-joined pieces parses first, and is dropped when empty |
| Tags.ParseJoin | app.js:428 | parsing the `", "`-join of valid tags gives the tags back |
| Tags.ParseIdempotent | app.js:636-638 | joining parsed tags with `", "` and parsing again is a fixed point |
| Cards.StepCards | app.js:409-411 | a record that throws before `addCard` appends no card; any other record appends exactly its own card |
| Cards.AddCardStep | app.js:405-435 | the card is appended and filled from the record. Its title and title input are the record's title, or `Nouveau titre` when that is absent or empty. Its URL and copy text are the record's, or empty. Its tags text is the `", "`-join of a tag list, and empty for absent tags or a string. Without a record the card is blank. A non-empty string `tags` throws, leaving the card without handlers |
| Cards.Adapt | app.js:389-395 | the adapted record takes `url`, else `link`, else empty; `copyText`, else `copytext`, else empty; the title, else empty. Its tags are the array as it is, or a non-empty string split on commas and trimmed, empty pieces kept, or else none; so `addCard` cannot throw on it |
| Cards.LoadStep | app.js:387-397 | a stored record throws iff it is null; any other is appended and never throws afterwards |
| Cards.ImportStep | app.js:669-676 | an imported record always appends a card, blank for null; it throws afterwards iff its `tags` is a non-empty string |
| Cards.Run | app.js:387-397 | the pass appends at most one card per record, the card of each record in turn, and one per record when it completes |
| Cards.LegacyTagsLoad | app.js:389-428 | a stored record whose tags are a string loads as a card whose tags parse to the tags of that string |
| Cards.LoadSteps | app.js:387-397 | one load step per stored record, in order |
| Cards.ImportSteps | app.js:671 | one import step per record, in order |
| Cards.RunSnoc | app.js:387-397 | while no record has thrown, the next record appends its cards |
| Cards.RunStops | app.js:387-397 | once a record has thrown, later records are never looked at |
| Cards.RunPrefixStep | app.js:387-397 | while no record has thrown, the pass over one more record appends that record's cards |
| Cards.RunPrefixEnds | app.js:387-397 | a pass that stopped at a throw, or reached the end, is the pass over every record |
| Cards.RunAllAdded | app.js:387-397 | the pass completes iff no record throws, and then appends one card per record, in order |
| Cards.ImportOutcome | app.js:669-676 | an import completes iff no record has a non-empty string `tags`; it then yields one card per record, in file order |
| Cards.LoadOutcome | app.js:383-400 | a load completes iff no stored record is null; it then yields one card per record, in order |
| Cards.ExportRecord | app.js:631-640 | the saved record holds the card's title, URL text and copy text, plus its parsed tag list |
| Cards.Export | app.js:631 | one saved record per card, in order |
| Cards.ReloadCard | app.js:389-428 | loading a card's saved record gives back its URL, its copy text and its parsed tags. The title also comes back, except that an empty title becomes `Nouveau titre` |
| Cards.SaveLoadRoundTrip | app.js:382-403 | saving then loading the collection completes and gives back every card, in order, as far as a record carries it |
| Cards.ReloadIsStable | app.js:631-642 | when no title is empty, saving after a save and load writes exactly the same records |
| Query.ResultText | app.js:211-214 | the counter reads `Aucun résultat` iff the count is 0. Otherwise it starts with the count's decimal digits and a space, and ends in `s` iff the count exceeds 1 |
| Query.MatchesSearch | app.js:190-192 | a title matched by the search is at least as long as the search |
| Query.HasAllActiveTags | app.js:195-196 | the test holds iff every active tag is one of the card's tags; the short cut for an empty active set changes nothing |
| Query.Visible | app.js:190-196 | a shown card holds every active tag among its parsed tags, so every active tag is non-empty, trimmed and comma-free |
| Query.FilterCards | app.js:177-214 | each card is shown iff its title contains the search, ignoring case, and its tags include every active tag. The count is the number of shown cards, and the counter is its label |
| Query.CountIfNext | app.js:202-207 | counting over one more card adds one iff that card passes |
| Query.CountIfBound | app.js:202-207 | a count never exceeds the number of cards, and equals it iff every card passes |
| Query.CountIfMonotone | app.js:202-207 | a test that accepts fewer cards counts fewer |
| Query.VisibleCountBound | app.js:177-207 | the visible count is at most the number of cards, and equals it iff every card is visible |
| Query.ShowAll | app.js:190-196 | an empty search with no active tag shows every card |
| Query.MoreTagsShowLess | app.js:195-196 | adding active tags never reveals a hidden card |
| Query.MoreTagsCountLess | app.js:195-207 | adding active tags never raises the count |
| Query.EmptyTagMatchesNothing | app.js:184-196 | an active empty tag hides every card, because parsing never yields one |
| Query.SearchIgnoresCase | app.js:190-192 | the title `Draft v2` matches the search `draft` |
| Query.TagsCombineWithAnd | app.js:195-196 | a card whose tags text is `a, b` for valid tags `a` and `b`, whatever its title, is shown with an empty search for {a} and for {a, b}, and hidden for {a, x} when `x` is neither tag |
| Query.TwoTags | app.js:181-184 | the text `a, b` of two valid tags parses to `[a, b]` |
| Query.ShownForFirstTag | app.js:195-196 | a card whose tags parse to `[a, b]` is shown for {a} |
| Query.ShownForBothTags | app.js:195-196 | a card whose tags parse to `[a, b]` is shown for {a, b} |
| Query.HiddenForOtherTag | app.js:195-196 | a card whose tags parse to `[a, b]` is hidden for {a, x} when `x` is neither tag |
| Query.ShownWhenAllPresent | app.js:195-196 | with an empty search, a card whose parsed tags include every active tag is shown |
| Query.HiddenWhenOneMissing | app.js:195-196 | one active tag missing from the parsed tags hides the card |
| Query.Toggle | app.js:281-287 | a clicked tag leaves the set if present and joins it otherwise; no other tag changes |
| Query.ToggleTwice | app.js:281-287 | two clicks on a tag restore the active set |
| TagCloud.FirstOccurrences | app.js:250-260 | the map's keys are exactly the tags seen, each once |
| TagCloud.IsUpperFirst | app.js:267 | a tag goes to the first row iff it is non-empty and does not start with a lower-case letter |
| TagCloud.Less | app.js:295-303 | a proper prefix sorts first, and no tag sorts before an equal one |
| TagCloud.LessIrreflexive | app.js:295-303 | no tag sorts before itself |
| TagCloud.LessTransitive | app.js:295-303 | the sort order is transitive |
| TagCloud.LessTotal | app.js:295-303 | of two distinct tags, one sorts first |
| TagCloud.InsertByTag | app.js:295-303 | inserting a pair into a row adds exactly that pair |
| TagCloud.SortByTag | app.js:295-303 | sorting a row permutes its pairs |
| TagCloud.SortKeepsPairs | app.js:295-303 | a sorted row holds exactly the pairs of the row |
| TagCloud.InsertSorted | app.js:295-303 | inserting a pair with a new tag keeps a row strictly sorted |
| TagCloud.SortSorted | app.js:295-303 | a row with distinct tags becomes strictly sorted |
| TagCloud.AllTagsStep | app.js:250-256 | one more card adds its parsed tags to the occurrences |
| TagCloud.TallyStep | app.js:258 | counting one more tag keeps the map equal to the occurrence counts, with a new tag added at the end of the key order |
| TagCloud.TallyAll | app.js:257-259 | counting a list of tags one by one keeps the map equal to the occurrence counts and its keys in first-seen order |
| TagCloud.CountCardTags | app.js:257-259 | the loop over one card's tags performs one count per tag, in order; by `TallyAll` the map stays equal to the occurrence counts |
| TagCloud.CountTags | app.js:249-261 | the map holds exactly the tags of all cards, each with its number of occurrences; repeats on one card count separately. Its keys are in first-seen order |
| TagCloud.SplitRows | app.js:263-272 | every counted tag lands, with its count, in the first row iff its first character is unchanged by upper-casing; no tag lands twice |
| TagCloud.UpdateTagCloud | app.js:236-303 | both rows are sorted by tag without repeats. The first row holds only capitalised tags, the second none. Every pair is a tag of some card with its occurrence count. Every tag of every card appears in exactly the row its first character selects |
| TagCloud.RowsByCapital | app.js:267 | `Urgent` goes to the first row and `urgent` to the second |
| TagCloud.RepeatedTagCountsTwice | app.js:258-260 | a card tagged `a, a` counts `a` twice |
| Placeholders.Pad | app.js:12 | the padded field is a digit string of length at least 2; below 100 it is exactly two digits worth `n` |
| Placeholders.Field | app.js:12-21 | a field is its separator followed by digits only; below 100 there are exactly two, worth the number, so a one-digit number gets a leading `0` |
| Placeholders.FieldsAt | app.js:21 | the separators and two-digit values of five three-character fields are read back at fixed offsets after the year |
| Placeholders.DigitsAt | app.js:21 | the two digit characters of each of five fields stay digits at their offsets after the year |
| Placeholders.FieldsLayout | app.js:12-21 | a year text and five fields below 100 read back as separators, each followed by two digit characters worth the field's value |
| Placeholders.StampLayout | app.js:10-22 | the stamp is the year, then `-MM-DD_HH-mm-SS`. The month is `getMonth() + 1`. Every field is two digit characters, zero-padded, worth its value |
| Placeholders.FormatDate | app.js:10-22 | the stamp never contains `{`, so it cannot create a token, nor `$`, so `replaceAll` inserts it as it is |
| Placeholders.YearPlain | app.js:14 | a year is written without `{` and `$` |
| Placeholders.FieldPlain | app.js:12-21 | a padded field is written without `{` and `$` |
| Placeholders.YearDigits | app.js:14-21 | the year 2025 is written `2025`, unpadded |
| Placeholders.ExampleFields | app.js:12-19 | 2, 19, 15, 39 and 5 become the fields `02`, `19`, `15`, `39` and `05` |
| Placeholders.StampExample | app.js:9-22 | 19 February 2025 at 15:39:05 is stamped `2025-02-19_15-39-05` |
| Placeholders.Token | app.js:612 | a token is the key between an opening and a closing brace; when the key has no `{`, the token's first character occurs nowhere else in it |
| Placeholders.TokenHolds | app.js:612 | a character other than a brace is in a token iff it is in the key |
| Placeholders.ClipboardValue | app.js:28-35 | the clipboard value is the text read, or `{clipboard}` when the read throws |
| Placeholders.Registry | app.js:6-37 | the registry holds the date placeholder first and the clipboard placeholder second, with their values |
| Placeholders.ReplacePlaceholders | app.js:607-626 | the loop yields the registry applied key by key, in registry order |
| Placeholders.Apply | app.js:613-621 | a key whose value threw, or whose token is absent, leaves the text unchanged |
| Placeholders.Substitute | app.js:611-623 | a text without `{` holds no token and is returned unchanged |
| Placeholders.SubstituteAppend | app.js:611-623 | applying a registry in two parts is applying the first part, then the second |
| Placeholders.FailingPlaceholderSkipped | app.js:614-621 | a key whose value throws changes nothing, and the loop goes on |
| Placeholders.MissingCharNotContained | app.js:613 | a token with a character that the text lacks is not in the text |
| Placeholders.ClipboardFallbackKeepsToken | app.js:28-35 | the fallback `{clipboard}` leaves the text unchanged |
| Placeholders.SubstituteTwo | app.js:611-623 | with two placeholders, the first is applied, then the second |
| Placeholders.ApplyAbsent | app.js:613 | a key whose token is absent leaves the text unchanged |
| Placeholders.ApplyEvery | app.js:617 | pieces without the token, joined by it, become the same pieces with each token replaced by the value, expanded at its place; a value without `$` is inserted as it is |
| Placeholders.ClipboardEverywhere | app.js:611-623 | in a text without a date token, every `{clipboard}` token is replaced by the clipboard text, expanded at its place; a clipboard text without `$` is inserted as it is |
| Placeholders.DateEverywhere | app.js:611-623 | every date token is replaced by the stamp before the clipboard placeholder applies; when the rest of the text has no `{`, the result is the pieces joined by the stamp |
| Placeholders.ClipboardTwice | app.js:611-623 | `{clipboard} and {clipboard}` becomes each token's expansion of the clipboard text `x` around ` and `, which is `x and x` when `x` has no `$` |
| Placeholders.SubstitutedAround | app.js:617 | a middle piece between two tokens becomes that piece between the two expansions |
| Placeholders.TwoTokens | app.js:611-623 | `{clipboard} and {clipboard}` is three token-free pieces joined by the token, with no date token |
| Placeholders.ClipboardDollars | app.js:617 | a clipboard holding `$$` turns `{clipboard} and {clipboard}` into `$ and $` |
| Links.KeepNonBlank | app.js:470 | the filter keeps exactly the non-blank lines, each as often as it occurs, and drops every blank one |
| Links.KeepNonBlankAll | app.js:470 | lines that are all non-blank pass the filter unchanged |
| Links.UrlLines | app.js:470 | every URL line is non-blank, holds no line break, and trims to a non-empty URL |
| Links.JoinMembers | app.js:470 | a character of a join is in a piece, or in a separator between two pieces |
| Links.UrlLinesEmpty | app.js:470 | a URL text yields no URL line iff it is blank |
| Links.UrlLinesJoin | app.js:470 | non-blank single-line URLs written one per line are read back unchanged |
| Links.ReportsSnoc | app.js:486-500 | one more attempt appends its own notice, if any, after the earlier ones |
| Links.Reports | app.js:486-500 | the notices after the attempts are errors only, never the multi-link warning, and at most one per attempt |
| Links.ReportsNone | app.js:486-500 | there is no notice iff every attempt opened a window |
| Links.ReportsEach | app.js:486-500 | there is one notice per attempt iff no attempt opened a window |
| Links.OpenEach | app.js:481-503 | every line is tried, trimmed and in order, even after a blocked or failing one; each such attempt adds its error notice |
| Links.OpenCardUrls | app.js:465-509 | it returns true iff the URL text is not blank. It warns first when there are several lines, then tries every line, trimmed, and reports each failure |
| Links.ActionIcons | app.js:528-537 | the link icon is shown iff the URL text is not blank, and the copy icon iff the copy text is not blank. The icons are separated by a space only when both are shown |
| Links.LinkIconMeansUrls | app.js:529-552 | the link icon is shown iff a title click opens some URL |
| Manager.Edited | app.js:580-582 | typing into the title input sets that input, and also the shown title iff the card has handlers. Typing into another input sets exactly that field. Every other field is unchanged, and a card with handlers keeps its title in step with its input |
| Manager.Loaded | app.js:382-403 | nothing is loaded unless the saved text parses as an array. Then at most one card is loaded per record, each with its handlers attached |
| Manager.CardManager.constructor | app.js:59-137 | the manager starts with no active tag and an empty search, and loads the saved cards |
| Manager.CardManager.AddCard | app.js:405-435 | the card is appended at the end, earlier cards are unchanged, and it reports whether filling it threw |
| Manager.CardManager.AddEntries | app.js:387-397 | one card is appended per record, in order, until a record throws |
| Manager.CardManager.LoadCards | app.js:382-403 | the cards adapted from the saved records are appended when the saved text parses as an array; otherwise nothing changes |
| Manager.CardManager.SaveAndExport | app.js:628-642 | the saved records are one per card, in order, and the download holds the same records |
| Manager.CardManager.Type | app.js:580-582 | only the edited card changes, as `Edited` states |
| Manager.CardManager.Save | app.js:562-568 | the title input is copied into the title, which leaves the cards as they are, and the collection is saved. A card without handlers ignores the click |
| Manager.CardManager.Delete | app.js:571-577 | when confirmed, exactly that card is removed, the others keep their order, and the collection is saved. When declined, nothing changes |
| Manager.CardManager.ImportData | app.js:661-681 | with no file, or an unparsable one, nothing changes. A non-array clears the list and fails. An array replaces the list with its raw records in file order, and is saved only if no record threw |
| Manager.CardManager.Search | app.js:231-233 | the cards are filtered with the new text and the active tags |
| Manager.CardManager.ClickTag | app.js:280-288 | the tag is toggled, then the cards are filtered with the current search |
| Manager.CardManager.ClickTitle | app.js:547-553 | the copied text is the card's text with its placeholders replaced. Every URL line is then tried, trimmed, and a multi-link warning is given only for several lines |
| Manager.NullRecordImportedNotLoaded | app.js:387-413 | a null record gives a blank card on import but throws on load |
| Manager.LegacyLinkOnlyOnLoad | app.js:391-426 | a record with only the legacy `link` field gets no URL on import, and that URL on load |

## Left out

- Rendering and the DOM are not modelled:
  - template cloning and `innerHTML`;
  - the `display` style of hidden cards, and the `active` class of tag elements;
  - expansion and its rotation;
  - the settings modal and the placeholder list;
  - the theme.
  Visibility is returned as one boolean per card instead.
- Timers and observers are left out, because they only decide when code runs:
  - the 300 ms debounce of the search and of the tag cloud;
  - the `MutationObserver` that rebuilds the cloud;
  - notification timeouts.
- I/O is replaced by parameters:
  - `localStorage`, `JSON.parse` and `JSON.stringify`;
  - the Blob download and its file name;
  - `FileReader`;
  - `navigator.clipboard`, `window.open` and `confirm`;
  - the `marked` library.
- `async`/`await` are not modelled: resolved values are passed in.
- A failure of `clipboard.writeText` in `copyCardText` is not modelled, and neither are the copy notifications.
- Notification text and position are not modelled. Only which notices `openCardUrls` raises, and the import outcome, are kept.
- `createCard` and `updateSearchCount` are never called, so they are not modelled.
- Case mappings use ASCII stand-ins: `toLowerCase`/`toUpperCase` map only `A`–`Z` and `a`–`z`.
- `localeCompare` is modelled as code-point lexicographic order.
- An element of a parsed JSON array is either null or an object:
  - primitive elements (numbers, strings, booleans) are not modelled;
  - record fields that are neither strings nor absent are not modelled;
  - a `tags` value other than an array of strings or a string is not modelled.
- index.html is not part of this model. A card added without a record starts with every field empty.
- Query.FilterCards: the loop calls the visibility predicate instead of repeating the two tests inline.
- Text.IntToString: carries no contract of its own, because negative years never reach the stamp in practice. `StampLayout` states the layout after the year, whatever the year is.
- Manager.CardManager.ClickTitle: states the URL attempts and the warning. The full notice list and the outcomes are stated by `OpenCardUrls`.
- The tag cloud is not kept as a field of the manager: `UpdateTagCloud` computes its rows from the cards.
- Text.Expand: carries no contract of its own. Each form of the replacement is stated by a lemma: `ExpandDollarThen`, `ExpandMatch`, `ExpandBefore`, `ExpandAfter`, `ExpandLiteral`, `ExpandLoneDollar`, `ExpandFinalDollar`, plus `ExpandPlain` for a replacement without `$`.
- Text.Join: carries no contract of its own. What `join` produces is stated by the lemmas about it: `JoinSplit`, `SplitJoin`, `JoinThree`, `JoinLacks` and `Links.JoinMembers`.
