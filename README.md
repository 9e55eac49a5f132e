# Love counter site generator — a verified model

The application is a small web tool. A five-step form collects a record: page title, two partner
names, the relationship start date, a message and a theme colour. Photos and a video link
travel with the record too. A live preview shows a counter of the years, months, days and hours
since the start date, refreshed every hour. When the form is done, the tool produces a static
page (HTML and a style sheet) and an address for it. A persistence service stores the record as
a row and converts a row back.

This project models that core in Dafny and proves properties of it:

- `JsString`: the ECMAScript string behaviour the code relies on. This covers the `\s` whitespace
  class, `trim`, `substring`, the `||` fallback and `toString(36)`.
- `Counter`: the elapsed-time calculator. It uses fixed 365-day years and 30-day months, and
  each field is taken from its own remainder, so the fields do not cascade. The module also
  holds the refresh lifecycle as a class, `CounterEffect`: an immediate update, an hourly
  interval, and the cleanup that clears it.
- `SiteGenerator`: `generateHTML`, `generateCSS` and `generateSiteUrl`, and the counter script
  embedded in the page. Template strings become a concatenation of fixed pieces and the
  record's fields.
- `VideoId`: `extractYouTubeVideoId`, as a recognizer of the leftmost known prefix followed by
  an eleven-character id. Only the pattern's fixed prefixes are modelled; see "Left out".
- `LoveCounterPreview` and `GeneratedSite`: what the two counter pages show. This includes
  their fallbacks and the embedded player.
- `MiniSiteService`, which has three parts:
  - the URL slug and base-36 time stamp of `generateUniqueSiteUrl`;
  - the record-to-row mapping of `saveMiniSite`;
  - `convertMiniSiteToSiteData`.
- `LoveCounterGenerator`: the wizard, as the class `Wizard`. Its fields are `currentStep`,
  `siteData` and `generatedUrl`. Its methods are the handlers of the source and the buttons and
  inputs that call them.

The record type `SiteGenerator.SiteData` has the eight fields the components read. The interface
in `src/utils/siteGenerator.ts` declares only the first six: it has no `photos` and no
`youtubeUrl`.

The host clock, date parsing and `Math.random` are parameters of the operations that use them.
A parsed date is an integer number of milliseconds, or `None` where parsing yields NaN.

### Behaviour worth knowing

- **Days are not a cascade.** The day field is the difference modulo 30 days, divided by one
  day; it is not the remainder after whole years and months. From 2024-01-01 to
  2025-02-02T01:00Z the counter therefore shows 1 year, 1 month, 8 days and 1 hour
  (`Counter.FebruaryScenario`).
- **The counter is not monotone.** The reading can go down as time passes:
  - after 389 days it reads (1, 0, 29, 0);
  - one day later it reads (1, 0, 0, 0) (`Counter.CounterNotMonotone`).

  Only `years`, and the pair (`years`, `months`) after the anchor, never decrease.
- **Names survive the round trip only under three conditions.** Saving and reloading gives
  back both names when all three hold:
  - neither name contains `" & "`;
  - the first name does not end in `" &"`;
  - neither name is empty (an empty one is read back as `Partner 1` or `Partner 2`).

  For example, `"Ana &"` and `"Bia"` come back as `"Ana"` and `"& Bia"`
  (`MiniSiteService.TrailingAmpersandBreaksRoundTrip`).

## Model

| member | source | states |
|---|---|---|
| JsString.Trim | src/components/LoveCounterGenerator.tsx:79-82 | `trim()`: trimStart then trimEnd, characterised by the rows below |
| JsString.TrimStart | src/components/LoveCounterGenerator.tsx:79-82 | the result is a suffix of the input that does not start with whitespace, and everything removed was whitespace |
| JsString.TrimEnd | src/components/LoveCounterGenerator.tsx:79-82 | the result is a prefix of the input that does not end with whitespace, and everything removed was whitespace |
| JsString.TrimEmptyIffBlank | src/components/LoveCounterGenerator.tsx:79-82 | `s.trim() !== ''` fails exactly on texts made only of whitespace |
| JsString.TrimNoWhitespace | src/utils/miniSiteService.ts:84 | `trim` leaves a text without whitespace unchanged |
| JsString.Substring | src/utils/miniSiteService.ts:85 | `substring(start, end)` is no longer than the text or than the distance between its bounds; from 0 it is a prefix of the text, of length `min(end, length)` |
| JsString.IntToBase36 | src/utils/miniSiteService.ts:88 | `toString(36)` of a non-negative integer is non-empty, uses only `0-9a-z`, and starts with `0` only for zero |
| JsString.Base36RoundTrip | src/utils/miniSiteService.ts:88 | reading the base-36 text back gives the number |
| JsString.Base36Injective | src/utils/miniSiteService.ts:88 | distinct numbers have distinct base-36 texts |
| Counter.Elapsed | src/components/LoveCounterPreview.tsx:28-31 | the calculator: whole 365-day years, then whole 30-day months, days and hours of what the truncated remainders leave; its properties are the lemmas in the rows below |
| Counter.JsRem | src/components/LoveCounterPreview.tsx:29-31 | the JavaScript `%` has magnitude below the divisor and takes the sign of the dividend |
| Counter.JsRemMatchesTruncation | src/components/LoveCounterPreview.tsx:29-31 | the JavaScript `%` is odd in the dividend and agrees with the Euclidean remainder on non-negative dividends |
| Counter.Floor | src/components/LoveCounterPreview.tsx:28-31 | `Math.floor(x / d)` is the largest `q` with `q * d <= x` |
| Counter.ZeroAtAnchor | src/components/LoveCounterPreview.tsx:26-31 | at the anchor itself the counter is four zeros |
| Counter.ElapsedBounds | src/components/LoveCounterPreview.tsx:28-31 | after the anchor, every field is non-negative, months at most 12, days below 30 and hours below 24; before it, every field is non-positive |
| Counter.YearsMonotone | src/components/LoveCounterPreview.tsx:28 | `years` never decreases as the current instant grows |
| Counter.YearsMonthsMonotone | src/components/LoveCounterPreview.tsx:28-29 | after the anchor, (`years`, `months`) never decreases lexicographically |
| Counter.CounterNotMonotone | src/components/LoveCounterPreview.tsx:28-31 | 389 days read (1, 0, 29, 0) and 390 days read (1, 0, 0, 0), so the four-field counter decreases |
| Counter.FebruaryScenario | src/components/LoveCounterPreview.tsx:28-31 | from 2024-01-01 to 2025-02-02T01:00Z the counter is (1, 1, 8, 1), where a cascade would give 3 days |
| Counter.ShiftOnePeriod | src/components/LoveCounterPreview.tsx:28-31 | one day, 30 days or 365 days later, the hour, day or month field reads the same, and one year later `years` is one more |
| Counter.Periodic | src/components/LoveCounterPreview.tsx:28-31 | hours repeat with a period of one day, days of 30 days and months of 365 days, and `k` whole years add `k` to `years` |
| Counter.Measure | src/components/LoveCounterPreview.tsx:23-33 | an update yields NaN exactly when the date does not parse, and zeros when the current instant is the anchor |
| Counter.CounterEffect.AtMostOneTimer | src/components/LoveCounterPreview.tsx:36-40 | at most one interval of the component is ever scheduled |
| Counter.CounterEffect.Mount | src/components/LoveCounterPreview.tsx:17-37 | the counter starts at zeros; with a date the first update is published before any tick and one interval is scheduled; with an empty date nothing is published or scheduled |
| Counter.CounterEffect.RunEffect | src/components/LoveCounterPreview.tsx:19-37 | the effect returns at once for an empty date; otherwise it publishes one update for the captured anchor and schedules a fresh interval with the one-hour period |
| Counter.CounterEffect.Tick | src/components/LoveCounterPreview.tsx:37 | only the live interval publishes, and it publishes the calculator for the current instant; a cleared interval's tick changes nothing |
| Counter.CounterEffect.Cleanup | src/components/LoveCounterPreview.tsx:39 | `clearInterval` leaves no live interval |
| Counter.CounterEffect.Render | src/components/LoveCounterPreview.tsx:19-40 | an unchanged date leaves everything as it is; a changed date clears the old interval before the effect runs again, and a change to the empty date keeps the last counter on screen |
| Counter.CounterEffect.Unmount | src/components/LoveCounterPreview.tsx:39-40 | after unmount no interval is live, so no later tick publishes |
| SiteGenerator.GenerateHtml | src/utils/siteGenerator.ts:11-80 | `generateHTML`: the page template with the record's title, names, date and message pasted in; the rows below state what the page contains and what it depends on |
| SiteGenerator.ContainsPart | src/utils/siteGenerator.ts:11-80 | every piece of a template occurs in its concatenation |
| SiteGenerator.HtmlShowsFields | src/utils/siteGenerator.ts:17-53 | the page holds `<title>` + title + `</title>`, the heading with the title, the subtitle `name1 ❤️ name2`, the message paragraph and the footer with the title, all inserted verbatim |
| SiteGenerator.HtmlEmbedsDateAndCounters | src/utils/siteGenerator.ts:30-59 | the page holds `new Date('` + date + `')` and the four counter spans `years`, `months`, `days`, `hours`, each showing `0` |
| SiteGenerator.HtmlIgnoresStyleAndMedia | src/utils/siteGenerator.ts:11-80 | the page depends only on title, names, date and message |
| SiteGenerator.GenerateCss | src/utils/siteGenerator.ts:82-222 | `generateCSS`: the fixed style sheet with the colour pasted in at its two places |
| SiteGenerator.Interpolate2Injective | src/utils/siteGenerator.ts:82-222 | a template with one value interpolated at two places determines the value |
| SiteGenerator.CssDeterminedByColor | src/utils/siteGenerator.ts:82-222 | two records give the same style sheet exactly when their primary colours are equal |
| SiteGenerator.CssHoldsColorTwice | src/utils/siteGenerator.ts:117-157 | the colour is interpolated exactly twice: the sheet grows by two characters per colour character |
| SiteGenerator.GenerateSiteUrl | src/utils/siteGenerator.ts:225-230 | `generateSiteUrl`: the fixed address around characters 2 to 15 of the random text; the record is not read |
| SiteGenerator.SiteId | src/utils/siteGenerator.ts:226 | the site id has at most 13 characters, all base-36 digits when the random text has the shape of `Math.random().toString(36)` |
| SiteGenerator.SiteUrlRoundTrip | src/utils/siteGenerator.ts:225-230 | the address is `https://love-counter-` + id + `.lovable.app`, and the id can be read back from it |
| SiteGenerator.SiteUrlOnlyFromRandom | src/utils/siteGenerator.ts:225-230 | the address depends on the random text only, never on the record, and has bounded length |
| SiteGenerator.EmbeddedCounter.Load | src/utils/siteGenerator.ts:57-75 | loading the page publishes one reading right away: the calculator for the pasted date, or NaN when that date is empty or invalid |
| SiteGenerator.EmbeddedCounter.Tick | src/utils/siteGenerator.ts:76 | every hourly tick republishes the calculator for the current instant |
| VideoId.ExtractYouTubeVideoId | src/components/LoveCounterPreview.tsx:42-46 | `extractYouTubeVideoId`: the scan from the start of the URL; ExtractShape and the scan lemmas state its result |
| VideoId.TryPrefixesSpec | src/components/LoveCounterPreview.tsx:43 | at one position, a captured id is eleven id characters that follow one of the prefixes tried, and nothing is captured exactly when no prefix matches there |
| VideoId.ScanFrom | src/components/LoveCounterPreview.tsx:43-45 | a non-empty result is an id that follows a known prefix at or after the start position; the empty result means no position there matches |
| VideoId.ScanLeftmost | src/components/LoveCounterPreview.tsx:43-45 | a non-empty result is the id after the leftmost matching position and, at that position, after the first prefix that matches |
| VideoId.ScanFindsFirst | src/components/LoveCounterPreview.tsx:43-45 | conversely, when a prefix at some position is the first match, the result is the id after it |
| VideoId.TryFirst | src/components/LoveCounterPreview.tsx:43 | at one position, a captured id is the one after the first of the prefixes tried that matches |
| VideoId.ExtractShape | src/components/LoveCounterPreview.tsx:42-46 | the result is `''` or eleven characters, none of them `"`, `&`, `?`, `/` or whitespace; a non-empty one follows a known prefix, and `''` means no prefix is followed by an id |
| VideoId.SkipToY | src/components/LoveCounterPreview.tsx:43 | text before the first `y` never starts a match |
| VideoId.ExtractAfter | src/components/LoveCounterPreview.tsx:43 | a known prefix followed by an id, after host text without `y`, yields that id |
| VideoId.FirstMatchingPrefix | src/components/LoveCounterPreview.tsx:43 | alternatives that do not match at a position are passed over, so the first matching one decides the id |
| VideoId.ShortLinkRoundTrip | src/components/LoveCounterPreview.tsx:43 | `https://youtu.be/` + id yields id |
| VideoId.WatchLinkRoundTrip | src/components/LoveCounterPreview.tsx:43 | `https://www.youtube.com/watch?v=` + id yields id |
| VideoId.EmbedSrcRoundTrip | src/components/LoveCounterPreview.tsx:156 | the player address built from an id yields that id again |
| VideoId.UnknownLinkHasNoId | src/components/LoveCounterPreview.tsx:44-45 | a link to another host yields `''` |
| LoveCounterPreview.YoutubeVideoId | src/components/LoveCounterPreview.tsx:48 | an empty video link gives `''`; any result is `''` or a well-formed id |
| LoveCounterPreview.RenderPreview | src/components/LoveCounterPreview.tsx:59-172 | title, names and message fall back to `Love Counter`, `Partner 1`/`Partner 2` and the placeholder text; the carousel shows exactly when there are photos; the player shows exactly when an id is extracted, and its address yields that id again |
| LoveCounterPreview.PlayerRoundTrip | src/components/LoveCounterPreview.tsx:152-157 | extracting from the player address of a well-formed id gives the id |
| LoveCounterPreview.PlayerSource | src/components/LoveCounterPreview.tsx:152-157 | the player address is `https://www.youtube.com/embed/` + id + `?controls=1&autoplay=0` |
| LoveCounterPreview.AddressShape | src/components/LoveCounterPreview.tsx:59 | the mock address is `love-counter-` + at most six characters + `.lovecounter.app` |
| LoveCounterPreview.PreviewAgreesWithPage | src/components/LoveCounterPreview.tsx:69-148 | with every text filled in, the heading, subtitle and message of the preview all appear in the generated page |
| LoveCounterPreview.PageShowsTexts | src/utils/siteGenerator.ts:23-48 | the generated page contains the title, the subtitle and the message |
| LoveCounterPreview.FieldsInside | src/utils/siteGenerator.ts:23-48 | texts found inside the page's tags are found in the page |
| LoveCounterPreview.Inside | src/utils/siteGenerator.ts:23-48 | a text found inside a found text is found |
| LoveCounterPreview.EmptyRecordPreview | src/components/LoveCounterPreview.tsx:69-148 | an empty record still shows a heading, both partners and a message, and neither photos nor a player |
| GeneratedSite.SiteVideoId | src/components/GeneratedSite.tsx:45-51 | the page's video id is `''` or a well-formed id |
| GeneratedSite.RenderSite | src/components/GeneratedSite.tsx:18-51 | the fixed record has no video link and no photos, so the page shows no player and no photos |
| GeneratedSite.SiteMatchesPreview | src/components/GeneratedSite.tsx:59-173 | the page, which has no fallbacks, shows the same heading, colour, names, message, counter, footer and (absent) player as the live preview of its record |
| GeneratedSite.MountSite | src/components/GeneratedSite.tsx:8-40 | on mount, the counter is the calculator from 1998-10-08T00:00Z to now, published once, with one interval scheduled |
| GeneratedSite.Visit | src/components/GeneratedSite.tsx:22-43 | after a tick, teardown and a stale tick, the page last showed the reading of the tick |
| GeneratedSite.VisitAtAnchor | src/components/GeneratedSite.tsx:8-39 | opened at the anchor instant, the page shows four zeros |
| MiniSiteService.AlphanumericsAppend | src/utils/miniSiteService.ts:81 | the letters and digits of a concatenation are those of its parts |
| MiniSiteService.LowerAscii | src/utils/miniSiteService.ts:78 | lower-casing keeps the length and maps each ASCII letter to lower case |
| MiniSiteService.StripSpecial | src/utils/miniSiteService.ts:81 | `.replace(/[^a-z0-9\s-]/g, '')`: a character-by-character filter; the rows below pin it down |
| MiniSiteService.StripSpecialShape | src/utils/miniSiteService.ts:81 | only lower-case letters, digits, whitespace and hyphens remain, and every letter and digit is kept in order |
| MiniSiteService.StripSpecialChar | src/utils/miniSiteService.ts:81 | one character is kept exactly when it is a lower-case letter, a digit, whitespace or a hyphen, and is dropped otherwise |
| MiniSiteService.StripSpecialAppend | src/utils/miniSiteService.ts:81 | stripping works character by character: stripping a concatenation is the concatenation of the stripped parts |
| MiniSiteService.ReplaceRuns | src/utils/miniSiteService.ts:82-83 | the global replaces `/\s+/g` and `/-+/g` by `-`, one left-to-right pass that remembers whether it is inside a run |
| MiniSiteService.ReplaceRunsShape | src/utils/miniSiteService.ts:82-83 | every character left is a hyphen or a character outside the runs; the letters and digits are kept in order; after collapsing hyphens no two hyphens are adjacent, and a collapse that continues a run does not start with a hyphen |
| MiniSiteService.ReplaceRunsAppend | src/utils/miniSiteService.ts:82-83 | the global replacement of a concatenation is the replacement of each part, the second part read as continuing a run exactly when the first ends inside one |
| MiniSiteService.ReplaceRunsNoRun | src/utils/miniSiteService.ts:82-83 | text with no whitespace (or no hyphen) is left unchanged |
| MiniSiteService.ReplaceRunsOfRun | src/utils/miniSiteService.ts:82-83 | a whole run becomes one hyphen, or nothing when it continues a run already replaced |
| MiniSiteService.RunBecomesHyphen | src/utils/miniSiteService.ts:82-83 | a maximal run between two texts becomes exactly one hyphen, and the texts around it are replaced on their own |
| MiniSiteService.CollapsedShape | src/utils/miniSiteService.ts:78-83 | after collapsing, the text has only `a-z0-9-`, no `--`, and the input's letters and digits in order |
| MiniSiteService.TrimIsNoOp | src/utils/miniSiteService.ts:82-84 | `.trim()` changes nothing, since whitespace is already gone |
| MiniSiteService.SlugBase | src/utils/miniSiteService.ts:77-85 | the slug pipeline: lower-case, strip, hyphenate, collapse, trim and keep 30 characters |
| MiniSiteService.SlugBaseShape | src/utils/miniSiteService.ts:77-85 | the slug base has at most 30 characters, only `a-z0-9-`, never `--`, and is a prefix of the collapsed text |
| MiniSiteService.PrefixShape | src/utils/miniSiteService.ts:85 | cutting a slug to a prefix creates no new hyphen run |
| MiniSiteService.SpacedTitleExample | src/utils/miniSiteService.ts:77-85 | `" Ana "` gives the base `-ana-` |
| MiniSiteService.GenerateUniqueSiteUrl | src/utils/miniSiteService.ts:75-90 | `generateUniqueSiteUrl`: the slug base, a hyphen and the instant in base 36 |
| MiniSiteService.AfterLastHyphenOf | src/utils/miniSiteService.ts:89 | the part after the last hyphen of `base-stamp` is the stamp |
| MiniSiteService.UniqueUrlShape | src/utils/miniSiteService.ts:75-90 | the URL has only `a-z0-9-`, and its last segment is base-36 text for the creation instant |
| MiniSiteService.StampHasNoHyphen | src/utils/miniSiteService.ts:88 | the time stamp has no hyphen |
| MiniSiteService.JoinSlugChars | src/utils/miniSiteService.ts:89 | joining two slugs with a hyphen gives a slug |
| MiniSiteService.UniqueUrlsDiffer | src/utils/miniSiteService.ts:87-89 | sites created at different instants never share a URL |
| MiniSiteService.ToRow | src/utils/miniSiteService.ts:23-33 | the row holds the given URL, the fixed contact e-mail, payment status `free` and no phone |
| MiniSiteService.SaveMiniSite | src/utils/miniSiteService.ts:17-52 | saving succeeds exactly when the store reports no error, and then returns the URL stored in the row |
| MiniSiteService.FindSeparator | src/utils/miniSiteService.ts:94 | finds the first `" & "` at or after a position, or reports that there is none |
| MiniSiteService.Split | src/utils/miniSiteService.ts:94 | `split(' & ')` yields at least one piece, and no piece contains the separator |
| MiniSiteService.SplitCutsFirst | src/utils/miniSiteService.ts:94 | `split(' & ')` cuts at the leftmost separator: one piece exactly when there is no separator, and otherwise the first piece runs up to the first separator and the rest is the split of what follows it |
| MiniSiteService.JoinSplit | src/utils/miniSiteService.ts:94 | joining the pieces with `" & "` gives the text back |
| MiniSiteService.ConvertMiniSiteToSiteData | src/utils/miniSiteService.ts:92-106 | the title is kept, the colour is always `#e91e63`, and both names are non-empty |
| MiniSiteService.SplitJoinedNames | src/utils/miniSiteService.ts:94 | two names that split back give exactly two pieces: the names |
| MiniSiteService.RoundTrip | src/utils/miniSiteService.ts:23-105 | convert after map keeps title, date, message, photos and video link and sets the default colour; names that split back return, with `Partner 1`/`Partner 2` for empty ones |
| MiniSiteService.TrailingAmpersandBreaksRoundTrip | src/utils/miniSiteService.ts:29-99 | `"Ana &"` and `"Bia"` come back as `"Ana"` and `"& Bia"` |
| MiniSiteService.ThirdPieceDropped | src/utils/miniSiteService.ts:94-99 | a contact name of three pieces, `"A & B & C"`, comes back as the names `"A"` and `"B"`: pieces after the second are dropped |
| MiniSiteService.NullColumnsBecomeEmpty | src/utils/miniSiteService.ts:100-104 | null date, message and video link become `''`, and null photos become `[]` |
| LoveCounterGenerator.Set | src/components/LoveCounterGenerator.tsx:33-38 | the edited field gets the value and every other field is unchanged |
| LoveCounterGenerator.SetLastWins | src/components/LoveCounterGenerator.tsx:33-38 | the last edit of a field wins, and setting a field to its own value changes nothing |
| LoveCounterGenerator.StepOf | src/components/LoveCounterGenerator.tsx:192-294 | each field is edited on exactly one of the steps 1..5 |
| LoveCounterGenerator.IsStepValid | src/components/LoveCounterGenerator.tsx:77-86 | `isStepValid` for a given step; StepValidity gives its table |
| LoveCounterGenerator.StepValidity | src/components/LoveCounterGenerator.tsx:77-86 | steps 1, 2 and 4 reject blank texts, steps 3 and 5 only empty ones, and no other step is valid |
| LoveCounterGenerator.ValidityIsLocal | src/components/LoveCounterGenerator.tsx:77-86 | editing a field of another step does not change a step's validity |
| LoveCounterGenerator.InitialValidity | src/components/LoveCounterGenerator.tsx:16-23 | on the initial record only the colour step is valid |
| LoveCounterGenerator.Wizard.constructor | src/components/LoveCounterGenerator.tsx:14-23 | the wizard starts at step 1 with no address and the initial record |
| LoveCounterGenerator.Wizard.HandleInputChange | src/components/LoveCounterGenerator.tsx:33-38 | sets one field of the record |
| LoveCounterGenerator.Wizard.NextStep | src/components/LoveCounterGenerator.tsx:40-44 | one step forward, except at step 5; the step stays within 1..5 |
| LoveCounterGenerator.Wizard.PrevStep | src/components/LoveCounterGenerator.tsx:46-50 | one step back, except at step 1; the step stays within 1..5 |
| LoveCounterGenerator.Wizard.GenerateSite | src/components/LoveCounterGenerator.tsx:52-64 | on success the address is `generateSiteUrl` of the record; when the call throws it is unchanged |
| LoveCounterGenerator.Wizard.Reset | src/components/LoveCounterGenerator.tsx:123-135 | back to step 1, no address, the initial record with colour `#e91e63` |
| LoveCounterGenerator.Wizard.ClickNext | src/components/LoveCounterGenerator.tsx:307-315 | advances only when the current step is valid, keeping every earlier step valid |
| LoveCounterGenerator.Wizard.ClickBack | src/components/LoveCounterGenerator.tsx:297-305 | goes back after step 1 and keeps the gating invariant |
| LoveCounterGenerator.Wizard.EditInput | src/components/LoveCounterGenerator.tsx:192-294 | edits only fields of the current step, so earlier steps stay valid |
| LoveCounterGenerator.Wizard.ClickGenerate | src/components/LoveCounterGenerator.tsx:316-325 | generates only at step 5 when it is valid |
| LoveCounterGenerator.Wizard.ClickCreateNew | src/components/LoveCounterGenerator.tsx:123-140 | on the result screen, resets the wizard; elsewhere it changes nothing |
| LoveCounterGenerator.Wizard.GeneratedMeansComplete | src/components/LoveCounterGenerator.tsx:296-325 | a generated address means every step 1..5 is valid |
| LoveCounterGenerator.Session | src/components/LoveCounterGenerator.tsx:14-325 | after any sequence of typing and button presses, a shown address means the wizard is at step 5 with every step valid on its final record, and the address is a site address; a successful final "Gerar Site" at a valid step 5 always shows an address |
| LoveCounterGenerator.PhotoCountAsWritten | src/components/LoveCounterPreview.tsx:76 | `data.photos.length` throws when the photo list is absent and is the list's length otherwise |
| LoveCounterGenerator.PreviewAsWritten | src/components/LoveCounterPreview.tsx:48-76 | on a form state whose photo list may be absent, the preview throws exactly when the list is absent, and otherwise renders the record with an absent video link read as empty |
| LoveCounterGenerator.InitialPreviewThrows | src/components/LoveCounterGenerator.tsx:16-23 | on the initial state as written, which sets only the six text fields, the preview's first render throws |
| LoveCounterGenerator.InitialPreviewRenders | src/components/LoveCounterPreview.tsx:76-152 | once the initial state holds an empty photo list, it is the initial record, and its first preview renders with no carousel, no player and the default heading |
| LoveCounterGenerator.ResetPreviewThrows | src/components/LoveCounterGenerator.tsx:127-134 | the record "Criar Novo Site" installs, as written, is the six-field initial state again, so the preview throws after a reset too |
| LoveCounterGenerator.ResetPreviewRenders | src/components/LoveCounterGenerator.tsx:127-134 | with an empty photo list the reset record is the one `Wizard.Reset` installs, and its preview renders |

## Left out

- MiniSiteService.LowerAscii: lowers ASCII letters only. Unicode case mapping, NFD normalisation and accent stripping (src/utils/miniSiteService.ts:78-80) are not modelled. So a letter like `É` is dropped by the next step instead of becoming `e`.
- VideoId.ExtractYouTubeVideoId: recognizes only the prefixes `youtu.be/`, `youtube.com/embed/`, `youtube.com/v/`, `youtube.com/e/` and `youtube.com/watch?v=`. The pattern's general alternatives `youtube.com/<segment>/.../` and `youtube.com/...[?&]v=` are not modelled; both are greedy and backtrack. On URLs that only those alternatives match, the model returns `''`. Where they match too, the model can return a DIFFERENT id from the pattern's. For `https://www.youtube.com/embed/dQw4w9WgXcQ?origin=https://example.com`, the first alternative captures `example.com`, the eleven characters after the last `/`; the model returns `dQw4w9WgXcQ`. For `https://www.youtube.com/watch?v=AAAAAAAAAAA&v=BBBBBBBBBBB`, the greedy `.*[?&]v=` captures `BBBBBBBBBBB`; the model returns `AAAAAAAAAAA`. The lemmas that fix an id (the short-link, watch-link and player-address round trips) concern URLs where the pattern gives the same id.
- Date parsing and the clock: `new Date(...)` and `Date.now()` are parameters. A parsed date is an integer of milliseconds or `None` for NaN. Floating-point time is not modelled.
- `Math.random()`: its `toString(36)` text is a parameter of `generateSiteUrl` and of the preview's mock address.
- Real timers: intervals are handles in `Counter.CounterEffect`, and the delay handed to `setInterval` is the field `period`. When the host fires a tick is up to the caller of `Tick`; concurrency and timing between ticks are not modelled.
- The managed store: the insert in `saveMiniSite` becomes the `storeError` parameter of `MiniSiteService.SaveMiniSite`. `getMiniSiteByUrl` (src/utils/miniSiteService.ts:55-73) is only a query, so it is not modelled.
- Text length and indexing: a Dafny `string` is a sequence of Unicode scalar values, while JavaScript strings count UTF-16 code units. So every length and position in the model counts characters where the source counts code units: the eleven id characters of `[^"&?\/\s]{11}`, `substring(2, 15)`, `substring(2, 8)`, `substring(0, 30)`. The two agree on text inside the Basic Multilingual Plane and differ on astral characters such as emoji, which take two code units each. For example, after `youtu.be/` followed by six emoji, the pattern captures eleven code units: five emoji and half of the sixth, a broken id. The model sees only six characters there and returns `''`.
- LoveCounterGenerator.Wizard: the constructor and `Reset` install the corrected record `InitialRecord`, with an empty photo list and an empty video link. The source's literals at src/components/LoveCounterGenerator.tsx:16-23 and 127-134 leave both absent. That as-written state is modelled only by `FormStateAsWritten` and `PreviewAsWritten` (see "Findings").
- LoveCounterGenerator.Wizard.GenerateSite: `generateSiteUrl` cannot throw in the model. The `None` outcome stands for an exception raised inside the host call.
- Rendering details are not modelled:
  - class names, the carousel widget, and the toasts;
  - the clipboard and `window.open` buttons;
  - `console.log` and `console.error`.
- src/components/EmojiRain.tsx, src/components/SiteGenerator.tsx, src/components/SitePreview.tsx and src/lib/supabase.ts are not part of this model. They are animation, form rendering and the store client.
- The route parameter of the generated-site page is read but never used by it, so it is not modelled.

## Findings

| source | as written | input that shows it | evidently intended | confidence | as-written member | corrected member |
|---|---|---|---|---|---|---|
| src/components/LoveCounterGenerator.tsx:16-23 | the initial form state sets only the six text fields, so `photos` is absent, while the live preview reads `data.photos.length` on every render (src/components/LoveCounterPreview.tsx:76) | the first render of the wizard, with the initial state | the initial record holds an empty photo list, so the preview shows no carousel | medium, not executed | LoveCounterGenerator.InitialPreviewThrows | LoveCounterGenerator.InitialPreviewRenders |
| src/components/LoveCounterGenerator.tsx:127-134 | "Criar Novo Site" resets the record to the same six text fields, so `photos` is absent again and the preview read at src/components/LoveCounterPreview.tsx:76 throws | "Criar Novo Site" on the result screen, then the form's first render | the reset record holds an empty photo list, like the initial one | medium, not executed | LoveCounterGenerator.ResetPreviewThrows | LoveCounterGenerator.ResetPreviewRenders |
