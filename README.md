# News-reposting bot: a verified model of its decision pipeline

The bot (`telegram_poster.py`) posts one article an hour to a Telegram channel.
Each run starts with the feed source after the one that posted last and goes
round the five sources. In each feed it takes entries in order. It skips any
title that is a fuzzy near-duplicate of the last 100 posted titles. It builds a
three-sentence summary and a caption for the first entry it can publish. It
sends the post with the article's image, or a fallback image when the article
has none. When the send succeeds it records the title and the source index.
Runs are suppressed between 01:00 and 07:59.

This Dafny project models that pipeline. Every outside effect is an input:

- `Poster.World` gives each source's feed (`Feed`), the page behind each entry
  (`Article.Page`), whether the bot can be built from the configured token
  (`botBuilds`) and whether the provider accepts each send (`delivered`).
- `History.Matcher` carries the case folding and the 0..100 similarity score.
- The hour of day is a parameter of `Job`.

The two persisted stores, the title log and the rotation index, are the fields
of the class `Poster.Bot`. Its methods follow the source's functions. Each
method is proved against a pure specification (`KeepRecent`, `Compose`,
`ScanFrom`/`SourceOutcome`, `RunFrom`), and the lemmas next to those functions
state what the source promises.

Modules, one per component: `Wrappers` (Option), `Text` (whitespace, `strip`,
the sentence split and the summary), `History` (bounded log and duplicate
filter), `Rotation` (start index and visiting order), `Schedule` (quiet hours),
`Article` (what the page yields), `Publish` (caption and the outgoing post),
`Poster` (scan, run, and the `Bot` class).

Some behaviours of the code that a reader might not expect, all modelled as written:

- An over-long caption becomes 1020 characters plus `"..."`, so 1023 characters, not 1024 (line 121).
- When a unique entry cannot be published because there is no summary or the provider rejects the send, the scan goes on with the later entries of the same feed. It does not abandon the source (lines 150-157).
- Building the bot from the token (line 119) happens outside the `try` of line 122. If it raises, the exception leaves `send_post_to_telegram`, is caught on line 161, and abandons the whole source. The model makes that step an abort (`BotRaises`), so such a run posts nothing (`NoBotPostsNothing`).
- The title log is read once per source scan (line 148), not once per run. In a single sequential run the two readings agree: the log changes only on a success, and a success ends the run.
- A second run over an unchanged feed posts nothing when every entry of the feed is already a duplicate (`AllDuplicatesPostNothing`). In general that run can post the next unique entry. What always holds is that it never reposts a title similar to the one just posted (`RescanSkipsPostedTitle`).

## Model

| member | source | states |
|---|---|---|
| `Text.Strip` | telegram_poster.py:104 | the result has no leading or trailing whitespace, is the input minus an all-whitespace prefix and suffix, and is empty exactly when the input is all whitespace |
| `Text.Sentences` | telegram_poster.py:103 | the `re.split` on whitespace after `.`, `!` or `?`; its contract is given by the next three lemmas |
| `Text.SentencesReassemble` | telegram_poster.py:103 | the split's pieces, with the whitespace runs it cut out put back between them, give back the text |
| `Text.SentencesWellSplit` | telegram_poster.py:103 | every cut is a non-empty whitespace run right after `.`, `!` or `?`, is maximal, and no piece contains another cut point |
| `Text.SentencesUnique` | telegram_poster.py:103 | any decomposition with those properties is the one the split produces (so the two lemmas above characterise the split completely) |
| `Text.Summary` | telegram_poster.py:103-105 | `None` exactly when the joined first three sentences are all whitespace; otherwise the trimmed join of those sentences, a non-empty string with no surrounding whitespace |
| `Text.SummaryDraftSentences` | telegram_poster.py:103-104 | the text the summary is trimmed from consists of exactly the first min(3, n) sentences of the paragraph text |
| `Text.ShortTextIsOwnSummary` | telegram_poster.py:103-105 | a text of at most three sentences separated by single spaces is its own summary, up to trimming |
| `History.KeepRecent` | telegram_poster.py:51-55 | the new log has min(100, old length + 1) entries, ends with the new title, and keeps the newest old entries in order (only the oldest are dropped) |
| `History.IsDuplicateTitle` | telegram_poster.py:58-64 | true exactly when some logged title scores strictly above 85 against the candidate (false for an empty log); the scan stops right after the first such entry and looks at every entry otherwise |
| `History.FirstSimilar` | telegram_poster.py:59-63 | the position where the scan stops: the first similar entry, and no entry before it is similar |
| `History.DuplicateAppend` | telegram_poster.py:58-64 | a title is a duplicate of a log made of two parts exactly when it is a duplicate of either part |
| `History.DuplicateAfterRecord` | telegram_poster.py:51-64 | after `t` is recorded, a title is a duplicate exactly when it is similar to `t` or to one of the 99 newest earlier titles (all of them when fewer than 100 were logged) |
| `History.RecordedTitleBlocksSimilar` | telegram_poster.py:51-64 | right after title `t` is recorded, every title similar to `t` is a duplicate |
| `History.RecordingKeepsRecentMatches` | telegram_poster.py:51-64 | recording a title keeps a title a duplicate when its match is among the 99 newest entries |
| `Rotation.NextStart` | telegram_poster.py:68-74 | the start index lies in 0..4 for any stored integer and is congruent to one past it modulo 5 (Python's `%` with a positive divisor); it is 0 when nothing readable is stored, and the next index, wrapping to 0 after 4, for a stored valid index |
| `Rotation.VisitAt` | telegram_poster.py:175 | step `i` of a run tries source `(start + i) mod 5`, a valid index: `start + i`, or `start + i - 5` once that passes the last source |
| `Rotation.VisitOrderIsPermutation` | telegram_poster.py:174-175 | one run tries each source exactly once: steps are pairwise distinct and every source has a step |
| `Rotation.CommittedSourceTriedLast` | telegram_poster.py:72-80 | after source `s` is committed, the next run tries `s` last |
| `Schedule.RunsAt` | telegram_poster.py:189-192 | for an hour in 0..23 a run happens exactly at hour 0 or from hour 8 on; never in 1..7 |
| `Article.ArticleDetails` | telegram_poster.py:86-108 | when a container matched, the page's `og:image` and the `Summary` of the container's text; otherwise (no container, or any error) neither; a summary is never the empty string, and is present exactly when a container matched and its first sentences are not all whitespace |
| `Publish.Caption` | telegram_poster.py:120-121 | at most 1024 characters; unchanged when the composed caption fits; otherwise its first 1020 characters followed by `"..."`, 1023 in all |
| `Publish.CaptionShape` | telegram_poster.py:120-121 | the caption is the composed text, or a prefix of it followed by `"..."`; the bold title survives whenever the title has at most 1017 characters |
| `Publish.Compose` | telegram_poster.py:113-126 | nothing is sent exactly when there is no summary; otherwise a photo post with a non-empty URL (the article's image, or the fallback when it has none or an empty one) and the bounded caption, so the text-only branch is unreachable |
| `Poster.EntryStep` | telegram_poster.py:151-157 | one pass of the entry loop; its contract is given by `EntryPublishes` |
| `Poster.ScanFrom` | telegram_poster.py:150-163 | a scan ends in a post of an entry within the feed, in "no unique entry", or in an abort |
| `Poster.SourceOutcome` | telegram_poster.py:139-163 | `post_news_from_source` as a value; its contract is given by `ScanPostsFirstSuccess`, `ScanFindsNothingIff` and `PostedTitleIsNew` |
| `Poster.EntryPublishes` | telegram_poster.py:151-157 | an entry posts exactly when it has a title that is not a duplicate of the log, a link, and a successful send, and it posts the stripped title; it is passed over exactly when its title is a duplicate, or it has a link and the send fails without raising; it aborts exactly when its title is missing, or it is new and has no link or a bot that cannot be built |
| `Poster.ScanPostsPublishedStep` | telegram_poster.py:150-157 | when a scan posts, the entry it stops at is one whose step publishes exactly the posted title |
| `Poster.ScanPostsFirstSuccess` | telegram_poster.py:150-157 | the scan posts entry `i` exactly when `i` has a new title, a link and a successful send, and every earlier entry was a duplicate or failed to send |
| `Poster.ScanFindsNothingIff` | telegram_poster.py:150-160 | the scan finds nothing exactly when every entry is passed over |
| `Poster.PostedTitleIsNew` | telegram_poster.py:153-157 | a posted title is never a duplicate of the log snapshot, and its send succeeded |
| `Poster.NoBotPostsNothing` | telegram_poster.py:119 | when the bot cannot be built (the exception escapes to line 161), no source posts |
| `Poster.AllDuplicatesPostNothing` | telegram_poster.py:144-160 | a source whose every entry is a duplicate (or whose feed is missing or empty) posts nothing |
| `Poster.RescanSkipsPostedTitle` | telegram_poster.py:148-157 | scanning the same feed again after a post never posts a title similar to the one recorded, nor the same entry |
| `Poster.RunFrom` | telegram_poster.py:174-182 | a run that posts names a valid source index |
| `Poster.RunPostsFirstSuccessfulSource` | telegram_poster.py:174-182 | the run posts from the source of step `i` exactly when that source posts and no source tried before it does, and the title is that source's |
| `Poster.RunSkipsEarlierSteps` | telegram_poster.py:174-182 | from any step on, a run never posts from a source that an earlier step already tried |
| `Poster.RunPostsNothingIff` | telegram_poster.py:174-185 | a run posts nothing exactly when no source posts |
| `Poster.Bot.constructor` | telegram_poster.py:43-48 | the bot starts from what the two stores hold |
| `Poster.Bot.NextSourceIndex` | telegram_poster.py:68-74 | the start index read from the stored rotation state is `NextStart` of it: a valid index, 0 when nothing is stored, congruent to one past the stored integer modulo 5, and the next index (wrapping to 0 after 4) for a stored valid index |
| `Poster.Bot.SaveSourceIndex` | telegram_poster.py:77-79 | the stored index becomes the given one; the log is unchanged |
| `Poster.Bot.AddRecentTitle` | telegram_poster.py:51-55 | the log becomes `KeepRecent` of the old log, so it has at most 100 entries and ends with the title; the rotation state is unchanged |
| `Poster.Bot.SendPost` | telegram_poster.py:111-132 | sends what `Compose` builds when the bot can be built; raises exactly when there is a summary and the bot cannot be built; succeeds exactly when there is a summary, the bot is built and the provider accepts; records the title only then |
| `Poster.Bot.TryEntry` | telegram_poster.py:151-157 | performs the step `EntryStep` describes for one entry, and the log gains the stripped title exactly when that step publishes; the rotation state is unchanged |
| `Poster.Bot.PostFromSource` | telegram_poster.py:136-163 | returns true exactly when `SourceOutcome` over the log as it was at entry is a post, and the log then gains that title; otherwise nothing changes |
| `Poster.Bot.TrySource` | telegram_poster.py:176-181 | one turn of the run loop: returns true exactly when the source's outcome is a post; then the log gains that title and the stored index becomes this source; otherwise both stores are unchanged |
| `Poster.Bot.MainTask` | telegram_poster.py:166-185 | result, new rotation state and new log are those of `RunFrom` from the stored start: on a post, the index of the source that posted and its title; on none, both stores unchanged |
| `Poster.Bot.Job` | telegram_poster.py:188-195 | in quiet hours nothing changes; otherwise the state changes as one `MainTask` run |

## Left out

- Fetching feeds and pages over HTTP (the user-agent header, the 15-second timeout, status checks) is not modelled: a failed fetch is `Feed.FeedUnavailable` or `Page.Unreachable`.
- Feed parsing and the HTML work (the `og:image` lookup, content selectors, removing code blocks, scripts, styles and asides, collecting paragraph text) are library calls. Their results are the `Feed` and `Page` inputs.
- `urljoin` on line 155 is left out. The page behind an entry is given by its position `(source, entry)`, so the model only looks at whether the entry has a link. A link that `urljoin` rejects with a `ValueError` (an unbalanced `[` in the host, say) would abort the source on line 161; the model treats every present link as resolvable.
- `fuzz.ratio` and `str.lower` are the two functions of `History.Matcher`. The score is only constrained to 0..100. `RescanSkipsPostedTitle` requires that a title scores above 85 against itself.
- Sending to Telegram and the asyncio event loop are replaced by the `delivered` answer per attempt. This includes a rejection of the caption's Markdown and any other `TelegramError` that line 129 catches. An exception of another kind raised by the send itself is not modelled. A failure to build the `Bot` from the token is modelled separately, by `botBuilds`.
- The two files are fields of `Bot`. The file format is not modelled. Titles containing line breaks, or an empty title, would not read back unchanged from the title file. Parsing the state file is reduced to `Option<int>`, with `None` for a missing or malformed file. A write error after a successful send (caught on line 161) is not modelled.
- Environment variables, logging, and the contents of the source catalog are left out. Only the number of sources (5) is kept.
- The `schedule` library, the polling loop with `time.sleep` and reading the Kyiv clock are left out. The hour is a parameter of `Job`.
- Lengths count Unicode scalar values, as Python's `len` counts code points. The provider's own way of counting the 1024-character limit is not modelled.
