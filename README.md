# gtb normalisation and rendering core, in Dafny

gtb collects a person's recent posts from Bluesky, Mastodon and kibun. It turns each post into a
`NormalizedPost` and writes one gemtext document per calendar day. This project models that pipeline
and proves its properties:

- **Collector pieces.** The filter loops drop replies, reblogs and embeds. The `transform_*` loops
  build a `NormalizedPost` from each record, field by field. The Bluesky `at://` URI is rewritten to a
  web link. `find_tags` extracts hashtags.
- **Text formatter.** `format_links_in_text` lifts every markdown link and raw URL onto a gemtext `=>`
  line and keeps the prose between them.
- **Per-post renderer.** `format_post_to_gemtext` emits optional sections in a fixed order: the
  timestamp link, the text, the author and the tags.
- **Day-document renderer.** `to_gemtext_list` and `to_gemtext` stable-sort the posts by timestamp,
  group them by date and put a `# YYYY-MM-DD` header on each day's document.

Modules, one file each:

| module | file | models |
|---|---|---|
| `Wrappers` | `wrappers.dfy` | `Option` |
| `Strings` | `strings.dfy` | `str.isspace`, `str.strip`, `"\n".join`, `str.replace` |
| `Posts` | `posts.dfy` | `NormalizedPost`, the timestamp with its `datetime.min` sentinel, the time label, the date string |
| `LinkScanner` | `link_scanner.dfy` | a deterministic scanner for `\[([^\]]+)\]\(([^\)]+)\)\|(https?://[^\s]+)`, as `re.finditer` runs it |
| `Formatter` | `formatter.dfy` | `_extract_url_from_match`, `format_links_in_text` |
| `Sorting` | `sorting.dfy` | `sorted(..., key=timestamp)` as a stable insertion sort |
| `Grouping` | `grouping.dfy` | `itertools.groupby` by calendar date |
| `Renderer` | `renderer.dfy` | `format_post_to_gemtext` |
| `Documents` | `documents.dfy` | `to_gemtext_list`, `to_gemtext`, and the date slice that main.py reads |
| `Tags` | `tags.dfy` | `find_tags`, over any word-character class that excludes `#` |
| `Collector` | `collector.dfy` | the filter loops, the Bluesky URI rewrite, `transform_bluesky`, `transform_mastodon`, `transform_kibun` |

The source's loops are methods. Each is proved equal to a specification function, and the properties
are proved about that function:

| method | specification function |
|---|---|
| `FormatLinksInText` | `FormatLinks` |
| `FormatPostToGemtext` | `RenderPost` |
| `ToGemtextList` | `Documents` |
| `FilterMastodon`, `FilterBluesky` | `Filter` |
| `TransformBluesky`, `TransformMastodon`, `TransformKibun` | `BlueskyPost`, `MastodonPost`, `KibunPost` |

`NormalizedPost` is a datatype, `Post`. The transforms build it from `DefaultPost()` by one field
update per assignment in the source.

### Timestamps

A timestamp is either `Missing` or `At(localSeconds, micros, zone)`:

- `Missing` stands for the `datetime.min` sentinel.
- `localSeconds` counts seconds from 0001-01-01 00:00:00 in the one configured display zone.
- `micros` is the fraction of a second that `%f` parses, in microseconds.
- `zone` is the abbreviation that `%Z` prints.

The sort key puts `Missing` first and orders real timestamps to the microsecond, as `datetime`
comparison does. Two real timestamps have the same key exactly when their seconds and microseconds
agree (`Posts.KeyInjective`). The date is `localSeconds / 86400`; the sentinel's date is day 0,
as `datetime.min.date()` is 0001-01-01.

### Where the source's behaviour is surprising

- **Two empty tags.** A tag list of exactly `['']` is hidden. `['', '']` still prints the tag header
  with no tag lines under it (`Renderer.TwoEmptyTagsShowHeader`). The collectors never produce this
  case, because every tag `find_tags` returns is non-empty (`Tags.TagsWellFormed`).
- **Mixed timestamps.** The sentinel is a naive `datetime` and real timestamps are aware ones, so
  Python raises `TypeError` when it sorts a list that mixes them. The model sorts the sentinel first
  instead, which is what the code evidently means.

## Model

| member | source | states |
|---|---|---|
| `Strings.Strip` | transformer.py:35 | no leading or trailing whitespace remains; the result is empty exactly when the input is all whitespace |
| `Strings.StripIsInfix` | transformer.py:47 | `strip()` keeps one contiguous piece of the input with only whitespace on either side |
| `Strings.JoinLinesPrefix` | transformer.py:98 | a `"\n".join` starts with its first entry |
| `LinkScanner.MatchAtIff` | transformer.py:24-28 | a match starts at a position exactly when the markdown pattern `[caption](url)` or the raw pattern `http(s)://` plus non-whitespace matches there; the match spans exactly the matched characters |
| `LinkScanner.NextMatch` | transformer.py:34 | the next match is the leftmost one: no match starts between the scan position and it |
| `LinkScanner.Matches` | transformer.py:34 | the scan is ordered and non-overlapping; each match starts at the leftmost match position after the previous match's end |
| `LinkScanner.ScanUnique` | transformer.py:34-44 | any such left-to-right scan equals `Matches`, so the scan is determined |
| `LinkScanner.AlternativesExclusive` | transformer.py:28 | the markdown and raw alternatives never both match at one position |
| `LinkScanner.MarkdownAtIff` | transformer.py:24 | the markdown scanner finds `[caption](url)` exactly when the pattern's match is `[`, a run of non-`]`, `](`, a run of non-`)`, then `)` |
| `LinkScanner.RawAtIff` | transformer.py:25 | the raw scanner finds `url` exactly when it is `http://` or `https://` followed by the longest non-empty run of non-whitespace |
| `LinkScanner.RawUrlHasNoSpace` | transformer.py:25 | a raw URL never contains whitespace |
| `Formatter.ExtractUrl` | transformer.py:9-12 | for a markdown match the URL is the parenthesised target, so the caption is dropped; for a raw match it is the matched text |
| `Formatter.FormatLinksInText` | transformer.py:23-51 | the loop over matches, with `last_end` carried along, returns `FormatLinks(text)`, the lines joined by `"\n"` |
| `Formatter.OneLinkPerMatch` | transformer.py:34-44 | the link blocks' URLs are exactly the matches' URLs, one per match, in order |
| `Formatter.BlankEntriesFollowText` | transformer.py:35-50 | every blank entry directly follows a non-blank one: none leads and no two are adjacent |
| `Formatter.TrailingNewlineIff` | transformer.py:41-51 | the output ends in a line break exactly when there is a match and only whitespace follows the last one |
| `Formatter.SingleMarkdownLink` | transformer.py:24-42 | a text that is one markdown link formats to `=> url` plus a line break |
| `Formatter.NoLinkPassthrough` | transformer.py:34-51 | with no match the output is `text.strip()` |
| `Formatter.NoLinkAfterLast` | transformer.py:44-47 | no match starts anywhere in the remainder after the last match's end |
| `Formatter.WhitespaceFormatsToEmpty` | transformer.py:47-51 | empty or all-whitespace text formats to `""` |
| `Posts.DayMonotone` | transformer.py:84-88 | in one display zone an earlier timestamp never has a later date |
| `Posts.SecondsMonotone` | transformer.py:84 | ordering by the key orders real timestamps by their whole seconds first |
| `Posts.KeyInjective` | collector.py:14-16 | two real timestamps have equal keys exactly when their seconds and microseconds are equal |
| `Posts.TimeLabel` | transformer.py:57 | `%H:%M:%S (%Z)` is three two-digit fields separated by colons, a blank, then the zone in parentheses |
| `Posts.DateStr` | transformer.py:91 | `%Y-%m-%d` is ten characters: digits, with dashes at positions 4 and 7 |
| `Sorting.SortPermutes` | transformer.py:84 | sorting keeps every post, with its multiplicity |
| `Sorting.SortSorts` | transformer.py:84 | the sorted posts are in timestamp order |
| `Sorting.SortStable` | transformer.py:84 | posts with equal timestamps keep their input order |
| `Sorting.StableSortUnique` | transformer.py:84 | two sorted sequences with the same posts per timestamp, in the same order, are equal: any stable sort gives this output |
| `Sorting.SortOrderFree` | transformer.py:84 | with pairwise distinct timestamps (to the microsecond), any rearrangement of the input sorts to the same sequence |
| `Grouping.GroupByDay` | transformer.py:88 | there is no group exactly when there is no post; every group is non-empty |
| `Grouping.FlattenGroups` | transformer.py:88-89 | concatenating the groups gives back the sorted posts |
| `Grouping.GroupsShareDay` | transformer.py:88 | all posts of a group fall on its date |
| `Grouping.NeighbourGroupsDiffer` | transformer.py:88 | neighbouring groups have different dates, so the groups are maximal runs |
| `Grouping.GroupDaysIncrease` | transformer.py:84-88 | over sorted posts the groups' dates strictly increase |
| `Grouping.GroupCount` | transformer.py:84-88 | over sorted posts there is one group per distinct date |
| `Renderer.NonEmptyTags` | transformer.py:72-74 | only non-empty tags get a `#tag` line |
| `Renderer.FormatPostToGemtext` | transformer.py:53-77 | the appends, joined by `"\n"`, give `RenderPost(post)` |
| `Renderer.AppendTimestamp` | transformer.py:56-59 | appends the `=> uri time` line and a blank exactly when the timestamp is not the sentinel |
| `Renderer.AppendText` | transformer.py:61-64 | appends the formatted text and a blank exactly when the text is non-empty |
| `Renderer.AppendAuthor` | transformer.py:66-68 | appends `post author: ...` and a blank exactly when the author is non-empty |
| `Renderer.AppendTags` | transformer.py:70-75 | appends the tag section exactly when the tags are neither `[]` nor `['']` |
| `Renderer.AppendTagList` | transformer.py:71-75 | the header, one `#tag` per non-empty tag in list order, then a blank |
| `Renderer.SectionsInOrder` | transformer.py:53-75 | the sections come in the fixed order: timestamp link, text, author, tags |
| `Renderer.StampSection` | transformer.py:56-59 | the timestamp link is present exactly when the timestamp is not the sentinel; it names the source URI and the time label |
| `Renderer.BodySection` | transformer.py:61-64 | the text section is present exactly when the text is non-empty, and holds the formatted text |
| `Renderer.BylineSection` | transformer.py:66-68 | the author section is present exactly when the author is non-empty |
| `Renderer.TagSection` | transformer.py:70-75 | the tag section is present exactly when the tags are neither `[]` nor `['']`, and lists the non-empty tags |
| `Renderer.StampComesFirst` | transformer.py:56-59 | a post with a real timestamp starts with its link line and a blank |
| `Renderer.RenderShape` | transformer.py:53-77 | whatever the formatter returns, the rendering is empty exactly when no section is present, and otherwise ends in a line break |
| `Renderer.EmptyRenderIff` | transformer.py:53-77 | a post renders to `""` exactly when it has the sentinel timestamp, empty text, empty author and hidden tags |
| `Renderer.RenderEndsWithNewline` | transformer.py:56-77 | a non-empty rendering ends in a line break |
| `Renderer.DefaultPostRendersEmpty` | transformer.py:14-77 | a fresh `NormalizedPost()` renders to `""` |
| `Renderer.SourceAppNotRendered` | transformer.py:53-77 | `source_app` never influences the output |
| `Renderer.LoneEmptyTagHidden` | transformer.py:70 | `['']` renders like no tags at all |
| `Renderer.TwoEmptyTagsShowHeader` | transformer.py:70-75 | `['', '']` shows the header with no tag lines |
| `Renderer.NonEmptyTagsMembers` | transformer.py:72-74 | a tag is listed exactly when it is in the list and non-empty |
| `Renderer.NonEmptyTagsKeepsAll` | transformer.py:72-74 | a list without empty tags is listed in full, in order |
| `Documents.DayHeader` | transformer.py:91 | the header is `# `, the ten-character date, then two line breaks; characters 2 to 12 are the date |
| `Documents.ToGemtextList` | transformer.py:79-95 | the sort, group and render loop returns `Documents(posts)`, and `[]` for no posts |
| `Documents.RenderDay` | transformer.py:90 | the list comprehension renders each post of a day, in order |
| `Documents.NoDocumentsIff` | transformer.py:80-81 | there are no documents exactly when there are no posts |
| `Documents.DocumentPerDate` | transformer.py:84-95 | there is one document per distinct date |
| `Documents.DayGroupsOrdered` | transformer.py:84-88 | the groups' dates strictly increase, and every post of a group has the group's date |
| `Documents.DocumentAt` | transformer.py:89-93 | document `i` is its day's header followed by its posts' renderings joined by `"\n"`; main.py's slice of it is the date |
| `Documents.FileNameDate` | main.py:76-78 | the characters 2 to 12 that name a document's output file are the date of every post in that document |
| `Documents.PostsCovered` | transformer.py:84-90 | the posts rendered across all documents are a permutation of the input, sorted, with equal timestamps in input order |
| `Documents.OrderFree` | transformer.py:84-95 | with pairwise distinct timestamps (to the microsecond), the documents do not depend on the input order |
| `Documents.ToGemtextShape` | transformer.py:97-98 | the joined output is empty exactly when there are no posts, and otherwise starts with the earliest day's header |
| `Tags.WordRunEnd` | collector.py:19 | `\w+` runs to the first non-word character |
| `Tags.TagAt` | collector.py:19 | the tag captured at a `#` is a non-empty run of word characters, not followed by another word character |
| `Tags.TagsAreRuns` | collector.py:19-20 | the scan from any position returns one maximal tag per tag start, in order |
| `Tags.FindTagsSpec` | collector.py:18-21 | the tags are those at every `#`-plus-word-character position, in order of appearance, starts strictly increasing |
| `Tags.TagsWellFormed` | collector.py:19-20 | every tag is non-empty, made of word characters and free of `#` |
| `Tags.NoTagsIff` | collector.py:20-21 | there are no tags exactly when no `#` is followed by a word character |
| `Tags.TagCountBound` | collector.py:19-20 | there are at most as many tags as `#` characters |
| `Collector.FilterKeepsOrder` | collector.py:52-73 | the filter keeps every kept record and only those, in input order |
| `Collector.FilterMembers` | collector.py:52-73 | a record is in the output exactly when it is in the input and the predicate keeps it |
| `Collector.FilterLoop` | collector.py:52-73 | the append loop computes the filter |
| `Collector.FilterMastodon` | collector.py:51-54 | the Mastodon loop keeps what `KeepMastodon` keeps, in order |
| `Collector.FilterBluesky` | collector.py:70-73 | the Bluesky loop keeps what `KeepBluesky` keeps, in order |
| `Collector.FilterKibun` | collector.py:88-90 | the kibun loop keeps every record, in order |
| `Collector.MastodonKept` | collector.py:53 | a status is kept exactly when `in_reply_to_id` and `reblog` are both falsy |
| `Collector.BlueskyKept` | collector.py:72 | a record is dropped exactly when its value has an `embed` or a `reply` key |
| `Collector.BlueskyUriOfPost` | collector.py:103-104 | `at://D/app.bsky.feed.post/K` becomes `https://reddwarf.app/profile/D/post/K` |
| `Collector.TransformBluesky` | collector.py:94-112 | one post per record, in order: source app `bluesky`, the parsed time, the rewritten URI, author `handle (bluesky)`, the record's text, and the text's tags |
| `Collector.TransformMastodon` | collector.py:114-129 | one post per status, in order: source app `mastodon`, the status URL, author `username (mastodon)`, the converted content, and its tags |
| `Collector.TransformKibun` | collector.py:131-146 | one post per record, in order: source app `kibun`, the fixed `https://www.kibun.social/`, author `handle (kibun)`, text `emoji \| text`, and its tags |

## Left out

- HTTP fetching, `raise_for_status` and JSON decoding (collector.py:37-92): network I/O. The filters
  and transforms take already-decoded records: `MastodonStatus`, `BlueskyRecord` and `KibunRecord`.
- The `collect` dispatch (collector.py:23-35) and the composition of each `collect_*` with its
  transform: dictionary lookup and calls around the network code.
- `parse_iso_utc_to_timezone` (collector.py:14-16) is a function-typed parameter of the transforms.
  It parses text and consults the tz database.
- `markdownify` (collector.py:124) is a function-typed parameter of `TransformMastodon`: it is a
  foreign library.
- Time zones: one display zone is assumed, with its abbreviation stored in the timestamp. Daylight
  saving changes of `%Z`, and the repeated hour when clocks go back, are not modelled.
- `Posts.DateStr`: only its shape is proved (ten digits and dashes, with dashes at positions 4 and 7). The
  day-number-to-calendar conversion is written out, but its agreement with the Gregorian calendar is
  not proved.
- `Posts.TimeLabel`: only its shape is proved (`HH:MM:SS (zone)`).
- The `TypeError` that Python raises on sorting the naive sentinel together with aware timestamps:
  the model sorts the sentinel first.
- Python's Unicode `\w` table is not written out: the word-character class of `find_tags` is a
  parameter, and the tag lemmas hold for every class that excludes `#`, as `\w` does. `\s` and
  `strip()` use Python's full `isspace` set.
- `Collector.BlueskyUriOfPost`: stated only for an authority that starts with `did:` and has no `/`,
  and a record key with no `/`. All real post URIs have this form. URIs of other shapes are still
  rewritten by `BlueskyUri`, as the source does, but no lemma describes them.
- `Renderer.FormatPostToGemtext`: the four `if` blocks are separate helper methods (`AppendTimestamp`,
  `AppendText`, `AppendAuthor`, `AppendTags`). Each states what it appends.
- `NormalizedPost` is a value (`Post`), not a mutable object: no code path aliases one.
- config_parser.py: YAML loading and plain configuration records.
- main.py: command-line parsing, logging, directories and the compare-then-write file sink. Only the
  date slice is modelled (`Documents.DayHeader`, `Documents.FileNameDate`).
