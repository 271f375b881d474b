# morsecast: a verified model of the feed-to-podcast pipeline

`update.py` turns a news feed into two morse-code podcasts. For every
article of the feed it selects the paragraphs to send and derives a cache
path from the article id and the rendering parameters. It renders the
audio only when no file exists at that path. It then puts an enclosure
link in front of the entry, and appends the playback length reported by
`ogginfo` to the entry's summary. A run makes two passes, at 7/25 and
25/25 words per minute. Afterwards it removes every file in the audio
folder that neither pass referenced.

The model has six modules:

- `Text` (`text.dfy`): the Python `str` operations the pipeline relies
  on. These are `isspace`, `strip`, `split(c)`, `split()`, `join`, and
  `str(int)`/`int(str)`.
- `CachePath` (`cache_path.dfy`): `mkpath`, with a decoder `ParsePath`
  that serves as its inverse.
- `Duration` (`duration.dfy`): the parse half of `get_ogg_len`, over
  `ogginfo`'s standard output. It also has `str(timedelta(seconds=n))`,
  with a reader that serves as its inverse.
- `Article` (`article.dfy`): paragraph selection and truncation. The
  loop is a method, proved against the function `Selected`.
- `Store` (`audio_store.dfy`): the audio folder. It is a class holding
  the set of file paths and a ghost log of renders. `Ensure` is the
  cache lookup; `Reconcile` is the removal loop.
- `Pipeline` (`feed.dfy`):
  - the feed is a class with a title and a sequence of entries;
  - `Update` is one pass, written as a loop whose body is `Step`;
  - `Publish` is the `__main__` run.

The outside world is passed in as values. Each entry gets an `EntryIO`
holding three things:

- the top-level blocks of its HTML content, as (tag, text) pairs;
- the result of `os.path.getsize` on its artifact;
- the text `ogginfo` prints for it.

The folder's initial contents are the store's constructor argument.

## Model

| member | source | states |
|---|---|---|
| CachePath.TruncateToInt | update.py:44 | `int(freq)` truncates toward zero: the result is within one of `freq` and on the zero side of it, for either sign |
| CachePath.AsciiOnly | update.py:34-36 | the ASCII encode/decode keeps only ASCII characters, and leaves an all-ASCII string unchanged |
| CachePath.AsciiOnlyConcat | update.py:34-36 | `encode('ascii', 'ignore')` works character by character: the filter of a concatenation is the concatenation of the filters |
| CachePath.AsciiOnlyChar | update.py:34-36 | one character is kept exactly when it is ASCII and dropped otherwise |
| CachePath.KeepSlugChars | update.py:37 | `re.sub(r'[^\w\s-]', '', s)` leaves only word characters, whitespace and `-`, and leaves a string of those unchanged |
| CachePath.KeepSlugCharsConcat | update.py:37 | the deletion works character by character: the filter of a concatenation is the concatenation of the filters |
| CachePath.KeepSlugCharsChar | update.py:37 | one character is kept exactly when it is a word character, whitespace or `-`, and deleted otherwise |
| CachePath.CollapseSeparators | update.py:38 | collapsing `[-\s]+` to `-`: empty only for empty input, starts with `-` exactly when the input starts with a separator, never has two `-` in a row |
| CachePath.CollapseAlphabet | update.py:38 | on input of slug characters and separators, the output holds only slug characters |
| CachePath.CollapsePlain | update.py:38 | characters other than `-` and whitespace pass through `re.sub(r'[-\s]+', '-', s)` unchanged and in order |
| CachePath.CollapseLeadingRun | update.py:38 | a maximal run of `-` and whitespace, of any length and mix, becomes exactly one `-` |
| CachePath.CollapseRun | update.py:38 | collapsing a word, a maximal separator run and the rest gives the word, one `-` and the collapsed rest |
| CachePath.Slug | update.py:34-38 | the slug holds only lowercase ASCII letters, digits, `_` and `-`, and never `--` |
| CachePath.SlugOfSlug | update.py:34-38 | each step of the slug pipeline leaves a slug unchanged |
| CachePath.SlugIdempotent | update.py:34-38 | re-slugging a slug gives the same slug |
| CachePath.MkPath | update.py:39-45 | the path lies under `audio/` |
| CachePath.MkPathFlat | update.py:39-45 | no `/` follows the folder's own, so the artifact sits directly in the folder |
| CachePath.ArtifactPathParts | update.py:39-45 | the path is `audio/` + slug + `_` + `{total}W{char}C{int(freq)}F{T?}` + `.ogg` |
| CachePath.ParseSuffixRoundTrip | update.py:40-45 | the parameter suffix decodes back to `(total, char, int(freq), trunc)` |
| CachePath.MkPathRoundTrip | update.py:33-45 | decoding a derived path gives back the slug of the id and the parameter key |
| CachePath.MkPathInjective | update.py:33-45 | two ids/parameter tuples share a path only when slugs and `(total, char, int(freq), trunc)` agree |
| CachePath.MkPathTruncFlag | update.py:45 | the path ends in `FT.ogg` exactly when `trunc` holds |
| Text.Strip | update.py:37 | a stripped string neither starts nor ends with whitespace |
| Text.StripSlice | update.py:37 | `strip()` is the slice of the input after its leading whitespace |
| Text.StripCutsSpace | update.py:37 | what `strip()` cuts off at either end is whitespace |
| Text.Split | update.py:49 | `split('\n')` gives at least one piece and no piece holds a newline |
| Text.JoinSplit | update.py:49 | joining the pieces of `split(c)` with `c` gives the text back |
| Text.SplitJoin | update.py:49 | splitting a join of newline-free pieces gives the pieces back |
| Text.Tokens | update.py:50 | `split()` yields non-empty tokens without whitespace |
| Text.TokensSkipSpace | update.py:50 | `split()` ignores leading whitespace of any kind and length |
| Text.TokensWord | update.py:50 | a word followed by whitespace is exactly the next token, and the rest is split on its own |
| Text.TokensJoin | update.py:50 | `split()` of words joined by single spaces gives the words back |
| Text.IntToStringRoundTrip | update.py:42-44 | `str(i)` reads back as `i` |
| Text.IntToStringInjective | update.py:42-44 | distinct integers print differently |
| Text.DigitsValueLeadingZero | update.py:53-55 | `int()` of a digit string ignores a leading zero |
| Duration.UnitGroup | update.py:52 | the optional group `([0-9]*)h:` / `([0-9]*)m:` captures digits followed by the unit and `:` |
| Duration.OptionalGroupSound | update.py:52 | the optional group `([0-9]*)<unit>:` consumes exactly its own text: the input is the group's text followed by where matching continues |
| Duration.SecondsGroupSound | update.py:52 | a match of the seconds group splits the text into the whole digits, `.`, the fraction digits, `s` and what follows |
| Duration.SecondsGroupMatches | update.py:52 | `<whole>.<fraction>s` followed by anything matches the seconds group with exactly those digit runs, and matching continues after the `s` |
| Duration.MatchClock | update.py:52 | a successful match yields digit-only groups |
| Duration.MatchClockSound | update.py:52 | a token that matches starts with the text `[<h>h:][<m>m:]<whole>.<fraction>s` of the groups it yields |
| Duration.MatchClockText | update.py:52 | every token `[<h>h:][<m>m:]<whole>.<fraction>s` followed by anything matches with exactly those groups, whatever digits they hold (empty, zero-padded or not) |
| Duration.ClockTextSeconds | update.py:52-55 | any such token reads as `int(h)*3600 + int(m)*60 + int(whole)` seconds, where an hours or minutes group that is absent or empty counts 0 and the fraction is dropped; a seconds group that is a lone `.` is an error |
| Duration.LineSeconds | update.py:51-55 | reading a `Playback` line never reports a missing `Playback` line |
| Duration.ParseOggInfoNoLine | update.py:49-57 | the probe fails with "no Playback line" exactly when no line's first token is `Playback`; it never yields 0 then |
| Duration.ParseOggInfoFirst | update.py:49-56 | the result is what the first `Playback` line gives; later lines are not read |
| Duration.PlaybackLengthExample | update.py:49-56 | `Playback length: 1m:23.456000s` gives 83 seconds |
| Duration.DurationTextRoundTrip | update.py:123 | the `str(timedelta(seconds=n))` text appended to the summary reads back as `n` |
| Article.FirstHeading | update.py:87 | no index exactly when there is no `h2`; otherwise the index of the earliest `h2` |
| Article.SelectParagraphs | update.py:80-89 | the selection loop yields exactly `Selected(blocks, onlyIntro)` |
| Article.ParagraphsConcat | update.py:82-85 | collecting paragraphs keeps block order: it distributes over concatenation |
| Article.ParagraphsClean | update.py:84-85 | every collected paragraph is non-empty and already stripped |
| Article.WholeArticle | update.py:82-87 | without intro mode, `h2` blocks are skipped and no sentinel is added |
| Article.NoHeadingNoSentinel | update.py:86-89 | an article without `h2` is selected whole in intro mode too |
| Article.TruncatedIgnoresTail | update.py:86-89 | in intro mode nothing after the first `h2` influences the selection |
| Article.TruncatedEndsWithSentinel | update.py:87-89 | in intro mode with an `h2`, the selection is the paragraphs before it followed by `Article truncated.` |
| Article.TruncationExample | update.py:80-91 | `p1, p2, h2, p3` in intro mode gives `p1`, `p2` and the sentinel joined by newlines |
| Store.FileName | update.py:151-152 | the name `os.listdir` reports for a file joins back to its path |
| Store.FileNameInjective | update.py:151-152 | a file is determined by its listed name |
| Store.AudioStore.Render | update.py:98-110 | a render adds exactly its path and logs one render |
| Store.AudioStore.Ensure | update.py:97-110 | on a hit nothing changes and nothing renders; on a miss exactly that path is added and rendered once |
| Store.RenderLogMisses | update.py:96-110 | the renders of a pass are exactly the paths missing from the folder, each rendered once |
| Store.RenderLogHit | update.py:98 | a pass whose paths all exist renders nothing |
| Store.RenderLogExtends | update.py:96-110 | each lookup extends the render log by the render it causes, if any |
| Store.AudioStore.Listing | update.py:151 | the listing holds exactly the names of the files in the folder |
| Store.AudioStore.Reconcile | update.py:151-155 | afterwards the folder is the old folder restricted to the referenced paths; nothing is rendered |
| Store.ReconciledExact | update.py:153-155 | no referenced file is removed and every unreferenced one is |
| Store.ReconciledIdempotent | update.py:151-155 | a second removal pass against the same list removes nothing |
| Store.ReconciledAfterRenders | update.py:147-155 | when every referenced file exists, the folder ends up holding exactly the referenced files |
| Pipeline.MkPathIsArtifact | update.py:39-45 | every derived path names a file directly in the audio folder |
| Pipeline.Paths | update.py:96-97 | one path per entry |
| Pipeline.Articles | update.py:80-91 | one article text per entry |
| Pipeline.EnrichedAll | update.py:73-123 | one enriched entry per entry |
| Pipeline.Enrich | update.py:92-93 | the entry gets the article as `text` content, the enclosure in front of its children, and the playback length after its summary |
| Pipeline.Process | update.py:75-123 | one entry: its path and article are the `i`-th of the pass, its enriched form is the `i`-th, and the folder gains the path, rendering it only on a miss |
| Pipeline.Step | update.py:73-123 | one iteration keeps the pass invariant `PassSoFar` for one more entry |
| Pipeline.PassStart | update.py:66 | before any entry the pass invariant holds with no paths used |
| Pipeline.PassEnd | update.py:73-133 | after the last entry the pass invariant gives the whole result of the pass |
| Pipeline.Update | update.py:59-133 | the title gains the suffix; the used paths are the entries' paths in entry order, one per entry; every entry is enriched; the folder gains exactly those paths; the renders are exactly the misses |
| Pipeline.TitleSuffixInjective | update.py:70 | the title suffix determines both speeds |
| Pipeline.Publish | update.py:147-155 | the reference list is the slow pass's paths followed by the fast pass's; the folder ends up holding exactly those files; each feed's title gains its pass's suffix; both feeds are enriched; the renders are the two passes' misses |
| Pipeline.PassesDisjoint | update.py:147-148 | the two passes of a run never share an artifact |
| Pipeline.EnclosureNamesArtifact | update.py:113-120 | the enclosure comes first among the entry's children, has `rel`/`type` set, `length` equal to the size lookup's answer (absent when it failed), and an `href` that is exactly `ME + "/" + mkpath(id, ...)` for this entry and pass, a path that decodes to the slug of the entry's id and the pass's parameter key |
| Pipeline.AnnotatedReadsBack | update.py:121-123 | a failed probe leaves the summary unchanged; otherwise ` (<t>)` is appended with `t` reading back as the probed seconds |
| Pipeline.PublishedLinksResolve | update.py:117 | every enclosure of a pass points into `ME + "/"` at a path the folder holds after the run |

## Left out

- Unicode NFKD normalisation (update.py:34) depends on Unicode tables. `Slug` takes the id after normalisation; on ASCII ids the two agree.
- Fetching the feed is left out. The source always fetches the `FEED` constant and ignores its `feed_url` argument. Parsing and serialising the XML and HTML are left out too. Entries arrive as values, and their content arrives as (tag, text) blocks.
- Writing the output feed files, `argparse`, `os.chdir` and every `print` are left out.
- The morse renderer and encoder (`CodeRender`, `TextSanitizer`, `oggenc`) are reduced to a render record: the path and the article text. The audio bytes are not modelled. Neither is the encoder's exit status, which the source never checks.
- The `ogginfo` process is left out: its standard output is an input. So are the file sizes `os.path.getsize` reports.
- ClockSeconds: `int(float(s))` is modelled as the integer part of the digit string. Float rounding of very long digit strings is not captured.
- Duration.ProbeError: the `IndexError` (fewer than three tokens) and `AttributeError` (no match) a `Playback` line can raise are one error value, `MalformedPlaybackLine`. So is the `ValueError` of `float('.')`. The source catches all of these together with its own `ValueError`.
- The `author` lookup (update.py:76) is left out. Its value is unused, and a missing author element would raise, which the model does not capture.
- Pipeline.Annotated: a summary element whose `.string` is `None` (an empty summary, or one with several children) raises `TypeError` in the source. The model treats every present summary as text.
- Store.AudioStore: the folder holds only regular files. A directory at an artifact path, which `isfile` rejects, is not modelled. Nor is a subdirectory in the folder, which `os.remove` would fail on.
- Pipeline.Feed: entries are values in a sequence. Aliasing between BeautifulSoup tag objects is not modelled.
- Pipeline.Publish: the two passes' parameters are fixed at 7/25 and 25/25 words per minute, 700 Hz, intro only, as in the source. The frequency is the real 700.0, where the source passes the integer 700; `int()` gives 700 either way.
