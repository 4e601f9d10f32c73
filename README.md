# IPTV category maintenance scripts, modelled in Dafny

The repository keeps a directory of category files. Each file is a JSON list of TV
channels with their logo and stream URLs. Four scripts maintain these files:

- `update_channels.py` rebuilds each category file from the iptv-org catalog. A
  country category keeps the channels of one country; a genre category keeps the
  channels carrying one of its keywords. Only online streams of known channels are
  taken. A channel appears once, with its stream URLs de-duplicated in first-seen
  order. It keeps its previous logo while that logo answers HEAD with 200; otherwise
  it gets the catalog's logo if that answers, and "" if neither does. Each file is
  sorted by channel name.
- `update_links.py` reads the iptv-org M3U playlists into one name -> URLs
  dictionary. It then probes every channel's stream URLs with ffprobe. A channel with
  a broken URL keeps only its working URLs, plus at most one replacement: the first
  playlist URL under the channel's exact name that is new and passes the probe.
- `update_genres.py` asks a chat-completion service for the genre of every channel
  whose genre is missing, empty or "Unknown". Of the known genre labels, taken in
  their fixed list order, it keeps the first one that occurs in the answer, and
  stores it upper-cased.
- `update_events.py` turns the cards of a cricket schedule page into events. Each
  event has team logos, an ISO start time and the channel ids that the text
  "title tournament" maps to through a keyword table.

The model is split into one module per script and four shared modules:

- `Text` models the string operations the scripts use: `lower`, `upper`, `strip`,
  `split`, `join`, `replace` and `in`.
- `Seqs` models first-seen de-duplication and dictionaries built from a list, where
  the last key wins.
- `Sorting` models Python's stable `sort(key=...)` on strings.
- `Wrappers` holds `Option`.

Everything the scripts receive from outside is a function parameter:
- the HTTP HEAD status;
- the downloaded text;
- the ffprobe exit code and output;
- the chat-completion reply;
- `strptime`/`strftime`.

Files read from disk are values of the model's datatypes. Loops that update a
dictionary or a list in place are methods whose loop invariants tie them to a
function over the prefix processed so far. The per-file channel lists that
`update_links.py` and `update_genres.py` rewrite in place are arrays.

## Model

| member | source | states |
|---|---|---|
| Channels.IsUrlWorking | update_channels.py:33-45 | A URL shorter than five characters never counts as working. A longer one counts exactly when the HEAD request answers 200. |
| Channels.PriorMapLastWins | update_channels.py:47-60 | The previous contents of a file are looked up by id. A missing file gives an empty table. An id is present exactly when some channel of the file carries it, and its entry is the last such channel. |
| Channels.MatchRule | update_channels.py:94-105 | The filter flag is set exactly when the channel's country equals the country rule's code, or when some keyword of the genre rule is among the channel's categories. |
| Channels.ChosenLogo | update_channels.py:112-132 | The logo is "" or a working URL. A working previous logo always wins. Any other non-empty result is the catalog logo. The result is "" exactly when neither the previous nor the catalog logo works. |
| Channels.SelectLogo | update_channels.py:112-132 | The step-by-step logo selection yields the logo of the fallback chain. |
| Channels.ContributingIdsMembers | update_channels.py:84-107 | An id is taken exactly when some stream names it, the id is in the catalog, the stream is online, and the channel matches the rule. |
| Channels.StreamUrlsOfMembers | update_channels.py:147-150 | A URL is collected for an id exactly when some taken stream of that id carries that non-empty URL. |
| Channels.StepSkipped | update_channels.py:88-107 | A stream that is not taken leaves the table and its insertion order in agreement with the longer prefix of streams. |
| Channels.StepTaken | update_channels.py:107-150 | Taking a stream creates the channel's record on first sight, or appends the URL when it is new. The table then agrees with the longer prefix. |
| Channels.TakeStream | update_channels.py:107-150 | The table update for one taken stream keeps the invariant: one record per taken id, in first-seen order, each built from its de-duplicated URLs. |
| Channels.ValuesAreRecords | update_channels.py:153 | When the table agrees with all streams, its values in insertion order are the records in first-seen id order. |
| Channels.BuildCategory | update_channels.py:81-154 | The channel list written for a rule is the sorted record list. |
| Channels.BuildFiles | update_channels.py:75-154 | The files are produced in configuration order, each from the previous contents of that same file. |
| Channels.UpdateFiles | update_channels.py:65-75 | Nothing is written when the catalog download fails. Otherwise every configured category file is written. |
| Channels.CategoryFilesPerRule | update_channels.py:75-79 | There is one output per configured file. The k-th output is that file's name with the category list built from that file's previous contents. |
| Channels.CategoryFileSorted | update_channels.py:153-154 | The written list is sorted by name and is a permutation of the records in first-seen order. Channels with equal names keep their first-seen order. |
| Channels.CategoryFileIdsUnique | update_channels.py:109-153 | No channel id occurs twice in a written file. |
| Channels.CategoryFileChannels | update_channels.py:81-107 | A channel id is in the file exactly when some online stream of a catalog channel that matches the rule names it. |
| Channels.CategoryFileRecords | update_channels.py:112-150 | Every written record has the catalog name, or "Unknown" when the name is absent, and the fallback-chain logo. Its category is the rule's. A genre field appears exactly for genre rules and equals the category name. Its URLs are exactly its channel's taken URLs, de-duplicated. |
| Channels.StreamUrlsShape | update_channels.py:147-150 | A record's URL list has no duplicates and no empty URL. It holds exactly the URLs of the taken streams of that channel, in order of first appearance. |
| Channels.CategoryFileIdempotent | update_channels.py:75-154 | Rebuilding a category file whose previous contents are the file just written gives the same file, for the same streams, catalog and HEAD answers. |
| Links.CleanNameIs | update_links.py:30-31 | The cleaned name is the header's text after its last comma, cut before the first "(" that follows, and stripped. |
| Links.CleanNameShape | update_links.py:30-31 | A cleaned channel name contains no comma and no "(". It has no surrounding whitespace, and it is the stripped text between the header's last comma and the next "(". |
| Links.SlotsFollowRange | update_links.py:27-33 | Every even line index i before the last line pairs line i with line i+1, and no other pairs are formed. |
| Links.GroupedIsByName | update_links.py:34-38 | A name is in the playlist dictionary exactly when some accepted entry carries it. Its list is that name's URLs in file order, duplicates kept. |
| Links.ParseLines | update_links.py:26-39 | The parsing loop yields the dictionary grouped from the accepted header/URL pairs. |
| Links.OddHeadersAreSkipped | update_links.py:27-28 | When no even-numbered line starts with "#EXTINF:", the parse as written yields the empty dictionary. |
| Links.ExtM3uPlaylistIsLost | update_links.py:27-28 | The playlist "#EXTM3U", "#EXTINF:-1,A", "http://a" yields no channel under the parse as written. |
| Links.IntendedPlaylistFindsEveryEntry | update_links.py:27-38 | The corrected parse keeps every "#EXTINF:" line followed by a URL line, at odd and even line numbers alike: its name maps to a list that holds the URL. |
| Links.ExtM3uPlaylistIntended | update_links.py:27-38 | The corrected parse maps the same playlist to channel "A" with the single URL "http://a". |
| Links.ParseSource | update_links.py:24-39 | A downloaded playlist is split into lines and parsed into that dictionary. |
| Links.FetchUrl | update_links.py:19-41 | A failed download gives the empty dictionary. A successful one gives the parsed playlist. |
| Links.MergedIsConcat | update_links.py:43-49 | The merged dictionary holds a name exactly when some source does. Its list concatenates the sources' lists in source order, duplicates kept. |
| Links.MergeOne | update_links.py:46-49 | Merging one result extends every name's list by that result's list. |
| Links.IsLinkWorkingMeans | update_links.py:55-66 | A link works exactly when ffprobe exits with status 0 and "video" occurs in its output. A timeout or a missing ffprobe means it does not work. |
| Links.MergeSources | update_links.py:45-49 | The merge loop over all results yields the merged dictionary. |
| Links.FetchEach | update_links.py:43-44 | There is one download result per source file, in the order of the file list. |
| Links.FetchAllSourceLinks | update_links.py:14-52 | The collected links are the merge of the six playlists in the order of the configured files. |
| Links.WorkingMembers | update_links.py:82-84 | A URL survives exactly when it was in the list and passes the probe. |
| Links.WorkingIsSublist | update_links.py:82-84 | The surviving URLs are the passing ones, at strictly increasing positions of the original list. No passing URL is dropped. |
| Links.NothingBroken | update_links.py:85-87 | The broken count is zero exactly when every URL passes, and then the working list is the original list. |
| Links.WorkingKeepsNoDups | update_links.py:84 | Filtering a duplicate-free URL list leaves it duplicate-free. |
| Links.ReplacementIsFirstFit | update_links.py:93-101 | There is no replacement exactly when no candidate is both new and passing. Otherwise it is the first such candidate in list order. |
| Links.FindReplacement | update_links.py:94-101 | The search loop with its early break returns the first fitting candidate. |
| Links.WorkingUrls | update_links.py:82-84 | The probing loop keeps the passing URLs in order. |
| Links.RepairedShape | update_links.py:76-101 | A channel with no broken URL is left unchanged. Otherwise its URLs become the working ones, followed by the first fitting replacement under its exact name when one exists. The name and other keys never change, and every URL left passes the probe. |
| Links.RepairedKeepsNoDups | update_links.py:89-101 | The repair never introduces a duplicate URL. |
| Links.RepairIdempotent | update_links.py:76-101 | A repaired channel has no broken URL left, so repairing it again changes nothing. |
| Links.RepairChannel | update_links.py:76-101 | One channel's turn yields the repaired channel. It reports a change exactly when the channel had a broken URL. |
| Links.ProcessLinksFile | update_links.py:71-103 | Every channel of the file is replaced by its repaired form. The file counts as updated exactly when some channel had a broken URL. |
| Genres.FirstMatch | update_genres.py:46-48 | The index found is that of the first label whose lower-case form occurs in the text. No earlier label occurs. |
| Genres.LabelFor | update_genres.py:46-49 | The chosen label is always one of the valid genres. |
| Genres.LabelForFirstMatch | update_genres.py:46-49 | The chosen label is the first valid genre, in list order, contained case-insensitively in the answer. It is "Unknown" when none is. |
| Genres.GenreFromAi | update_genres.py:17-55 | The classifier always returns one of the valid genres. |
| Genres.GenreFromAiFailures | update_genres.py:17-55 | The result is not "Unknown" exactly when all of the following hold: a non-empty key is set; the service answers 200 with content; the stripped content contains a genre other than "Unknown". In that case the result is the label found in the answer. |
| Genres.ClassifiedShape | update_genres.py:79-94 | A channel whose genre is set and is not "Unknown" is left alone. A changed channel gets exactly the upper-cased recognised label for its name. Name and other keys never change. |
| Genres.UpperLabelIsSettled | update_genres.py:83-90 | An upper-cased non-empty label is never asked about again. |
| Genres.ClassifiedIdempotent | update_genres.py:81-94 | After one pass a channel no longer triggers an update, and a second pass leaves it as it is. |
| Genres.ClassifyChannel | update_genres.py:81-94 | One channel's turn yields the classified channel. It reports a change exactly when the genre was needed and a label was found. |
| Genres.ClassifyChannels | update_genres.py:76-97 | Every channel is replaced by its classified form. The file counts as updated exactly when some channel received a genre. |
| Genres.ProcessGenreFile | update_genres.py:57-113 | A document that is neither a list nor an object with "channels" is never rewritten. Otherwise the file is rewritten exactly when some channel received a genre. A list is written back as a list, and an object as `{"channels": ...}` with the classified channels. |
| Genres.SecondRunWritesNothing | update_genres.py:79-94 | After one pass over a file, no channel triggers an update, and a second pass returns the same channels. |
| Events.FirstKeyInIsFirst | update_events.py:49-51 | The index found is that of the first table key that occurs in the text. No earlier key occurs. |
| Events.LogoForTeamFirstMatch | update_events.py:47-52 | The logo is "" exactly when no team key occurs in the lower-cased name. Otherwise it is the logo of the first key, in table order, that occurs. |
| Events.ListOfSet | update_events.py:86 | Listing a set gives each element exactly once. |
| Events.MapEventToChannels | update_events.py:75-86 | The returned ids have no duplicates. An id is returned exactly when some rule keyword occurs in the lower-cased text, the rule lists the id, and the id is a known channel. |
| Events.MappedIgnoresCase | update_events.py:78-84 | Only known channels are mapped. The mapping does not depend on the letter case of the text. |
| Events.LoadFile | update_events.py:67-70 | Reading one file's channels updates the dictionary as if its (id, lower-cased name) pairs were appended to all pairs read before. |
| Events.LoadAllChannels | update_events.py:54-73 | The dictionary is built from the pairs of every scanned, readable file in directory order, and the last pair for an id wins. |
| Events.LoadedChannels | update_events.py:61-70 | An id is known exactly when some scanned file has a record with that non-empty id. Its name is the one from the last such pair read. |
| Events.TeamsOfPieces | update_events.py:106-109 | The teams come from the title's text before its first comma. When there are teams, they are its first two pieces, stripped: the first piece ends at the leftmost " vs ", and the second ends at the next " vs " that does not overlap it, or at the end. |
| Events.TeamsOfShape | update_events.py:106-109 | A card has teams exactly when " vs " occurs before the first comma of the title. Both names come stripped, and they are the first two pieces of that text between non-overlapping occurrences of " vs ", found from the left. |
| Events.VsPiecesUnique | update_events.py:106-109 | The text before the first comma determines its first two pieces: no other split fits. |
| Events.OverlappingVsSplit | update_events.py:106-109 | With overlapping separators, "a vs vs b" splits into "a" and "vs b", as Python's `split` does, and never into "a vs" and "b". |
| Events.QuotedDateIsLeftmostMatch | update_events.py:120-123 | The date is the text inside the leftmost pair of single quotes that has no newline between them. There is no date exactly when no such pair exists. |
| Events.CardEventFields | update_events.py:111-139 | An accepted card without a series line gets the tournament "International Match". Each team logo is "" or a logo from the team table. |
| Events.ScrapeCard | update_events.py:100-140 | A card gives no event when it is rejected. Otherwise it gives its event with the mapped channel ids: no duplicates, and exactly the channels mapped from "title tournament". |
| Events.ScrapeSchedule | update_events.py:97-146 | The events are the accepted cards in page order. Each event carries exactly the channels mapped from its title and tournament, without duplicates. |
| Seqs.DedupKeepsFirstSeenOrder | update_channels.py:147-150 | De-duplication keeps elements in the order of their first occurrence. |
| Seqs.IndexByLastWins | update_channels.py:70 | A dictionary built from a list has a key exactly when some element carries it. Its value comes from the last element with that key. |
| Sorting.SortByIsSorted | update_channels.py:154 | Sorting by name yields ascending names. |
| Sorting.SortByIsPermutation | update_channels.py:154 | Sorting keeps every record with its multiplicity. |
| Sorting.SortByIsStable | update_channels.py:154 | Records with equal names keep their relative order. |

## Left out

- HTTP requests, the ffprobe subprocess, the chat-completion call and the clock are not modelled. Each is a function parameter (`head`, `fetch`, `ffprobe`, `post`, `parseTime`) that gives the same answer for the same input.
- Timeouts, exceptions and the `try`/`except` fallbacks appear only as an absent answer from these parameters.
- HTML parsing is not modelled (update_events.py:93-117). A schedule card is the model's input: the optional texts of its title, series, time and `ng-if` attribute.
- `strptime`/`strftime` (update_events.py:125-127) are the `parseTime` parameter. A time that does not parse rejects the card, as the exception does.
- Directory listing, file existence checks, reading and writing JSON, and write errors are not modelled. Files arrive as values, and the written content is the result.
- Events.LoadAllChannels: a file is used whole or skipped whole. A record with a null name makes `lower()` raise part-way, and the records stored before it remain; the model does not capture that case.
- Links.ProcessLinksFile: takes the channel array of a file that has already been read. The `data.get('channels', [])` lookup, the write-back and the error path that returns False are not modelled.
- The thread pools in update_links.py are a sequential map. Results come back in input order either way.
- `time.sleep`, every `print`, the prompt text and request headers are not modelled.
- The `__main__` blocks are not modelled: directory scans, exit codes and "any file changed" summaries.
- `lower`/`upper` change only ASCII letters. Python also folds non-ASCII letters.
- JSON values of an unexpected type are not modelled. Examples are a numeric id, a non-list `streamUrls`, and a null where a string is expected.
- A null catalog `name` is treated like a missing one and becomes "Unknown". Python keeps `None`, and sorting would then fail.
- Events.ListOfSet: states membership and uniqueness but not an order, because the order of `list(set)` is not fixed.
- Events.MapEventToChannels: same limitation as ListOfSet, since it returns a listed set.
- `DEFAULT_LOGO` (update_channels.py:28) is never used by the code, so it is not modelled.

## Findings

| source | as written | input that shows it | evidently intended | confidence | as-written member | corrected member |
|---|---|---|---|---|---|---|
| update_links.py:27 | `range(0, len(lines) - 1, 2)` looks for header lines at even line numbers only. | The playlist "#EXTM3U\n#EXTINF:-1,A\nhttp://a" yields no channel. A playlist of two-line entries after an "#EXTM3U" line puts every header on an odd line, so nothing from it is parsed. | Pair every "#EXTINF:" line, wherever it sits, with the line after it. | not executed; medium | Links.ExtM3uPlaylistIsLost | Links.IntendedPlaylistFindsEveryEntry |

The download pipeline (`Links.ParseLines`, `Links.FetchUrl`) keeps the parse as written, since that is what the script does. `Links.IntendedPlaylist` is the corrected parse.
