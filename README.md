# essentia-analyzer — a verified model of the analysis core

essentia-analyzer walks a music collection, and runs the Essentia music
extractor on every audio file (`m4a`, `mp3`, `ogg`, `flac`) it has not
analysed before. It stores each track's high-level scores, together with its
tags, in an SQLite `tracks` table. Albums held as one file plus a `.cue`
sheet are split into one virtual track per CUE entry. The entries come from
an external Logitech Media Server (LMS) database, and each track is keyed by
a path with the `.CUE_TRACK.` marker. Two maintenance scripts post-process
the table: `update-db.py` flags ignored files and normalises the name
columns, and `normalize.py` is a one-off normaliser.

The model is one Dafny module per concern:

| module | file | models |
|---|---|---|
| `Wrappers` | wrappers.dfy | `Option` / `Result` |
| `Seqs` | seqs.dfy | filtering a list, the first reader that succeeds |
| `PyStr` | pystr.dfy | the Python string operations the code relies on (`find`, `replace`, `split`, `join`, `lower`, `strip`, `rsplit`, `int()` of a float) |
| `SqlLike` | sqlite_like.dfy | SQLite's `LIKE` with `%` and `_`, ASCII case-insensitive |
| `UrlQuote` | url_quote.dfy | `urllib.parse.quote` with its default safe set, over UTF-8 |
| `TextNorm` | text_norm.dfy | the name normalisation chain shared by `tags.py`, `update-db.py` and `normalize.py` |
| `Cue` | cue.dfy | `lib/cue.py`: the path ↔ URL conversions, and the CUE track query against the LMS database |
| `Store` | store.dfy | `lib/tracks_db.py`: class `TracksDb` over a `map` from file key to row, with its uncommitted and committed state |
| `Tags` | tags.dfy | `lib/tags.py`: the reader cascade, over what each mutagen reader finds |
| `Analysis` | analysis.dfy | `lib/analysis.py`: the directory walk, one track's cache/extractor logic, batching of adds and commits, and the run |
| `UpdateDb` | update_db.dfy | `update-db.py`: the string normalisers, the ignore pass and the three column passes |
| `NormalizeScript` | normalize_script.dfy | `normalize.py` |
| `Config` | config.dfy | `lib/config.py`: `read_config` |

The file system, the extractor, mutagen and the LMS database are inputs:

- A directory tree is an `FsNode`, and file existence is a predicate.
- What the extractor would write is a `Doc`.
- What each mutagen reader finds is a `Probes` value.
- The LMS tables are maps and lists.

A SQLite table is a `map` keyed by its primary key, and SQL `NULL` is
`Option.None`. A tag dictionary distinguishes a missing key (`Missing`) from
`None` (`Null`).

## Model

| member | source | states |
|---|---|---|
| `PyStr.Find` | lib/cue.py:100 | `str.find`: -1 exactly when the pattern occurs nowhere; otherwise the pattern occurs at the result and at no earlier index |
| `PyStr.Replace` | lib/cue.py:102 | `str.replace`: a replacement not longer than the pattern never lengthens the string |
| `PyStr.ReplaceChars` | lib/cue.py:102 | no character appears in the result that was in neither the subject nor the replacement |
| `PyStr.ReplaceAbsent` | update-db.py:29 | replacing a pattern that does not occur leaves the string unchanged |
| `PyStr.ReplaceAtFirst` | lib/cue.py:102 | replace rewrites the leftmost occurrence, then continues after it |
| `PyStr.ReplaceFrom` | lib/cue.py:102 | scanning from any index up to the first occurrence keeps the text before it, then replaces it |
| `PyStr.ReplaceHere` | lib/cue.py:102 | where the rest of the text starts with the pattern, the replacement is emitted and the scan resumes after the pattern |
| `PyStr.ReplaceSkipAt` | lib/cue.py:102 | where the rest of the text does not start with the pattern, its first character is kept |
| `PyStr.ReplacePrefix` | lib/cue.py:111 | when the first occurrence ends a prefix, that prefix is kept and the occurrence replaced |
| `PyStr.BeforeFirstAbsent` | lib/cue.py:116-117 | the text before the first occurrence of a pattern holds no occurrence of it |
| `PyStr.FindAt` | lib/cue.py:100 | an occurrence with none before it is what `find` returns |
| `PyStr.ReplaceShrinks` | update-db.py:30-31 | replacing an occurring pattern by something shorter strictly shortens the string (so the `while '  ' in s` loop ends) |
| `PyStr.ReplaceRemovesChar` | update-db.py:29 | after replacing a character by a text without it, the character is gone |
| `PyStr.Split` | lib/cue.py:27 | `str.split(c)`: one more part than separators, no part holds the separator, and joining the parts gives back the string |
| `PyStr.CountCharZero` | lib/cue.py:28 | a character is counted zero times exactly when it does not occur |
| `PyStr.CountCharAppend` | lib/cue.py:28 | counting a character distributes over concatenation |
| `PyStr.SplitPair` | lib/cue.py:102 | two separator-free parts joined by the separator split back into those two parts |
| `PyStr.SplitJoin` | lib/tags.py:79 | splitting a join of separator-free parts gives back the parts |
| `PyStr.SplitInTwo` | lib/cue.py:28-29 | a string with exactly one separator is its two parts around it |
| `PyStr.Lower` | update-db.py:29 | `str.lower` (ASCII): same length, every character lower-cased |
| `PyStr.LowerIsLowerCase` | lib/tags.py:44 | the lower-cased text has no upper-case letter |
| `PyStr.TrimStartIsSuffix` | update-db.py:69 | the left-trimmed text is a suffix, and everything dropped is white space |
| `PyStr.TrimEndIsPrefix` | update-db.py:69 | the right-trimmed text is a prefix, and everything dropped is white space |
| `PyStr.TrimStart` | update-db.py:69 | the left-trimmed text is not longer and does not start with white space |
| `PyStr.TrimEnd` | update-db.py:69 | the right-trimmed text is not longer and does not end with white space |
| `PyStr.LowerChar` | update-db.py:29 | a lower-cased character is never an upper-case letter, and other characters are kept |
| `PyStr.Strip` | update-db.py:69 | `str.strip`: the result neither starts nor ends with white space |
| `PyStr.RFind` | lib/analysis.py:30 | the index of the last occurrence of the character, or -1 when there is none |
| `PyStr.Truncate` | lib/cue.py:61 | `int()` of a float truncates toward zero |
| `PyStr.PathJoin` | lib/tracks_db.py:91 | `os.path.join`: an absolute second part wins; otherwise the result starts with the first part, ends with the second, and adds at most one `/` |
| `Seqs.Filter` | lib/cue.py:34-35 | exactly the elements that pass the test are kept |
| `Seqs.FilterSnoc` | lib/cue.py:34-35 | one more element is appended exactly when it passes, so the kept elements stay in their original order |
| `Seqs.FirstSome` | lib/tags.py:21-37 | the first attempt that succeeds, and `None` exactly when all fail |
| `SqlLike.LikeAnything` | update-db.py:71 | under `Like`, the pattern `%` matches every key |
| `SqlLike.LikePrefix` | update-db.py:71 | `Like` is SQLite's `LIKE`: for a wildcard-free value, `key LIKE value%` holds exactly when the value is a case-insensitive prefix of the key |
| `UrlQuote.Utf8` | lib/cue.py:103 | a character's UTF-8 encoding is 1 to 4 bytes, a single byte exactly for ASCII |
| `UrlQuote.HexDigit` | lib/cue.py:103 | a hex digit is a safe character |
| `UrlQuote.Escape` | lib/cue.py:103 | each byte becomes three characters, each safe or `%` |
| `UrlQuote.QuoteChar` | lib/cue.py:103 | one character's quoting holds only safe characters and `%` |
| `UrlQuote.Quote` | lib/cue.py:103 | `quote` emits only safe characters and `%` |
| `UrlQuote.QuoteHasNoDelimiters` | lib/cue.py:25 | a quoted path holds no `#`, quote or space, so it cannot break the URL pattern or the SQL literal |
| `UrlQuote.QuoteAppend` | lib/cue.py:103 | quoting distributes over concatenation |
| `UrlQuote.QuoteSafe` | lib/cue.py:103 | a text of safe characters is quoted to itself |
| `UrlQuote.QuoteUnsafeAscii` | lib/cue.py:103 | an unsafe ASCII character becomes `%` and two upper-case hex digits |
| `TextNorm.NoDoubleSpaceContains` | update-db.py:30 | "no two adjacent spaces" is the loop's exit test `'  ' not in s` |
| `TextNorm.NotContainsChar` | update-db.py:29 | a text without a character does not contain that one-character pattern |
| `TextNorm.Clean` | lib/tags.py:44 | the chain's result is lower-case and holds none of `.`, `(`, `)`; its value is given by `CleanSpec` |
| `TextNorm.CleanFixesCleanStrings` | lib/tags.py:44 | a lower-case text without `.`, `(`, `)` and ` & ` is kept |
| `TextNorm.DropFeaturing` | lib/tags.py:51 | replacing ` feat `, ` ft `, ` featuring ` by one space, in that order: a name without any of them is kept, the result is never longer and only gains spaces; its value on a marked name is given by `DropFeaturingWord` |
| `TextNorm.DropFeaturingKeepsClean` | lib/tags.py:51 | dropping featuring markers keeps a clean name clean |
| `TextNorm.ReplaceWordKeepsSingleSpaces` | update-db.py:56 | replacing a space-delimited word by one space creates no double space |
| `TextNorm.DropFeaturingKeepsSingleSpaces` | update-db.py:56 | artist normalisation keeps the collapsed-space property |
| `TextNorm.Collapse` | update-db.py:30-31 | the collapse loop's result has no double space, is not longer, adds no character, and keeps a text that had no double space; its value is given by `CollapseSqueezes` |
| `TextNorm.DropChars` | lib/tags.py:44 | a text with some characters left out: none of them remains, and nothing else is added |
| `TextNorm.DropCharsAppend` | lib/tags.py:44 | leaving characters out distributes over concatenation |
| `TextNorm.DropCharsTwice` | lib/tags.py:44 | leaving out one set and then another leaves out their union |
| `TextNorm.DropCharsNone` | lib/tags.py:44 | a text holding none of the characters loses nothing |
| `TextNorm.ReplaceCharDrops` | lib/tags.py:44 | `replace(c, '')` for one character leaves out exactly that character |
| `TextNorm.LowerDropped` | lib/tags.py:44 | lower-casing and leaving out `.`, `(`, `)` never lengthens a text |
| `TextNorm.LowerAppend` | lib/tags.py:44 | lower-casing distributes over concatenation |
| `TextNorm.LowerDroppedAppend` | lib/tags.py:44 | so does lower-casing and leaving out the punctuation |
| `TextNorm.LowerKeepsOthers` | lib/tags.py:44 | lower-casing never produces a non-letter that was not there |
| `TextNorm.NoAmpersandNoPattern` | lib/tags.py:44 | a text without `&` does not contain ` & ` |
| `TextNorm.CleanSpec` | lib/tags.py:44 | the chain is: lower-case, leave out `.`, `(`, `)`, then replace ` & ` by ` and ` |
| `TextNorm.CleanWithoutAmpersand` | lib/tags.py:44 | without `&` the chain only lower-cases and leaves out the punctuation |
| `TextNorm.LowerDroppedKeepsAmpersand` | lib/tags.py:44 | the ` & ` between two names survives lower-casing and the punctuation step |
| `TextNorm.FindAmpersand` | lib/tags.py:44 | in a name without `&` followed by ` & `, the first ` & ` is the appended one |
| `TextNorm.CleanSpellsAnd` | lib/tags.py:44 | `x & y`, for names without `&`, becomes the cleaned `x`, ` and `, the cleaned `y` |
| `TextNorm.DelimitedOccurrence` | lib/tags.py:51 | a pattern starting and ending with a space occurs only from one space of the text to another |
| `TextNorm.SpacelessAbsent` | lib/tags.py:51 | a text without spaces holds no such pattern |
| `TextNorm.ReplaceBetweenWords` | lib/tags.py:51 | in `x`, a marker, `y` (words without spaces), replacing that marker by a space gives `x y`, and any other marker changes nothing |
| `TextNorm.ReplaceOneSpace` | lib/tags.py:51 | two words joined by one space hold no marker |
| `TextNorm.DropFeaturingWord` | lib/tags.py:51 | ` feat `, ` ft ` or ` featuring ` between two words becomes one space |
| `TextNorm.LowerDroppedFixes` | lib/tags.py:44 | lower-case text without the punctuation passes the first steps unchanged |
| `TextNorm.LowerDroppedAddsNothing` | lib/tags.py:44 | those steps add no space and no `&` |
| `TextNorm.CleanAround` | lib/tags.py:44 | around a kept separator, names without `&` are cleaned one by one |
| `TextNorm.MarkerSingleSpaced` | update-db.py:56 | two words around a featuring marker hold no double space |
| `TextNorm.CleanThenDropFeaturing` | lib/tags.py:51 | the artist chain on `x`, a featuring marker, `y` gives the cleaned `x`, one space, the cleaned `y` |
| `TextNorm.Squeeze` | update-db.py:30-31 | the reference for the loop (a space that follows a space is left out) never lengthens a text |
| `TextNorm.SqueezeSingleSpaced` | update-db.py:30-31 | a text without double spaces is its own reference value |
| `TextNorm.SqueezeReplace` | update-db.py:31 | one round of `replace('  ', ' ')` keeps the reference value and the first character |
| `TextNorm.CollapseSqueezes` | update-db.py:30-31 | the loop's result is the reference value: every space that follows a space is left out |
| `TextNorm.FindGap` | update-db.py:30 | the first double space of a single-spaced word followed by two spaces is the appended one |
| `TextNorm.JoinSingleSpaced` | update-db.py:30-31 | two single-spaced texts joined by one space, neither touching it with a space, are single-spaced |
| `TextNorm.ReplaceGap` | update-db.py:31 | one round turns the two-space gap into one space |
| `TextNorm.CollapseStep` | update-db.py:30-31 | the loop runs another round while a double space is left |
| `TextNorm.CollapseOneGap` | update-db.py:30-31 | `x` + two spaces + `y` collapses to `x y` when `x` and `y` are single-spaced and do not touch the gap |
| `Cue.ConvertToSource` | lib/cue.py:115-117 | the album path of a virtual track: the text before the first marker when the marker occurs past index 0, otherwise the path itself; the result is a marker-free prefix |
| `Cue.VirtualPath` | lib/cue.py:60 | the virtual path is the album path, the marker, the fragment and `.mp3` |
| `Cue.ConvertFromCuePath` | lib/cue.py:108-112 | a `#` past index 0 turns an LMS URL tail into a virtual path, otherwise the path is kept |
| `Cue.ConvertToCueUrl` | lib/cue.py:99-105 | a virtual path becomes a `file` URL, and any other path is kept |
| `Cue.MarkerFirstAt` | lib/cue.py:100 | in a virtual path the first marker is the one after the album path |
| `Cue.NoMarkerInside` | lib/cue.py:100 | no marker starts wholly inside a marker-free album path |
| `Cue.NoMarkerAtSuffix` | lib/cue.py:100 | no marker starts ten characters before the end of an album path not ending in `.CUE_TRACK` |
| `Cue.NoMarkerStraddling` | lib/cue.py:100 | no marker starts in the last nine characters of the album path |
| `Cue.MarkerToHash` | lib/cue.py:102 | replacing the marker by `#` in a virtual path gives album path, `#` and the rest |
| `Cue.ToCueUrlOfMarked` | lib/cue.py:99-105 | the URL of a marked path is `file://`, the quoted album path, `#` and the rest, less its last four characters |
| `Cue.ConvertToCueUrlAt` | lib/cue.py:101-104 | with a marker past index 0, the split has at least two parts and the URL is built from the first two |
| `Cue.FragmentOf` | lib/cue.py:60 | the fragment sits right after the marker in the virtual path, which is four characters longer than its parts |
| `Cue.NoMarkerWithoutUnderscore` | lib/cue.py:15 | a text without `_` holds no marker |
| `Cue.SourceOfVirtualPath` | lib/cue.py:115-117 | the album path is recovered from every virtual path built from it |
| `Cue.FromCuePathGivesVirtualPath` | lib/cue.py:108-112 | `album#start-end` converts to the virtual path of that album and fragment |
| `Cue.ToCueUrlOfVirtualPath` | lib/cue.py:99-105 | a virtual path converts back to `file://` + the quoted album path + `#` + the fragment |
| `Cue.CuePathToUrl` | lib/cue.py:99-112 | round trip: an LMS `album#frag` converted to a path and back gives the quoted `file` URL |
| `Cue.VirtualPathInjective` | lib/cue.py:60 | different start/end times give different virtual paths of the same album |
| `Cue.UrlPattern` | lib/cue.py:23-25 | the `LIKE` pattern holds no quote, so the interpolated SQL literal stays closed |
| `Cue.UrlQuery` | lib/cue.py:25 | the query returns exactly the LMS tracks whose URL matches the pattern |
| `Cue.ContributionsOf` | lib/cue.py:34 | exactly the contributor links of the track |
| `Cue.GenreLinksOf` | lib/cue.py:35 | exactly the genre links of the track |
| `Cue.AlbumName` | lib/cue.py:36-39 | the album title when the album row exists and has a title, else nothing |
| `Cue.FirstNamedSpec` | lib/cue.py:46-54 | `FirstNamed` finds the name of the first contributor in the given roles who has a name; nothing exactly when there is none |
| `Cue.FirstNamedSnoc` | lib/cue.py:46-54 | one more contribution changes the result only when nothing was found yet and it has a name in the roles |
| `Cue.Mirror` | lib/cue.py:55-58 | each artist missing on one side is copied from the other; both are absent only when both were |
| `Cue.GenreNames` | lib/cue.py:40-44 | never more names than links, and one per link when every genre row exists |
| `Cue.GenreNamesSnoc` | lib/cue.py:41-44 | one more link appends its genre's name exactly when its genre row exists |
| `Cue.GenreNamesFromLinks` | lib/cue.py:40-44 | every name collected is the name of the genre row of some link |
| `Cue.CueTrackOf` | lib/cue.py:27-61 | an accepted row yields a track under the scratch virtual path of its album and times |
| `Cue.CueTrackOfAccepts` | lib/cue.py:28-30 | a row is accepted exactly when its URL has one `#`, its fragment one `-`, some track or album artist has a name, and the album title is known |
| `Cue.CueTrackOfFields` | lib/cue.py:59-61 | the track's URL splits into album and times; title, album, genres and the truncated duration come from the row |
| `Cue.CueTrackOfArtists` | lib/cue.py:45-58 | the track's artist and album artist are the mirrored first named contributors |
| `Cue.CueTracksOf` | lib/cue.py:26-61 | at most one track per matched row |
| `Cue.CueTracksFromRows` | lib/cue.py:26-61 | every track is the track of some matched row |
| `Cue.CueTracksOfSnoc` | lib/cue.py:26-61 | one more row appends its track exactly when it yields one |
| `Cue.CueTracks` | lib/cue.py:18-64 | no LMS database gives no tracks |
| `Cue.CueTracksFiles` | lib/cue.py:23-60 | every track's file is the scratch virtual path of the album with a `start-end` fragment |
| `Cue.ResolveArtists` | lib/cue.py:45-58 | the contributor loop over the track's contributions computes the mirrored first named track artist and album artist |
| `Cue.CollectGenres` | lib/cue.py:40-44 | the genre loop over the track's genre links collects the names of the existing genre rows in link order |
| `Cue.ScanRow` | lib/cue.py:27-61 | one pass of the row loop yields exactly the row's specified track, or none |
| `Cue.GetCueTracks` | lib/cue.py:18-64 | `get_cue_tracks` returns exactly the specified tracks |
| `Cue.CueTracksAsWritten` | lib/cue.py:38 | the shipped query raises exactly when some row has one `#` and one `-`, and otherwise returns no track |
| `Cue.AsWrittenLosesEveryTrack` | lib/cue.py:38 | whenever the corrected code finds a track, the shipped code raises |
| `Store.GenreColumn` | lib/tracks_db.py:62-63 | the genre column is `NULL` exactly when the genres are absent or `None` |
| `Store.JoinCount` | lib/tracks_db.py:63 | a join of n parts holds at least n-1 separators |
| `Store.GenreColumnSplits` | lib/tracks_db.py:14 | a stored genre column splits back into the genre list |
| `Store.OptionalColumn` | lib/tracks_db.py:65-67 | an absent or `None` album artist is stored as `NULL` |
| `Store.RequiredColumn` | lib/tracks_db.py:69 | a missing required key fails with `KeyError`, and a `None` value is stored as `NULL` |
| `Store.TagColumnsAsWritten` | lib/tracks_db.py:69 | missing tags fail, and a dictionary without `title` fails with `KeyError` |
| `Store.TagColumnsOf` | lib/tracks_db.py:60-69 | the row's tag columns fail exactly when the tags are `None` or lack artist, album or duration |
| `Store.TagColumnsFrom` | lib/tracks_db.py:60-69 | the title is the given one, and the album artist and genre columns are as derived above |
| `Store.AsWrittenRejectsUntitled` | lib/tracks_db.py:69 | a complete tag dictionary without title is rejected as written, and stored with a `NULL` title by the correction |
| `Store.Inserted` | lib/tracks_db.py:60-69 | an insert succeeds exactly for valid tags and a new key (a duplicate key fails); it adds one row with `ignore` 0 and changes no other |
| `Store.Updated` | lib/tracks_db.py:72-81 | an update succeeds exactly for valid tags; it rewrites only the tag columns of the row with that key and keeps the key set |
| `Store.Survivors` | lib/tracks_db.py:84-100 | exactly the rows whose source file still exists remain, unchanged |
| `Store.SurvivorsAre` | lib/tracks_db.py:84-100 | any table with exactly those rows is the swept table |
| `Store.SweepIdempotent` | lib/tracks_db.py:84-100 | sweeping twice is sweeping once |
| `Store.SweepKeepsCueTracksWithTheirAlbum` | lib/tracks_db.py:91 | a CUE sub-track survives exactly when its album file exists |
| `Store.PlainKeyStale` | lib/tracks_db.py:91 | a key without the CUE marker is stale exactly when its own file is gone |
| `Store.StaleKeys` | lib/tracks_db.py:88-93 | the scan lists exactly the keys whose source file is gone (`IsStale`: the root joined with `convert_to_source` of the key does not exist) |
| `Store.TracksDb.Open` | lib/tracks_db.py:17-42 | a store opened on an existing table holds that table, committed |
| `Store.TracksDb.Commit` | lib/tracks_db.py:51-52 | commit makes the current table the committed one |
| `Store.TracksDb.Add` | lib/tracks_db.py:60-69 | the table becomes the inserted table, or is unchanged on failure; nothing is committed |
| `Store.TracksDb.Update` | lib/tracks_db.py:72-81 | the table becomes the updated table, or is unchanged on failure; nothing is committed |
| `Store.TracksDb.RemoveOldTracks` | lib/tracks_db.py:84-104 | the table becomes the swept table; true exactly when some row was stale |
| `Store.TracksDb.DeleteKeys` | lib/tracks_db.py:98-99 | exactly the listed keys are deleted, and other rows are kept |
| `Store.TracksDb.FileAlreadyAnalysed` | lib/tracks_db.py:107-109 | true exactly when the table has a row for the key |
| `Tags.Normalize` | lib/tags.py:40-44 | disabled or empty: unchanged; enabled: lower-case with none of `.`, `(`, `)`, and equal to the lower-cased text without `.()` with ` & ` replaced by ` and ` |
| `Tags.NormalizeArtist` | lib/tags.py:47-51 | disabled or empty: unchanged; enabled: `normalize` followed by the featuring replacements, lower-case without `.`, `(`, `)` and never longer than `normalize`; its value on a marked name is given by `NormalizeArtistDropsFeaturing` |
| `Tags.NormalizeArtistFixesNormalNames` | lib/tags.py:47-51 | an already normal artist name is kept |
| `Tags.NormalizeSpellsAnd` | lib/tags.py:44 | `x & y`, for names without `&`, normalises to the cleaned `x`, ` and `, the cleaned `y` |
| `Tags.NormalizeArtistDropsFeaturing` | lib/tags.py:47-51 | `x feat y` (or ` ft `, ` featuring `), for single words, normalises to the cleaned `x`, one space, the cleaned `y` |
| `Tags.FromListTags` | lib/tags.py:60-67 | a dictionary exactly when artist and album exist, with no title, a truncated length, the normalised names and optional genres / album artist |
| `Tags.FromFrames` | lib/tags.py:74-79 | a dictionary exactly when TPE1 and TALB exist; the artist and album are the normalised frames, the album artist the normalised TPE2 exactly when present, and the genres re-join to the TCON text |
| `Tags.GetOggOrFlac` | lib/tags.py:15-37 | the first of Vorbis, FLAC, Ogg FLAC and Opus that opens, in that order; none exactly when none opens |
| `Tags.ReadTags` | lib/tags.py:54-111 | the first of the guarded readers (`GuardedAttempts`: MP4, then MP3, then bare ID3) that finds tags wins; otherwise a truthy Ogg/FLAC file gives its tags, or raises when they lack artist or album; no tags exactly when neither; no reader sets a title |
| `Tags.Mp4First` | lib/tags.py:59-69 | a usable MP4 reading wins over every other reader |
| `Tags.NothingOpens` | lib/tags.py:110-111 | when no reader opens the file the result is `None` |
| `Tags.ReadTagsAsWritten` | lib/tags.py:69 | the shipped reader never returns tags, and raises exactly when a truthy Ogg/FLAC file opens |
| `Tags.AsWrittenNeverTags` | lib/tags.py:69 | every file the corrected reader tags is lost by the shipped one |
| `Analysis.LexTotal` | lib/analysis.py:28 | Python's string order is total: of two names one sorts no later than the other |
| `Analysis.Insert` | lib/analysis.py:28 | inserting into a sorted list keeps it sorted and adds exactly the element |
| `Analysis.SortNames` | lib/analysis.py:28 | `sorted`: ordered, and a permutation of the names |
| `Analysis.Names` | lib/analysis.py:28 | `os.listdir`: one name per entry, in entry order |
| `Analysis.IndexOf` | lib/analysis.py:29 | the entry with that name, or -1 when none has it |
| `Analysis.Extension` | lib/analysis.py:30 | an extension exists exactly when the path has a `.`; it is the lower-cased text after the last `.` |
| `Analysis.ExtensionAfterLastDot` | lib/analysis.py:30 | `x.y` with a dot-free `y` has extension `y`, lower-cased |
| `Analysis.Stem` | lib/analysis.py:31 | the path up to its last `.`, or the whole path when it has none |
| `Analysis.AudioFileByExtension` | lib/analysis.py:20-31 | `IsAudioFile(x.y)` exactly when the lower-cased `y` is `m4a`, `mp3`, `ogg` or `flac`, and its stem is `x` |
| `Analysis.ExtensionAsWritten` | lib/analysis.py:30 | the shipped test raises exactly on a dot-free path and otherwise agrees with `Extension` |
| `Analysis.AudioFileNotMarkerEnd` | lib/analysis.py:20 | a path ending in `.CUE_TRACK` is never taken for an audio file |
| `Analysis.MarkerEndExtension` | lib/analysis.py:30 | such a path has an extension, and it is none of the audio extensions |
| `Analysis.CueJobs` | lib/analysis.py:32-34 | the jobs are exactly the wanted (`Wanted`: meta-only mode, or a key without a row) sub-tracks of the album, keyed by their scratch-relative path |
| `Analysis.FileJobs` | lib/analysis.py:30-36 | every job of one file is `Wanted` (meta-only mode, or no row for its key), audio, and keyed by its root- or scratch-relative path |
| `Analysis.DiscoverValid` | lib/analysis.py:23-36 | every job of `Discover` (the walk as a function) satisfies that validity |
| `Analysis.DiscoverNamesValid` | lib/analysis.py:27-29 | the same for `DiscoverNames`, over a directory's entries |
| `Analysis.CueJobKeyNamesItsAlbum` | lib/analysis.py:33 | a sub-track's key converts back to its album's key, so the stale-row sweep keeps it with its album |
| `Analysis.JobList.constructor` | lib/analysis.py:150 | the job list starts empty |
| `Analysis.GetFilesToAnalyse` | lib/analysis.py:23-36 | a missing path appends nothing; otherwise exactly the discovered jobs are appended, in sorted-walk order |
| `Analysis.Walk` | lib/analysis.py:23-36 | the recursive walk appends exactly the discovered jobs of a node |
| `Analysis.WalkDir` | lib/analysis.py:27-29 | a directory appends the jobs of its entries in sorted name order |
| `Analysis.WalkNames` | lib/analysis.py:28-29 | the loop over the names appends the jobs of each named entry in turn |
| `Analysis.DiscoverNamesStep` | lib/analysis.py:28-29 | one more entry appends exactly its jobs |
| `Analysis.WalkFile` | lib/analysis.py:30-36 | one file appends exactly its jobs |
| `Analysis.WalkCueTracks` | lib/analysis.py:32-34 | the CUE loop appends exactly the wanted sub-tracks |
| `Analysis.ReadJsonFile` | lib/analysis.py:39-60 | invalid JSON or a non-numeric score gives `None`; a missing score key raises, as does a tag reading that raises; a result exactly for JSON with all scores and a tag reading that does not raise; the result carries the key, the tags and the scores |
| `Analysis.ExtractAndRead` | lib/analysis.py:95-115 | the extractor runs exactly when there is no results file; with no file before or after it the result is `None`; otherwise the result is `read_json_file` of the file (an escaping exception kept); the file is compressed (with a cache) or deleted (without) exactly when it was read without an escaping exception |
| `Analysis.AnalyzeTrack` | lib/analysis.py:63-115 | a stop file gives `None` with no side effect; the extractor runs only when no plain cache (or scratch) file exists; when it runs and writes nothing the result is `None`, and otherwise the result is `read_json_file` of its output; the compressed cache is read only when the plain one is absent; a result carries the key |
| `Analysis.PlainCacheWins` | lib/analysis.py:71-77 | a usable plain cache file is the result: no extractor, no compressed read |
| `Analysis.UnreadablePlainCacheIsNotReanalysed` | lib/analysis.py:71-77 | an unparsable plain cache file is read again, not re-analysed, and yields `None` |
| `Analysis.Step` | lib/analysis.py:128-138 | a falsy result changes nothing; a truthy one whose add fails only bumps the counter (no row, no commit); a successful add stores the inserted table; a commit resets the counter and commits the whole table |
| `Analysis.Run` | lib/analysis.py:126-138 | the commit count never decreases and no existing row is changed |
| `Analysis.AllInsertableInit` | lib/analysis.py:126-135 | when every result can be added, so can every prefix, and the last one adds a fresh key |
| `Analysis.ReadKeysInit` | lib/analysis.py:126-131 | the keys added by a prefix plus the last result's key are the keys added by the whole list |
| `Analysis.CounterStep` | lib/analysis.py:130-135 | the counter modulo 750, and the number of commits after one more add |
| `Analysis.RunWhenAllInsertable` | lib/analysis.py:126-135 | when every result can be added: the table gains exactly their keys, the counter is their number modulo 750, and one commit happens per 750 |
| `Analysis.StorableKeysInit` | lib/analysis.py:126-131 | the storable keys of the results grow by the last result's key when it is storable |
| `Analysis.RunKeys` | lib/analysis.py:126-138 | for any results, the table gains exactly the keys of the truthy results with storable tags; failing adds are skipped |
| `Analysis.RunNewRows` | lib/analysis.py:126-138 | each key a run adds holds the row (`ignore` 0, its tags and scores) of the first storable result under that key |
| `Analysis.RunRowsOnly` | lib/analysis.py:126-135 | the rows a batch run stores depend only on its starting rows and the results |
| `Analysis.AnalyzeTracks` | lib/analysis.py:118-138 | the loop leaves the table, commit count and committed table of the specified batch run |
| `Analysis.Swept` | lib/analysis.py:146 | the sweep, when it runs, keeps exactly the rows that are not stale, unchanged; when nothing is stale it keeps the table |
| `Analysis.AnalyseFiles` | lib/analysis.py:141-161 | the walk sees the swept table; meta-only mode changes no row; otherwise the table is the swept table with the jobs' results added in submission order; a final commit happens exactly when a job was found or a stale row removed |
| `UpdateDb.NormalizedStr` | update-db.py:26-32 | empty is kept; otherwise the chain's value with every space that follows a space left out; lower-case, no `.`, `(`, `)` and no double space |
| `UpdateDb.NormalizedStrFixesNormalStrings` | update-db.py:26-32 | an already normal text is kept |
| `UpdateDb.NormalizedStrGap` | update-db.py:26-32 | two words separated by two spaces normalise to the cleaned words separated by one |
| `UpdateDb.NormalizeStr` | update-db.py:26-32 | the loop collapsing double spaces computes the normal form |
| `UpdateDb.DeleteAll` | update-db.py:38-50 | deleting every occurrence of a text never lengthens the title |
| `UpdateDb.RemoveEditions` | update-db.py:38-50 | removing edition suffixes never lengthens the title |
| `UpdateDb.NormalizedAlbum` | update-db.py:35-50 | empty is kept; otherwise the listed edition suffixes (`EditionSuffixes`) are removed in order, then `normalize_str` applies; lower-case, no `.`, `(`, `)`, no double space; its value on plain and suffixed names is given by `NormalizedAlbumUnbracketed` and `NormalizedAlbumDropsEdition` |
| `UpdateDb.NormalizedArtist` | update-db.py:53-56 | empty is kept; otherwise `normalize_str` followed by the featuring replacements; lower-case, no `.`, `(`, `)`, no double space; its value on a marked name is given by `NormalizedArtistDropsFeaturing` |
| `UpdateDb.NormalizeAlbum` | update-db.py:35-50 | `normalize_album` computes the album normal form |
| `UpdateDb.NormalizeArtist` | update-db.py:53-56 | `normalize_artist` computes the artist normal form |
| `UpdateDb.NormalizedArtistFixesNormalNames` | update-db.py:53-56 | an artist name already in normal form is kept |
| `UpdateDb.NormalizedArtistDropsFeaturing` | update-db.py:53-56 | `x feat y` (or ` ft `, ` featuring `), for single words, normalises to the cleaned `x`, one space, the cleaned `y` |
| `UpdateDb.BracketedSuffixes` | update-db.py:38-50 | every edition suffix of `EditionSuffixes` is ` (…)` and non-empty |
| `UpdateDb.BracketedSuffixesA` | update-db.py:38-41 | the first four edition suffixes are ` (…)` (the literal check is split in three only to keep each proof small) |
| `UpdateDb.BracketedSuffixesB` | update-db.py:42-45 | the next four are ` (…)` |
| `UpdateDb.BracketedSuffixesC` | update-db.py:46-50 | the last five are ` (…)` |
| `UpdateDb.OnlyOccurrence` | update-db.py:38-50 | in a bracket-free title plus one suffix, a bracketed text occurs only as that suffix at the end |
| `UpdateDb.OccurrenceAtEnd` | update-db.py:38-50 | the same, stated for one given occurrence |
| `UpdateDb.RemoveEditionsUnbracketed` | update-db.py:38-50 | a title without `(` is not touched by the suffix removal |
| `UpdateDb.RemoveEditionsSuffix` | update-db.py:38-50 | a bracket-free title followed by one listed suffix loses exactly that suffix |
| `UpdateDb.DeleteSuffix` | update-db.py:38 | deleting the suffix a title ends with gives the bare title |
| `UpdateDb.DeleteOtherSuffix` | update-db.py:38 | deleting a different suffix changes nothing |
| `UpdateDb.NormalizedAlbumDropsEdition` | update-db.py:35-50 | an album and its edition-suffixed variant normalise to the same text |
| `UpdateDb.NormalizedAlbumUnbracketed` | update-db.py:35-50 | an album name without `(` normalises as `normalize_str` does |
| `UpdateDb.IgnoreFlags` | update-db.py:67-71 | the ignore pass keeps the key set |
| `UpdateDb.IgnoreFlagsAre` | update-db.py:67-71 | after the pass (`Unflagged`, then `Flagged` once per line) a row's `ignore` is 1 exactly when some stripped line followed by `%` matches its key, and every other column is kept |
| `UpdateDb.IgnoreLiteralLines` | update-db.py:69-71 | with wildcard-free lines, a row is ignored exactly when some line is a case-insensitive prefix of its key |
| `UpdateDb.BlankLineIgnoresEverything` | update-db.py:69-71 | a blank line in the file flags every row |
| `UpdateDb.IgnoreFlagsStep` | update-db.py:68-71 | one more line applies one more flagging statement |
| `UpdateDb.IgnorePass` | update-db.py:59-74 | a missing file changes nothing; otherwise the table becomes the flagged table, committed |
| `UpdateDb.Set` | update-db.py:86 | writing one name column changes that column and no other |
| `UpdateDb.SetSet` | update-db.py:86 | writing a column twice is writing the second value |
| `UpdateDb.UpdateWhereRow` | update-db.py:86 | `UpdateWhere`, the `UPDATE … WHERE col = v` statement, sets a row's column exactly when it held `v` (never when `v` is `NULL`), keeping the key |
| `UpdateDb.PassValue` | update-db.py:83-86 | one distinct value's step keeps the key set |
| `UpdateDb.PassValueComputed` | update-db.py:84-86 | a non-`NULL` value is updated only when its normal form differs from it |
| `UpdateDb.ColumnPass` | update-db.py:82-86 | the column pass keeps the key set |
| `UpdateDb.ColumnPassKeepsOthers` | update-db.py:82-86 | the pass changes only its own column |
| `UpdateDb.ColumnPassValues` | update-db.py:82-86 | with settled normal forms, each row holds the normal form of its value when that value was listed, else its old value |
| `UpdateDb.ColumnPassNormalises` | update-db.py:80-86 | when every value is listed, every row's column is normalised (`NULL` stays `NULL`) |
| `UpdateDb.AsWrittenState` | update-db.py:82-86 | one column of the shipped loop, from a given `updated`, keeps the key set while it runs |
| `UpdateDb.NormalizeAsWritten` | update-db.py:77-86 | the shipped `normalize`, `updated` carried from column to column, keeps the key set when it does not fail |
| `UpdateDb.AsWrittenFailsOnLeadingNull` | update-db.py:78-85 | a `NULL` first distinct artist makes the shipped script fail (`updated` unbound) |
| `UpdateDb.AsWrittenErrStays` | update-db.py:83-85 | from an unbound `updated`, a `NULL` first value fails and the loop stays failed |
| `UpdateDb.AsWrittenAgreesOtherwise` | update-db.py:77-86 | otherwise the shipped script equals the three corrected passes; a `NULL` first album artist or album compares against a bound `updated` and changes nothing |
| `UpdateDb.AsWrittenTracksPass` | update-db.py:82-86 | with `updated` bound or a non-`NULL` first value, the shipped loop tracks the corrected pass |
| `UpdateDb.AsWrittenFirst` | update-db.py:83-86 | the first non-`NULL` value starts that tracking |
| `UpdateDb.AsWrittenStep` | update-db.py:83-86 | each further value keeps it |
| `UpdateDb.AsWrittenValue` | update-db.py:83-86 | one step of the shipped loop keeps the key set when it does not fail |
| `UpdateDb.AsWrittenValueMatches` | update-db.py:83-86 | once `updated` is bound (or the value is not `NULL`), the shipped step succeeds, agrees with the corrected step, and leaves `updated` bound |
| `UpdateDb.UpdateWhereNull` | update-db.py:86 | `where col = NULL` matches no row |
| `UpdateDb.DistinctValues` | update-db.py:80-81 | `SELECT DISTINCT`: exactly the column's values, each once |
| `UpdateDb.NormalizeValue` | update-db.py:84 | album values use the album form, the artist columns the artist form |
| `UpdateDb.ColumnPassStep` | update-db.py:82-86 | one more distinct value applies one more update |
| `UpdateDb.NormalizeOne` | update-db.py:83-86 | one pass of the loop applies that value's step to the table, uncommitted |
| `UpdateDb.NormalizeColumn` | update-db.py:82-86 | the loop leaves the table of the column pass, uncommitted |
| `UpdateDb.Normalize` | update-db.py:77-87 | only the three name columns change; with settled normal forms every name is normalised; the result is committed |
| `UpdateDb.ThreePasses` | update-db.py:78-86 | the three passes in turn normalise artist, album artist and album of every row |
| `UpdateDb.PassNormalises` | update-db.py:80-86 | one pass over the distinct values normalises its column in every row |
| `NormalizeScript.Normalize` | normalize.py:6-9 | `NULL` and empty become `NULL`; otherwise lower-case without `.`, `(`, `)`, and equal to the lower-cased text without `.()` with ` & ` replaced by ` and ` |
| `NormalizeScript.NormalizeArtist` | normalize.py:12-15 | the same emptiness rule; otherwise `normalize` followed by the featuring replacements, never longer than `normalize`; its value on a marked name is given by `NormalizeArtistDropsFeaturing` |
| `NormalizeScript.NormalizeFixesNormalNames` | normalize.py:6-9 | a normal name is kept |
| `NormalizeScript.NormalizeArtistFixesNormalNames` | normalize.py:12-15 | a normal artist name is kept |
| `NormalizeScript.NormalizeArtistDropsFeaturing` | normalize.py:12-15 | `x feat y` (or ` ft `, ` featuring `), for single words, normalises to the cleaned `x`, one space, the cleaned `y` |
| `NormalizeScript.AgreesWithMaintenanceScript` | normalize.py:6-15 | where no double space arises, both scripts give the same normal forms |
| `NormalizeScript.NormalizedRow` | normalize.py:24 | artist and album artist become `normalize_artist` of their old values and album `normalize` of its old value; the other columns are kept; a name is `NULL` exactly when it was empty or `NULL` |
| `NormalizeScript.NormalizedTable` | normalize.py:21-26 | every key is kept and each row is replaced by its normalised row: only the three name columns change, and an empty or `NULL` name becomes `NULL` |
| `NormalizeScript.NormalizeRow` | normalize.py:23-24 | one row is replaced by its normalised version, computed from the values read before the loop; nothing is committed |
| `NormalizeScript.NormalizeAll` | normalize.py:21-26 | the update loop leaves the normalised table, committed |
| `NormalizeScript.TableOfRows` | normalize.py:23-24 | a table holding every row's normalised version under its key is the normalised table |
| `Config.Slashed` | lib/config.py:43-45 | `SlashValue` applied to every entry: exempt entries are kept; every other string ends with `/`, extends its original, and one already ending in `/` is kept |
| `Config.SlashedIdempotent` | lib/config.py:43-45 | the slash step is idempotent |
| `Config.CheckPath` | lib/config.py:35-41 | a required path passes exactly when present, a string, and existing |
| `Config.CheckOptional` | lib/config.py:47-50 | an optional path passes exactly when absent or existing |
| `Config.SlashedOptional` | lib/config.py:43-48 | after the slash step, `tmp` and `json_cache` are strings when present |
| `Config.ReadConfigSpec` | lib/config.py:14-55 | an unreadable file, a missing `extractor` or `essentia` fail with those errors; a success is the completed configuration |
| `Config.ReadConfigAccepts` | lib/config.py:14-55 | the file is accepted exactly when every check passes |
| `Config.CompletedEntries` | lib/config.py:43-53 | `Completed`: the keys gain `threads` (default 8) and lose none; exempt entries are kept, every other a slash-terminated extension of its original |
| `Config.SlashPaths` | lib/config.py:43-45 | the loop over the keys gives every path entry its slash, and fails when a path entry is not a string |
| `Config.ReadConfig` | lib/config.py:14-55 | the loop over the keys computes the specified configuration or error |

## Left out

- **Subprocesses.** Running the extractor, `gzip` and `ffmpeg` (`split_cue_track`, `split_cue_tracks`) is not modelled. Their observable effects are inputs: `extractorOutput`, plus the `compressed` and `removed` flags of `TrackRun`.
- **Thread pools.** `analyze_tracks` takes results in submission order, which is how the source reads them. Each job's outcome is a function parameter, and concurrency is not modelled.
- **JSON and floats.** Parsing is abstracted to `Doc` (not JSON, JSON with all scores, a non-numeric score, a missing key). The scores are opaque `Features`, and stream lengths are `real`.
- **Mutagen.** The audio readers are abstracted to `Probes`, which holds what each reader finds.
- **SQLite.** The engine is modelled as maps keyed by `file`. Query row order is not specified: `DISTINCT` values, `SELECT file` and the LMS query results are any order the caller supplies.
- **Logging, `close`, `get_cursor`.**
- **The `TracksDb` constructor.** Schema creation (`CREATE TABLE`, the `ALTER TABLE` for `title`) is not modelled; `Open` starts from an existing table.
- **`TracksDb.RemoveOldTracks`:** the `except` path (a failing query) is left out.
- **`makedirs` and `tempfile`.** Making the cache directory and the temporary scratch directory is left out, and the scratch directory is a parameter.
- **`lower()` beyond ASCII.** `Lower` maps only `A`–`Z`; Python lower-cases all of Unicode.
- **`UpdateDb.IgnorePass`:** the ignore file is an `Option` of its lines (`None` when missing, where the source exits). Exceptions while reading or decoding the file are not modelled.
- **`UpdateDb.Normalize`:** the final state is stated under `AllStable`, where each value's normal form is its own normal form. For unsettled values, chained updates depend on the `DISTINCT` order, and the model only states which columns may change.
- **`UpdateDb.ColumnPassValues`:** stated only for settled values, for the same reason.
- **`TextNorm.DropFeaturing`:** its value is stated for marker-free names and for two words around one marker, not for every name, because the chained replacements can leave a marker behind (`a feat feat b` becomes `a feat b`).
- **`Config.ReadConfigSpec`:** `os.path.exists` on a non-string `essentia` or `lms` value (an integer is probed as a file descriptor) is reported as `NotAString`, and which key was not a string is not recorded. A configuration that is JSON but not an object is not modelled.
- **`Cue.CueTracks`:** `secs` is taken as a number (a `NULL` `secs` makes `int()` raise in the source).
- **`Analysis.AnalyseFiles`:** opening the LMS database and the temporary directory happen outside the model; the walk receives them in `WalkEnv`.
- **Command-line front ends.** `essentia-analyzer.py`, `mkrel.py` and the argument parsing of `update-db.py` and `normalize.py` are not part of this model.

## Findings

| source | as written | input that shows it | evidently intended | confidence | as-written member | corrected member |
|---|---|---|---|---|---|---|
| lib/tags.py:69 | every reader returns `normalize_tags(tags)`, a name defined nowhere | any file with artist and album tags: the MP4/MP3/ID3 `NameError` is swallowed, and an Ogg/FLAC one escapes | return the tag dictionary | not executed | `Tags.AsWrittenNeverTags` | `Tags.ReadTags` |
| lib/cue.py:38 | `if albums is not None`, where only `album` is bound | an LMS row with URL `…/a.flac#0-100` | test `album` | not executed | `Cue.AsWrittenLosesEveryTrack` | `Cue.CueTracks` |
| update-db.py:83-85 | `updated` is assigned only for non-`NULL` values but compared for every value | the first `DISTINCT` artist is `NULL` | skip `NULL` values | not executed | `UpdateDb.AsWrittenFailsOnLeadingNull` | `UpdateDb.ColumnPass` |
| lib/analysis.py:30 | `path.rsplit('.', 1)[1]` on every file | a file whose whole path has no `.`, directories included (`/music/README`), aborts the walk with `IndexError` | treat a dot-free file as not audio | not executed | `Analysis.ExtensionAsWritten` | `Analysis.Extension` |
| lib/tracks_db.py:69 | `track['tags']['title']` is read, but no tag reader sets `title` | any tagged track reaching `add` or `update` | store a `NULL` title | not executed | `Store.AsWrittenRejectsUntitled` | `Store.TagColumnsOf` |
