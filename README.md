# IPTV channel aggregation and guide cleanup, modelled in Dafny

This project models the core of the `iptv` repository. It covers two programs.

- **`iptv.py`** builds a playlist from many public IPTV sources.
  - It reads a list of wanted channels grouped into categories.
  - It scans each fetched source document, either M3U or `name,url` text.
  - It canonicalises every channel name it finds and looks the name up once in an alias map.
  - It cleans the address by cutting it at `$` and dropping a default port.
  - It merges each address into the wanted channel's list of records.
  - Each record holds a uri, an observation count and an IPv6 flag.
  - It sorts each list by count and enumerates the first `limit` records of a channel.
- **`epg.py`** rewrites a program guide.
  - It reads a channel-name map, renames the guide's channels, and removes the channels the aggregator does not list, together with their programmes.
  - It reports the listed channels the guide lacks.
  - It rewrites the root's generator and source attributes.

Modules, in dependency order:

| module (file) | models |
|---|---|
| `Wrappers` (wrappers.dfy) | `Option` |
| `Text` (text.dfy) | the `str` methods the code uses: `strip`, `find`, `rfind`, `split`, `splitlines`, `join`, `replace`, `lower` |
| `Config` (config.dfy) | `conv_bool`, `conv_list`, `conv_dict`, `clean_inline_comment` |
| `OrderedSets` (ordered_set.dfy) | class `OrderedSet` and its key-order functions |
| `Catalog` (catalog.dfy) | the line logic of `load_channels`, as a fold |
| `Urls` (urls.dfy) | `is_ipv6`, `is_port_necessary`, the `urlparse`/`geturl` round trip, base-10 `int()` |
| `Names` (names.dfy) | `clean_channel_name` |
| `Registry` (registry.dfy) | address records, the `count += count + 1` merge, the stable descending sort, name and uri cleaning |
| `Sources` (sources.dfy) | format detection and the M3U and TXT scan loops of `fetch_sources` |
| `Merge` (merge.dfy) | `add_channel_uri` and `add_channel_for_debug` on the two tables, and the fold of all fetched documents |
| `Aggregator` (iptv.dfy) | class `Iptv`: the `IPTV` object's fields and the methods that update them |
| `Guide` (epg.dfy) | the name map, renaming, `cleanup` and `normalize_extras` of `EPG`; class `Epg` |

The model takes as parameters what the code gets from outside:
- the lines of the channel list and of the name-map file;
- the fetched source documents, with `None` for a fetch that failed;
- the `channel_map` option;
- the `DEBUG` switch;
- `limit`;
- the traditional-to-simplified conversion (`simplify`);
- the formatted current time;
- the guide as a list of children plus the root's attributes;
- the key order of the aggregator's `channels`, which `cleanup` consults.

Python exceptions are modelled as error results (`None` or `ok == false`); the operation then stops, as the Python does. They are:
- a URL line before any channel name (UnboundLocalError);
- a `conv_dict` line without a space (IndexError);
- a uri `urlparse` rejects (ValueError);
- an empty netloc (IndexError);
- a missing name or url in `_normalize` (TypeError).

Behaviour of the code that the model keeps:
- Repeated observations give counts 1, 3, 7, … (2^k − 1), because the merge does `count += count + 1`.
- The only sort key is the count.
- The alias map is consulted once, after canonicalisation only.
- `http://[::1]:80/a` loses its port: `is_port_necessary` looks only at the last character of the netloc (`Urls.BracketedHostPortStripped`).
- A uri that does not parse raises out of `fetch_sources`, and the run stops.
- Canonicalisation is not idempotent: `CCTV--` becomes `CCTV-`, which becomes `CCTV` (`Names.CanonicalNotIdempotent`).

## Model

| member | source | states |
|---|---|---|
| Text.Strip | iptv.py:155 | `strip()`: the result has no white space at either end and is no longer than the input |
| Text.StripIdempotent | iptv.py:76-77 | stripping twice is stripping once |
| Text.StripSlice | iptv.py:155 | the stripped text is the slice of the input that starts after its leading white space |
| Text.Find | iptv.py:192 | `find`: the first position where the pattern occurs, or None exactly when it occurs nowhere |
| Text.LastIndexOf | iptv.py:221 | the last position of a character, with no occurrence after it; None exactly when it does not occur |
| Text.SplitLines | iptv.py:76 | `splitlines`: no line of the result holds a line boundary; `Text.SplitLinesJoin` rebuilds the text from them |
| Text.SplitLinesJoin | iptv.py:76 | when `\n` is the only line boundary, the lines joined with `\n` give the text back, less one final `\n` |
| Text.Lower | iptv.py:73 | ASCII `lower`, character by character, same length |
| Config.ConvBool | iptv.py:72-73 | true exactly for "1" and any casing of "true", "yes", "on" |
| Config.ConvList | iptv.py:75-77 | every item is non-empty, stripped and free of line breaks, and there is one per non-blank line of the stripped value; `Config.ConvListLines` places each line |
| Config.NonEmptyStripped | iptv.py:77 | the items are stripped and non-empty, one per line that is not blank once stripped |
| Config.NonEmptyStrippedAt | iptv.py:77 | the non-blank line k, stripped, is the item whose index is the number of non-blank lines before k |
| Config.NonEmptyStrippedFrom | iptv.py:77 | every item is some non-blank line, stripped, at the index given by the non-blank lines before it |
| Config.ConvListLines | iptv.py:75-77 | `conv_list` holds, in order, exactly the stripped non-blank lines of the stripped value |
| Config.ConvListRoundTrip | iptv.py:75-77 | joining the list with newlines and reading it back with `conv_list` gives the same list |
| Config.SplitJoinedLines | iptv.py:76 | `splitlines` of list items joined by `\n` gives back the items |
| Config.DictOfFails | iptv.py:79-84 | `conv_dict` raises exactly when some line has no space |
| Config.DictOfKeys | iptv.py:79-84 | a key is present exactly when some line's first field, stripped, is that key |
| Config.DictOfLastWins | iptv.py:81-83 | the last line naming a key gives its value: a later line overrides an earlier one |
| Config.ConvDict | iptv.py:79-84 | `conv_dict` raises exactly when some item has no space; otherwise keys and values carry no surrounding white space |
| Config.CutComment | iptv.py:87-92 | `re.split(' +#')[0]`: a prefix of the line, cut exactly at the first run of spaces followed by `#` |
| Config.NoInlineComment | iptv.py:86-93 | what is left of a line has no space followed directly by `#` |
| Config.CleanLines | iptv.py:93 | one cut line per line of the stripped input, in order |
| Config.CleanInlineCommentLines | iptv.py:86-93 | the result joins one line per input line; each is a prefix of its input line and holds no ` #` |
| Config.CleanInlineComment | iptv.py:86-93 | no blank directly followed by `#` is left anywhere in the result |
| OrderedSets.Dedup | iptv.py:39 | `dict.fromkeys`: no repeats, and the same elements as the input |
| OrderedSets.DedupKeepsFirstOccurrences | iptv.py:38-39 | construction keeps first occurrences: elements come out in the order of their first occurrence |
| OrderedSets.AddLastNoDup | iptv.py:41-42 | adding keeps the keys distinct and adds exactly the new element |
| OrderedSets.WithoutMembers | iptv.py:47-48 | after `discard(x)` the members are the old ones except `x` |
| OrderedSets.WithoutRemovesExactly | iptv.py:47-48 | `discard` removes exactly the occurrence of `x` and keeps the others in order |
| OrderedSets.WithoutAbsent | iptv.py:47-48 | discarding an absent element changes nothing |
| OrderedSets.WithoutNoDup | iptv.py:47-48 | discarding keeps the keys distinct |
| OrderedSets.OrderedSet.constructor | iptv.py:38-39 | the new set's order is the input's first occurrences |
| OrderedSets.OrderedSet.Add | iptv.py:41-42 | a present element leaves the order unchanged; an absent one goes last |
| OrderedSets.OrderedSet.Clear | iptv.py:44-45 | the set becomes empty |
| OrderedSets.OrderedSet.Discard | iptv.py:47-48 | the new order drops `x` only; the length falls by one exactly when `x` was present |
| OrderedSets.OrderedSet.At | iptv.py:50-54 | `s[i]` is the element at iteration position `i`; None (IndexError) outside `0 <= i < len` |
| Catalog.ClassifyCatalog | iptv.py:155-159 | a channel line is stripped and not empty |
| Catalog.LoadStep | iptv.py:155-164 | one loop turn keeps every category set and keeps the open category among them |
| Catalog.LoadAll | iptv.py:154-164 | the loop over all lines keeps the current category's set present |
| Catalog.LoadAllClosed | iptv.py:158-164 | every name placed in a category is a key of `channels`; category names, channel keys and every set stay free of repeats |
| Catalog.IgnoredLines | iptv.py:156-157 | blank lines, `#` lines, and channel lines while no category is open change nothing |
| Catalog.CategoryOrder | iptv.py:158-160 | categories are listed in the order of their first `CATE:` line |
| Catalog.CategoryKeys | iptv.py:158-160 | the categories are exactly the names of the `CATE:` lines |
| Catalog.SetsAreEntries | iptv.py:158-164 | a category's set holds every line read under any of its `CATE:` lines, deduplicated in first-appearance order: a repeated `CATE:` reuses the set |
| Catalog.LoadAllCurrent | iptv.py:159 | the open category is the one named by the last `CATE:` line |
| Urls.IsIpv6 | iptv.py:95-97 | true exactly when the netloc starts with `[`, one or more hex digits or colons, and `]` |
| Urls.UrlIsIpv6 | iptv.py:95-97 | `is_ipv6` raises exactly where `urlparse` does; true only for a netloc that opens with a bracketed hex-and-colon run |
| Urls.NetlocEnd | iptv.py:296 | the netloc runs up to the first `/`, `?` or `#` |
| Urls.UrlParse | iptv.py:296 | a parsed netloc holds no `/`, `?` or `#` and has both square brackets or neither; with a netloc, scheme, `:`, `//`, netloc and the rest account for the whole uri; a uri without scheme or `//` is all path |
| Urls.ParseIntDecimal | iptv.py:226 | `int()` reads back the decimal spelling of every natural number |
| Urls.IsPortNecessary | iptv.py:217-233 | true only under `http` or `https`, for a netloc with a `:` that does not end in `]` |
| Urls.PortNecessaryExactly | iptv.py:217-233 | true exactly when the netloc does not end in `]`, holds a `:`, the text after the last `:` is an integer, and the pair is (http, 80) or (https, 443) |
| Urls.PortNecessaryForDecimal | iptv.py:217-233 | for `host:N`, true exactly when N is the scheme's default port |
| Urls.NoPortWithoutColon | iptv.py:218-223 | a netloc ending in `]`, or one without `:`, is never port-stripped |
| Urls.BracketedHostPortStripped | iptv.py:218-221 | `[::1]:80` under http counts as carrying a default port and loses it |
| Urls.StripDecimalPort | iptv.py:299 | cutting at the last `:` of `host:N` gives back the host |
| Urls.UrlParseWeb | iptv.py:296 | `urlparse` splits an http or https URL into scheme, netloc and the rest |
| Urls.DefaultPortDropped | iptv.py:296-301 | `scheme://host:80/a` (443 for https) and `scheme://host/a` both become `scheme://host/a` |
| Urls.NormalizedWithPort | iptv.py:296-301 | a URL carrying its scheme's default port is rebuilt without it |
| Urls.NormalizedUrlNoDollar | iptv.py:296-301 | normalising a uri without `$` gives a uri without `$` |
| Urls.NormalizedUrl | iptv.py:296-301 | None exactly where `urlparse` raises or the netloc is empty (IndexError in `is_port_necessary`); the result is never longer than the uri |
| Names.KanaOrHangulNotConverted | iptv.py:237-239 | a name with kana or Hangul skips the conversion |
| Names.CleanChannelName | iptv.py:235-260 | the result is no longer than the name for kana or Hangul names, and no longer than the converted name for the others |
| Names.Canonical | iptv.py:241-260 | the prefix rules only remove characters: the result is never longer than the name |
| Names.CctvCanonical | iptv.py:241-249 | a CCTV name stays a CCTV name with no blank; a `[0-9+K]` run after `CCTV` ends it |
| Names.CctvNumberCut | iptv.py:247-249 | the `CCTV[0-9+K]+` match is the longest such run |
| Names.CetvCanonical | iptv.py:250-254 | a CETV name stays a CETV name; digits after `CETV` end it, with the first `-` dropped |
| Names.NewTVCanonical | iptv.py:256-259 | a NewTV name stays a NewTV name and holds no blank |
| Names.CHCCanonical | iptv.py:256-259 | a CHC name stays a CHC name and holds no blank |
| Names.OtherCanonical | iptv.py:255-260 | a name with none of the four prefixes is returned as the conversion left it |
| Names.DropFirstDash | iptv.py:242 | `replace('-', '', 1)` removes exactly the first `-` |
| Names.CctvSpacedDigits | iptv.py:243-245 | `CCTV<digits> <rest>` is cut to `CCTV<digits>` by the `CCTV[0-9]+ ` match |
| Names.CctvNumberWhole | iptv.py:247-249 | a name that is `CCTV` followed only by `[0-9+K]` characters is its own match |
| Names.CctvDashDigits | iptv.py:241-249 | `CCTV-<digits> <rest>` comes out as `CCTV<digits>` |
| Names.CctvOneHd | iptv.py:237-249 | `CCTV-1 HD` is cleaned to `CCTV1` when the conversion leaves it unchanged |
| Names.CanonicalNotIdempotent | iptv.py:241-249 | `CCTV--` is cleaned to `CCTV-`, and that again to `CCTV` |
| Registry.Bump | iptv.py:268 | `count += count + 1`: count + 1 doubles; the uri and flag are kept |
| Registry.UriIndex | iptv.py:303-304 | the first record with the uri, or the length when there is none |
| Registry.Observe | iptv.py:303-307 | fails exactly for an unknown uri that `is_ipv6` cannot parse; otherwise the list then holds the uri and grows by one exactly when the uri was new |
| Registry.FindUri | iptv.py:303-306 | the search loop finds the first record with the uri, or the length |
| Registry.ObserveKnown | iptv.py:303-306 | a known uri has exactly its record bumped |
| Registry.ObserveUnknown | iptv.py:307 | an unknown uri is appended last with count 1 and its IPv6 flag; this fails exactly when it does not parse |
| Registry.ObserveUnique | iptv.py:303-307 | a merge keeps the uris distinct and adds exactly the merged uri |
| Registry.ObserveTimesCount | iptv.py:266-270 | after k merges of a new uri its record is last, with count 2^k − 1 and its IPv6 flag (for both tables) |
| Registry.CutAtDollar | iptv.py:274 | the uri up to its first `$`: a prefix with no `$`, and the whole uri when it has none |
| Registry.ResolveName | iptv.py:280-288 | the resolved name is the cleaned name or one of the alias map's values |
| Registry.SingleAliasLookup | iptv.py:284-287 | with `{a: b, b: c}` and `a` the cleaned name, the result is `b`, not `c`: an alias is not followed further |
| Registry.ResolveNameLocal | iptv.py:284-287 | two alias maps that agree on the cleaned name's entry resolve it alike |
| Registry.Insert | iptv.py:314 | inserting adds exactly that record (as a multiset) |
| Registry.SortByCount | iptv.py:314 | the sort is a permutation of the list |
| Registry.SortByCountSorted | iptv.py:314 | counts never increase along the sorted list |
| Registry.SortByCountStable | iptv.py:314 | for every count, the records with that count keep their relative order |
| Sources.IsM3u | iptv.py:180 | a document is M3U exactly when one of its first 15 lines contains `#EXTINF` |
| Sources.ExtinfFields | iptv.py:192-195 | a match needs `group-title="` in the line, and both fields come out stripped |
| Sources.ExtinfFieldsOf | iptv.py:192-195 | the first `group-title="` opens the category, which runs to the first `",`; the rest, stripped, is the name |
| Sources.CloseQuoteAt | iptv.py:192 | the lazy `(.*?)",` stops at the first `",` |
| Sources.ClassifyM3u | iptv.py:188-197 | an address line is stripped, not empty, and does not start with `#` |
| Sources.ClassifyTxt | iptv.py:201-208 | a pair's name holds no comma |
| Sources.M3uRun | iptv.py:187-198 | the scan only appends calls, and a failed scan does nothing more |
| Sources.TxtRun | iptv.py:200-209 | the scan only appends calls and never fails |
| Sources.ScanM3u | iptv.py:187-198 | the M3U loop computes the M3U scan of its lines |
| Sources.ScanTxt | iptv.py:200-209 | the TXT loop computes the TXT scan of its lines |
| Sources.ScanSource | iptv.py:180-209 | detection, then the matching loop |
| Sources.ScanDocument | iptv.py:180-209 | a document's scan only adds calls after the earlier ones, and only an M3U scan can fail |
| Sources.M3uCallsPerAddress | iptv.py:196-198 | a scan that does not fail makes one call per address line |
| Sources.M3uUris | iptv.py:196-198 | each call's uri is a stripped address line not starting with `#` |
| Sources.M3uFails | iptv.py:191-198 | the scan fails exactly when no name is bound on entry and an address line comes before every naming `#EXTINF` |
| Sources.M3uNameBound | iptv.py:191-198 | once a line names a channel, the name stays bound |
| Sources.M3uNameStays | iptv.py:191-198 | without a naming `#EXTINF` the bound name carries over unchanged |
| Sources.M3uLatestName | iptv.py:191-195 | the bound name is the one from the last `#EXTINF` that matched |
| Sources.M3uPairsWithLatestName | iptv.py:191-198 | an address line is paired with the name of the most recent matching `#EXTINF` |
| Sources.TxtLatestCategory | iptv.py:202-203 | the current category is the one set by the last `#genre#` line |
| Sources.TxtPairNeedsCategory | iptv.py:202-209 | a `name,url` line makes its call exactly when the last `#genre#` line gave a non-empty category |
| Sources.TxtNamesHaveNoComma | iptv.py:205-207 | TXT names are the text before the first comma |
| Sources.TxtNameIsLastCall | iptv.py:207 | after a TXT scan that made calls, the bound name is the last call's |
| Sources.TxtNeedsGenre | iptv.py:202-204 | without a `#genre#` line a TXT document makes no calls |
| Merge.ObserveGood | iptv.py:303-307 | merging a `$`-free uri keeps a list good: distinct uris, no `$`, counts at least 1 |
| Merge.InsertUnique | iptv.py:314 | inserting a record with a new uri keeps the uris distinct |
| Merge.SortGood | iptv.py:312-314 | sorting keeps a list good |
| Merge.SortAllGood | iptv.py:312-314 | sorting every list keeps the table good |
| Merge.ExtendsGood | iptv.py:164 | adding empty lists keeps the table good |
| Merge.DebugAddKeeps | iptv.py:262-270 | the debug table stays good and gains exactly the name's key |
| Merge.DebugAdd | iptv.py:262-270 | the name gets a key and no other list changes; on success the name's list holds the uri; on failure it is the list it had, empty for a new name |
| Merge.MergeIntoKeeps | iptv.py:289-307 | a merge keeps the wanted channels, changes only the resolved channel's list, and keeps it good |
| Merge.MergeInto | iptv.py:289-307 | an unwanted name changes nothing; otherwise, on success, the keys are kept, only the name's list changes, and it holds the normalised uri |
| Merge.AddChannelUnknownName | iptv.py:290-291 | a name that does not resolve to a wanted channel leaves `channels` unchanged |
| Merge.AddChannelKeeps | iptv.py:273-307 | a call keeps the set of wanted channels, changes only the resolved name's list, and keeps both tables good; the debug table changes only in debug mode |
| Merge.AddChannel | iptv.py:273-307 | the wanted keys never change; outside debug mode `raw_channels` is untouched, and a name that resolves to no wanted channel changes nothing |
| Merge.AddResolvedObserves | iptv.py:296-307 | outside debug mode, a wanted channel's new list is the merge of the normalised uri |
| Merge.AddTimesObserves | iptv.py:303-307 | k identical calls merge the normalised uri k times |
| Merge.DebugTimesObserves | iptv.py:262-270 | k identical debug calls merge the uri k times into the name's `raw_channels` list |
| Merge.DebugRepeatedUriCount | iptv.py:262-270 | in debug mode, a uri sent k times that the name's list did not hold is listed once, last, with count 2^k − 1 |
| Merge.RepeatedUriCount | iptv.py:303-307 | a wanted channel receiving the same new uri k times lists it once, last, with count 2^k − 1 |
| Merge.ApplyCallsKeeps | iptv.py:198 | the calls of a document keep the wanted channels and both tables good |
| Merge.ApplyCallsStops | iptv.py:198 | once a call raises, the later calls are not run |
| Merge.FetchAllKeeps | iptv.py:170-209 | fetching never adds or removes a wanted channel, and every list stays good |
| Merge.FetchAllStops | iptv.py:170-209 | once a document stops the run, later documents are not read |
| Aggregator.Iptv.ValidLoaded | iptv.py:151-164 | a valid object holds a catalog whose keys are listed once and whose sets name wanted channels only |
| Aggregator.Iptv.constructor | iptv.py:101-108 | all tables start empty |
| Aggregator.Iptv.OpenCategory | iptv.py:158-160 | `setdefault(current, OrderedSet())` performs the `CATE:` step of the fold and keeps existing sets |
| Aggregator.Iptv.NewCategory | iptv.py:160 | a fresh empty set is added under a new category; nothing else changes |
| Aggregator.Iptv.AddEntry | iptv.py:162-164 | a channel line performs the entry step of the fold, and a new `channels` key gets an empty list |
| Aggregator.Iptv.AddToCategory | iptv.py:163 | only the current category's set changes, by `add` |
| Aggregator.Iptv.LoadLine | iptv.py:155-164 | one line performs one step of the fold and yields the new `current` |
| Aggregator.Iptv.LoadLines | iptv.py:154-164 | the loop performs the fold over all lines |
| Aggregator.Iptv.LoadChannels | iptv.py:151-164 | the object holds the fold of the lines, stays valid, keeps old address lists, and gives new channels an empty list |
| Aggregator.Iptv.CatesFrom | iptv.py:158-164 | holding a closed catalog with its keys listed once makes the categories consistent |
| Aggregator.Iptv.AddChannelForDebug | iptv.py:262-270 | `raw_channels` and the success flag are the debug merge |
| Aggregator.Iptv.MergeUri | iptv.py:289-307 | the wanted-channel half of `add_channel_uri`; nothing changes when it raises |
| Aggregator.Iptv.AddChannelUri | iptv.py:273-307 | both tables and the flag are those of `add_channel_uri` |
| Aggregator.Iptv.ApplyNext | iptv.py:198 | one more call extends the document fold |
| Aggregator.Iptv.ApplyScan | iptv.py:187-209 | a document's calls are applied in order, stopping at the first that raises |
| Aggregator.Iptv.FetchOne | iptv.py:180-209 | one fetched document is scanned and its calls applied |
| Aggregator.Iptv.FetchNext | iptv.py:170-179 | one more source extends the fetch fold; a failed fetch is skipped |
| Aggregator.Iptv.FetchSources | iptv.py:166-215 | the tables are the fold over all fetched documents, and stay good |
| Aggregator.Iptv.SortChannels | iptv.py:312-314 | every list is replaced by its stable descending sort by count; the keys and validity are kept |
| Aggregator.Iptv.SortLists | iptv.py:313-314 | the loop sorts the list of every key |
| Aggregator.Iptv.EnumChannelUri | iptv.py:322-330 | nothing for an unknown name; otherwise the first `limit` records (all when `limit <= 0`), numbered 1, 2, … in list order |
| Guide.LineDicts | epg.py:41-46 | each line's entries, line by line |
| Guide.LineDict | epg.py:42-46 | a line's entries, when it has any, carry no surrounding white space in keys or values |
| Guide.ReadMapLine | epg.py:42-46 | one line's entries: none for blank or `#` lines, otherwise `conv_dict` of the line with its comment cut |
| Guide.LoadChannelNameMap | epg.py:38-47 | the loop computes the name map; None where a line raises |
| Guide.NameMap | epg.py:38-47 | the map read from the file has keys and values without surrounding white space |
| Guide.NameMapFails | epg.py:45-46 | reading fails exactly when some line fails |
| Guide.NameMapKeys | epg.py:46 | a key of the map is exactly a key of some line |
| Guide.NameMapLastWins | epg.py:46 | a later line for the same key overrides an earlier one |
| Guide.SkippedLine | epg.py:43-44 | blank and `#` lines add nothing |
| Guide.MergedFails | epg.py:46 | the merge of line maps fails exactly when one line fails |
| Guide.MergedKeys | epg.py:46 | the merged keys are exactly the lines' keys |
| Guide.MergedLastWins | epg.py:46 | the last line giving a key decides its value |
| Guide.RenameAll | epg.py:52-56 | every child is renamed, with the same length and order |
| Guide.Rename | epg.py:54-56 | a child keeps its kind; a child that changes is a channel whose name was a key, and its new name is one of the map's values |
| Guide.RenameOnce | epg.py:54-56 | a channel gets the mapped name exactly when its name is a key, with one lookup only; kinds, ids and everything else are unchanged |
| Guide.RenameNoText | epg.py:54 | a channel without display-name text is not renamed |
| Guide.RenameIdempotent | epg.py:54-56 | when no mapped name is a key, renaming twice is renaming once |
| Guide.KeptChannelsMembers | epg.py:62-69 | a child survives the first loop exactly when it is not an unlisted channel |
| Guide.KeptChannelsOrder | epg.py:62-69 | the retained children keep their relative order |
| Guide.RemovedIdsMembers | epg.py:65-66 | the removed ids are exactly the ids of unlisted channels |
| Guide.ReservedMembers | epg.py:68-69 | the reserved names are exactly the listed names some channel carries |
| Guide.DropProgrammesMembers | epg.py:71-73 | a programme survives exactly when its channel is not a removed id |
| Guide.MissingMembers | epg.py:75 | a listed name is reported exactly when it is not reserved |
| Guide.CleanedChannels | epg.py:62-69 | after `cleanup` a channel remains exactly when it was there and is listed |
| Guide.CleanedProgrammes | epg.py:71-73 | a programme is removed exactly when its `channel` is the id of a removed channel; one pointing at an undeclared id survives |
| Guide.Cleaned | epg.py:58-73 | every child left was a child before, and every channel left is listed by the aggregator |
| Guide.MissingReport | epg.py:75 | the report holds the listed names no guide channel carries, in key order |
| Guide.DropRemoved | epg.py:71-73 | the programme loop computes the programme filter |
| Guide.ReportMissing | epg.py:75 | the comprehension computes the report |
| Guide.ExistingValueFirst | epg.py:79-84 | `_existing_value` gives the value of the first truthy key, and None exactly when no key is truthy |
| Guide.ExistingValue | epg.py:79-84 | a found value is a non-empty value of one of the root's attributes |
| Guide.Swap | epg.py:86-90 | a successful result always has a name |
| Guide.SwapPresent | epg.py:86-90 | two values are swapped exactly when one holds `epg.51zmt.top`, and swapping is an involution |
| Guide.SwapMissing | epg.py:88 | `_normalize` raises exactly when the url is missing, or the name is missing and the url has no marker |
| Guide.ExtrasFromInfo | epg.py:92-104 | with a name and a url, the root gets exactly the five attributes, the url falling back to `EPG_SOURCE` |
| Guide.ExtrasNoUrl | epg.py:94-96 | a guide with no url attribute makes `normalize_extras` raise |
| Guide.Extras | epg.py:92-104 | on success the root has exactly the five attributes, with `date` the given time; it fails only when the name or the url attribute is missing |
| Guide.Epg.constructor | epg.py:17-22 | the guide as parsed, with the configured source |
| Guide.Epg.ConvertChannelName | epg.py:49-56 | the children are renamed through the map; nothing changes where reading the map raises |
| Guide.Epg.Cleanup | epg.py:58-76 | the children become the cleaned guide, and the result is the missing-channel report |
| Guide.Epg.NormalizeExtras | epg.py:78-104 | the root attributes are replaced by the five written ones; nothing changes where `_normalize` raises |
| Guide.Epg.Normalize | epg.py:106-109 | renaming, then `cleanup`, then `normalize_extras`; the later steps are not run after one raises |

## Left out

- Network fetches: `requests.get` in `fetch_sources` and `fetch_epg`. The fetched documents are inputs; a failed fetch is `None`. `fetch_epg` calls `self.iptv.fetch`, which iptv.py does not define.
- Files, directories and `ConfigParser` (`get_config`, `_get_path`, `get_dist`, `get_tmp`, the `open` calls of `load_channels` and `load_channel_name_map`). Their contents and the config values are parameters.
- Every `export_*` method, `dumpb`, `dumps`, `run`, `json.dump`, gzip, and ElementTree parsing and serialisation: output formatting and I/O.
- Logging, and `stat_fetched_channels`, which only logs.
- `OrderedSet.__contains__`, `__len__` and `__iter__` are the `Has`/`Len` functions and the `elems` sequence; `__str__` and `__repr__` only format.
- `zhconv.convert` is the function parameter `simplify`, so nothing is claimed about what conversion does, including its `「」` exception table.
- Idempotence of `clean_channel_name` is not claimed: the prefix rules alone are not idempotent (`Names.CanonicalNotIdempotent`), and the conversion is arbitrary here.
- `Text.SplitLinesJoin`: the rebuilding is stated for text whose only line boundary is `\n`. The other boundaries `splitlines` accepts (`\r`, `\r\n`, `\x0b`, `\x0c`, `\x1c`-`\x1e`, `\x85`, U+2028, U+2029) are each split on, but they are not given back by a `\n` join.
- `Names.Converted`: the kana/Hangul test is the code point ranges of the regex; Unicode normalisation is not modelled.
- `Text.IsSpace`, `Text.Lower`, `Urls.ParseInt`: white space, lower-casing and `int()` cover ASCII and the usual Unicode spaces only. Non-ASCII digits and letters are not modelled.
- `Urls.UrlParse`: covers the scheme, the netloc up to `/`, `?` or `#`, and the ValueError for a netloc with only one kind of square bracket. It leaves out `urlsplit`'s other checks: the NFKC check of the netloc, the stripping of control characters, and the check of bracketed hosts (Python 3.11.4 and later). That last check raises ValueError for text before `[`, for text between `]` and the `:` of a port, and for a bracketed host that is neither an IPv6 address nor an IPvFuture literal. The model accepts all of these. For example, it reads `http://[g]:80/x` as netloc `[g]:80`, so `add_channel_uri` stores `http://[g]/x` where Python would raise and stop `fetch_sources`.
- `Urls.NormalizedUrl`: `geturl()` is rebuilt as scheme, `://`, the netloc without its port, and the rest of the uri as written. `urlparse`/`urlunparse` would also drop an empty `;` parameter part and empty `?` and `#` parts. For example, Python gives `http://h/a` for `http://h:80/a;`, where the model gives `http://h/a;`. Uris without a default port are stored as written in both.
- `Registry.CutAtDollar`: the `.` of `\$.*$` does not match a newline. Uris never hold one, because the documents are split on `\n` and stripped, so the cut is taken at the first `$`.
- `Aggregator.Iptv.EnumChannelUri`: `limit` is an `int` parameter. The `limit=None` default read from the config (10), and a non-integer limit, are left out.
- `Merge.RepeatedUriCount`: stated outside debug mode; `Merge.DebugRepeatedUriCount` states the same count for `raw_channels`.
- `Aggregator.Iptv.AddChannelUri`, `ApplyScan`, `FetchOne`: their contracts equate the new tables with the `Merge` functions. That the tables stay good is proved about those functions (`Merge.AddChannelKeeps`, `Merge.FetchAllKeeps`) and carried by `FetchSources`.
- `Aggregator.Iptv.FetchSources`: the Python scans and merges line by line. The model scans a document into its calls, then applies them in order. This is the same sequence of table updates, because the scan does not read the tables.
- `Guide.Epg.Cleanup`: builds the kept children in order and assigns them, rather than calling `root.remove` while iterating over `findall`, which copies the list first.
- `Guide.Node`: a channel without a `display-name` element raises in the code (`None.text`); the model reads it as a channel whose text is None.
- `Guide.ExistingValue`: the `isinstance(try_keys, list)` branch is left out; both callers pass lists.
- `Guide.Epg.NormalizeExtras`: the formatted UTC time is the parameter `now`. `EPG_SOURCE`'s environment override is the constructor's `source` parameter, with `Guide.DefaultSource` as its default text.
- `DEBUG`, `IPTV_*` and `EPG_*` environment lookups are constructor parameters or left out.
