# AssetCache core, modelled in Dafny

AssetCache indexes Unity scene files (`.unity`, a YAML dialect). It records
how often each local anchor (`fileID`) and each asset `guid` is referenced,
and which component anchors each game object lists under `m_Component`.
This project models the three finished pieces of sequential logic and proves
what they compute:

- `primitives.dfy` (`Primitives`): 64-bit unsigned anchors, `Option`, and
  lookups where a missing key reads as zero or as the empty list. It also
  holds the decimal parsing that `ulong.Parse` performs on anchors.
- `cache_index.dfy` (`AssetIndex`): the counting index `CacheIndex`. It is a
  class with three map fields, and its methods are proved against the pure
  functions `Merged` and `Subtracted` on the value view `Index`.
- `global_cache_index.dfy` (`GlobalIndex`): `GlobalCacheIndex`, the combined
  index of several files plus the path → index table. It keeps the
  invariant that every combined count is the sum of that key's count over
  all registered files.
- `parse_info.dfy` (`ParseInfoRecord`): the mutable `ParseInfo` record that
  the walk fills.
- `yaml_split.dfy` (`UnityYamlSplit`): the splitter (`ReadHeader`,
  `ParseFileStream`).
  - The spec function `SplitDocuments` cuts the file before every `---`
    line and puts the shared header in front of each document.
  - `FixStripped` is the `stripped` rewrite.
  - The looping methods are proved equal to these functions.
- `yaml_walk.dfy` (`UnityYamlWalk`): the tree walk (`ParseDocument`,
  `Visit`, `ParseMappingNode`, `ParseSequenceNode`,
  `ParseAttachedComponents`) over a closed `Node` datatype.
  - `ReachedIn` lists the mapping entries the walk handles, in walk order.
  - `Run` is their combined effect on the record.
  - `IdRefs`, `GuidRefs`, `LastComponents` and `PropertyOk` say
    independently what that effect is and when it fails.

Error handling: a failing cast or `ulong.Parse` throws in the code, and the
exception abandons the whole document. The model has an explicit error path
for this. The walk methods return `ok == false`, and `ParseDocument`
returns `None`. Preconditions would instead have ruled such input out.

## Model

| member | source | states |
|---|---|---|
| Primitives.ParseULong | AssetCache/AssetCache/UnityYamlParser.cs:120 | parsing succeeds exactly on a non-empty string of decimal digits whose value is below 2^64, and yields that value |
| Primitives.ParseFormatRoundTrip | AssetCache/AssetCache/UnityYamlParser.cs:95 | every anchor parses back from its decimal spelling |
| AssetIndex.CacheIndex.constructor | AssetCache/AssetCache/CacheIndex.cs:7-9 | a new index has three empty tables |
| AssetIndex.CacheIndex.GetIdUsages | AssetCache/AssetCache/CacheIndex.cs:11-19 | the stored count for a present anchor, 0 for an absent one |
| AssetIndex.CacheIndex.GetGuidUsages | AssetCache/AssetCache/CacheIndex.cs:21-29 | the stored count for a present guid, 0 for an absent one |
| AssetIndex.CacheIndex.GetAttachedComponents | AssetCache/AssetCache/CacheIndex.cs:31-39 | the stored list for a present anchor, the empty list for an absent one |
| AssetIndex.CacheIndex.IncrementIdUsages | AssetCache/AssetCache/CacheIndex.cs:41-44 | the anchor's count becomes old count + delta, with no floor; every other anchor and both other tables are unchanged |
| AssetIndex.CacheIndex.IncrementGuidUsages | AssetCache/AssetCache/CacheIndex.cs:46-49 | the guid's count becomes old count + delta; everything else is unchanged |
| AssetIndex.CacheIndex.AddAttachedComponents | AssetCache/AssetCache/CacheIndex.cs:51-56 | the anchor's list becomes old list ++ components; other anchors' lists and both count tables are unchanged |
| AssetIndex.CacheIndex.Merge | AssetCache/AssetCache/CacheIndex.cs:58-74 | the three loops leave the index equal to `Merged(old, other)`; only `this` is modified, so `other` is unchanged |
| AssetIndex.CacheIndex.AddIdCounts | AssetCache/AssetCache/CacheIndex.cs:60-63 | the loop of one `IncrementIdUsages` per entry leaves the anchor counts equal to the pointwise sum, whatever the order of the entries; the other two tables are unchanged |
| AssetIndex.CacheIndex.AddGuidCounts | AssetCache/AssetCache/CacheIndex.cs:65-68 | the loop of one `IncrementGuidUsages` per entry leaves the guid counts equal to the pointwise sum; the other two tables are unchanged |
| AssetIndex.CacheIndex.AppendComponentLists | AssetCache/AssetCache/CacheIndex.cs:70-73 | the loop of one `AddAttachedComponents` per entry appends each anchor's list to the stored one; both count tables are unchanged |
| AssetIndex.MergedReads | AssetCache/AssetCache/CacheIndex.cs:58-74 | after a merge each count is self + other, each list is self's list followed by other's, and a key is present iff it was present in either |
| AssetIndex.MergeIntoEmpty | AssetCache/AssetCache/CacheIndex.cs:58-74 | merging into an empty index reproduces the merged index exactly |
| AssetIndex.MergeOrder | AssetCache/AssetCacheTests/Tests.cs:80-95 | merging A then B gives the same counts as B then A, and lists concatenated in merge order |
| AssetIndex.CacheIndex.RemoveDataFromAnother | AssetCache/AssetCache/GlobalCacheIndex.cs:30 | the index becomes `Subtracted(old, other)` |
| AssetIndex.SubtractedReads | AssetCache/AssetCache/GlobalCacheIndex.cs:30 | after removal each count is self − other (no floor); anchors named by `other` lose their list; all other lists are unchanged |
| AssetIndex.SubtractUndoesMerge | AssetCache/AssetCache/GlobalCacheIndex.cs:12-15 | removing an index after merging it restores every count; its anchors end with an empty list, and other anchors keep theirs |
| AssetIndex.ReplaceBySameIndex | AssetCache/AssetCacheTests/Tests.cs:64-77 | removing and re-merging an index reads like merging it once, provided no other contribution attached components to its anchors |
| GlobalIndex.GlobalCacheIndex.constructor | AssetCache/AssetCache/GlobalCacheIndex.cs:10 | a new aggregate has no registered files and an empty combined index, and satisfies the sum invariant |
| GlobalIndex.GlobalCacheIndex.AddIndex | AssetCache/AssetCache/GlobalCacheIndex.cs:16-21 | the table maps `path` to the new index and keeps every other entry; the combined index is the old one minus the previous contribution of `path` (if any) merged with the new index, so an unregistered path is a plain merge; the sum invariant is preserved |
| GlobalIndex.GlobalCacheIndex.Invalidate | AssetCache/AssetCache/GlobalCacheIndex.cs:23-32 | an unregistered path changes nothing; a registered path's index is removed from the combined index and its entry deleted; the sum invariant is preserved |
| GlobalIndex.TotalWithout | AssetCache/AssetCache/GlobalCacheIndex.cs:5-8 | the sum of a key's count over the registered files splits as any one file plus the rest |
| GlobalIndex.MergeKeepsAccounts | AssetCache/AssetCache/GlobalCacheIndex.cs:16-21 | merging the index of a newly registered path keeps every combined count equal to the sum over the registered files |
| GlobalIndex.SubtractKeepsAccounts | AssetCache/AssetCache/GlobalCacheIndex.cs:23-32 | removing a registered path's index keeps every combined count equal to the sum over the remaining files |
| GlobalIndex.AddSameIndexTwice | AssetCache/AssetCacheTests/Tests.cs:64-77 | adding the same index again under the same path leaves every count and list as after one add, provided no other registered file attached components to its anchors |
| GlobalIndex.AddSameFileTwiceToEmpty | AssetCache/AssetCacheTests/Tests.cs:64-77 | on a fresh cache, adding one file's index twice leaves exactly that index's counts and lists |
| GlobalIndex.AddTwoFiles | AssetCache/AssetCacheTests/Tests.cs:80-95 | on a fresh cache, adding two files under distinct paths sums their counts and concatenates their lists in add order |
| ParseInfoRecord.ParseInfo.constructor | AssetCache/AssetCache/ParseInfo.cs:12-17 | `Id` is 0 and the id-usage map, guid-usage map and component list are empty |
| UnityYamlSplit.FixStrippedIsTheRegexRewrite | AssetCache/AssetCache/UnityYamlParser.cs:50 | a line is rewritten iff `([0-9]+ &[0-9]+) stripped\n` matches it, and the rewrite keeps the text up to the end of the group followed by a newline |
| UnityYamlSplit.FixStrippedKeepsSeparator | AssetCache/AssetCache/UnityYamlParser.cs:50-52 | the rewrite never changes whether a line starts with `---` |
| UnityYamlSplit.HeaderLengthMeaning | AssetCache/AssetCache/UnityYamlParser.cs:45-61 | the header is the maximal run of leading lines that do not start with `---`: none of them does, and the line after them does |
| UnityYamlSplit.ReadHeader | AssetCache/AssetCache/UnityYamlParser.cs:41-64 | returns the rewritten header lines joined; returns the rewritten first separator line, or "" when there is none; consumes exactly the header and that line |
| UnityYamlSplit.ParseFileStream | AssetCache/AssetCache/UnityYamlParser.cs:11-39 | the documents yielded are exactly `SplitDocuments(lines)`: none without a separator, otherwise the header followed by each group of lines |
| UnityYamlSplit.ChunksFlatten | AssetCache/AssetCache/UnityYamlParser.cs:23-37 | joining the groups gives back the lines: none is dropped, duplicated or moved |
| UnityYamlSplit.ChunksGrouped | AssetCache/AssetCache/UnityYamlParser.cs:23-37 | every group is one separator line followed by non-separator lines |
| UnityYamlSplit.ChunksCount | AssetCache/AssetCache/UnityYamlParser.cs:23-37 | there is one group per separator line |
| UnityYamlSplit.ChunksUnique | AssetCache/AssetCache/UnityYamlParser.cs:23-37 | any grouping with these properties is the one the loop builds |
| UnityYamlSplit.SplitRoundTrip | AssetCache/AssetCache/UnityYamlParser.cs:23-37 | each document is the header followed by its group; the groups are well formed and join back to exactly the lines from the first separator on, each newline-terminated |
| UnityYamlSplit.DocumentCount | AssetCache/AssetCache/UnityYamlParser.cs:18-37 | one document per line starting with `---`, so none when no line does |
| UnityYamlSplit.StrippedTagSurvivesAfterFirstDocument | AssetCache/AssetCache/UnityYamlParser.cs:26 | as written, a `stripped` separator after the first one reaches the parser unrepaired |
| UnityYamlSplit.RepairedSplitSeesEveryLineRepaired | AssetCache/AssetCache/UnityYamlParser.cs:47-50 | with the rewrite applied to every line, the header and the joined document bodies are exactly the repaired input lines, with one document per separator |
| UnityYamlSplit.RepairedSplitRepairsEveryDocument | AssetCache/AssetCache/UnityYamlParser.cs:50 | the corrected splitter hands the parser the repaired `--- !u!1001 &2` line |
| UnityYamlWalk.Lookup | AssetCache/AssetCache/UnityYamlParser.cs:167 | a found value belongs to an entry with that key; a miss means no entry has that key |
| UnityYamlWalk.ParseAttachedComponents | AssetCache/AssetCache/UnityYamlParser.cs:114 | the `m_Component` value yields a list exactly when it is a sequence every entry of which yields a component id; the list then holds those ids in sequence order |
| UnityYamlWalk.ComponentIds | AssetCache/AssetCache/UnityYamlParser.cs:164-170 | succeeds iff every entry yields a component id; the result lists those ids in sequence order |
| UnityYamlWalk.RunSucceeds | AssetCache/AssetCache/UnityYamlParser.cs:111-130 | a walk fails exactly when some reached entry has a non-scalar key or a value of the wrong shape for `m_Component`, `fileID` or `guid` |
| UnityYamlWalk.RunCountsIds | AssetCache/AssetCache/UnityYamlParser.cs:117-127 | each reached `fileID` entry adds exactly 1 to its parsed id's count, 0 included; an id becomes a key iff it is referenced |
| UnityYamlWalk.RunCountsGuids | AssetCache/AssetCache/UnityYamlParser.cs:128-138 | each reached `guid` entry adds exactly 1 to that guid's count; a guid becomes a key iff it is referenced |
| UnityYamlWalk.RunComponents | AssetCache/AssetCache/UnityYamlParser.cs:112-116 | the component list is the one of the last reached `m_Component` entry, which replaces rather than extends the list |
| UnityYamlWalk.Visit | AssetCache/AssetCache/UnityYamlParser.cs:144-154 | succeeds iff the walk of the node succeeds; the record then holds the effect of every entry reached below the node; `Id` is untouched |
| UnityYamlWalk.ParseSequenceNode | AssetCache/AssetCache/UnityYamlParser.cs:156-162 | visits every item in order; the same success/effect contract as `Visit` |
| UnityYamlWalk.HandleKey | AssetCache/AssetCache/UnityYamlParser.cs:111-138 | one entry's key handling: fails on a bad cast or parse; otherwise applies the `m_Component` / `fileID` / `guid` effect, and any other key changes nothing |
| UnityYamlWalk.ParseMappingNode | AssetCache/AssetCache/UnityYamlParser.cs:107-142 | handles each entry's key and then visits its value, in order; keys are never descended into |
| UnityYamlWalk.ParseDocument | AssetCache/AssetCache/UnityYamlParser.cs:90-105 | returns a fresh record exactly when `DocumentSummary` succeeds; its `Id` and collections are that summary |
| UnityYamlWalk.DocumentSummaryMeaning | AssetCache/AssetCache/UnityYamlParser.cs:95-103 | `Id` is the parsed root anchor, which is never counted; a root without entries gives empty collections; otherwise the counts are exactly the references reached from the first entry's value, and the component list is the last `m_Component` list |
| UnityYamlWalk.DocumentRejected | AssetCache/AssetCache/UnityYamlParser.cs:93-95 | a document is rejected iff its root is not a mapping, its anchor does not parse, or some reached entry cannot be handled |
| UnityYamlWalk.ComponentsAreCounted | AssetCache/AssetCache/UnityYamlParser.cs:112-140 | the `m_Component` subtree is walked too, so each listed component is counted as a usage at least once per listing |
| UnityYamlWalk.NullReferenceIsCounted | AssetCache/AssetCache/UnityYamlParser.cs:117-127 | `fileID: 0` is counted like any other id |

## Left out

- `LoadDocument` (YamlDotNet's parser) is not part of this model. The
  splitter yields document texts, and the walk starts from an already
  loaded `Document` tree. Tags, aliases and scalar styles are not modelled.
  Duplicate mapping keys, which the loader rejects, are not excluded.
  `Lookup` takes the first match.
- File I/O, byte-order-mark and encoding detection, and line-ending
  stripping are not modelled. The input is the sequence of `ReadLine`
  results, each free of `\n` and `\r`.
- The laziness of `yield return` is not modelled. `ParseFileStream`
  returns all documents at once, in the same order.
- The `ulong.Parse` culture rules are not modelled: leading or trailing
  white space and a leading sign are all rejected. So is the text a
  non-scalar node prints through `ToString()`, which is never a number.
- `StartsWith("---")` is compared character by character. Culture-sensitive
  comparison is not modelled.
- Counts are unbounded integers. The 32-bit `int` counts of `CacheIndex`
  and the 64-bit `long` counts of `ParseInfo` can overflow in C#; the model
  does not.
- Reference aliasing is not modelled.
  - `GetAttachedComponents` returns the stored list itself.
  - `fileIndexes` stores the caller's `CacheIndex` object.
  - The model keeps value copies instead.
  - `Merge` requires `other != this`, because the code would then modify
    the dictionaries it enumerates.
  - `AddIndex` requires that the new index is not the combined index.
- AssetIndex.CacheIndex.RemoveDataFromAnother: no file of the repository
  defines this method. The model gives it the smallest behaviour that fits
  its use.
  - Counts are subtracted exactly, with no floor, matching
    `IncrementIdUsages`.
  - The anchors the removed index names lose their component lists
    entirely.
  - This is exact only when that index was the anchors' sole contributor,
    hence the precondition of `ReplaceBySameIndex` and `AddSameIndexTwice`.
- The walk's state after a failure is left unspecified. The exception
  abandons the whole document, so `ParseDocument` returns `None`.
- The `ParseFile` method that is commented out at `UnityYamlParser.cs`
  lines 74-88 is not modelled.
- `AssetCacheImpl` (a stub that discards its results), the unused
  `FileIncrementCache` record and the console `Program` are not part of
  this model. The code has no batching, checkpointing, resuming after
  interruption or timestamp-based invalidation, so neither does the model.
- Behaviour of the code that a reader might not expect, modelled as the
  code has it:
  - A `fileID` of 0 is Unity's null reference, yet the code counts it like
    any other id.
  - An unparseable `fileID` aborts the whole document rather than being
    skipped.
  - Counts can go below zero: nothing floors a decrement at 0.
  - `m_Component` lists land in `ParseInfo.AttachedComponents`, which
    `ParseDocument` pairs with `Id`.
  - The `stripped` rewrite reaches only the lines `ReadHeader` reads (see
    Findings).

## Findings

| source | as written | input that shows it | evidently intended | confidence | as-written member | corrected member |
|---|---|---|---|---|---|---|
| AssetCache/AssetCache/UnityYamlParser.cs:26 | only lines read by `ReadHeader` (the header and the first separator) get the `stripped` rewrite; lines read by the main loop of `ParseFileStream` are passed on unchanged | lines `--- !u!1 &1` and `--- !u!1001 &2 stripped`: the second document is `--- !u!1001 &2 stripped\n`, which still carries the token that breaks the YAML grammar | every line has ` stripped` removed before parsing, as the commented-out whole-file `ParseFile` (line 78) did | high that the main loop skips the rewrite; medium that this is unintended; not executed | UnityYamlSplit.StrippedTagSurvivesAfterFirstDocument | UnityYamlSplit.RepairedSplitSeesEveryLineRepaired |

`UnityYamlSplit.ParseFileStream` models the code as written. The corrected
splitter is `UnityYamlSplit.SplitDocumentsRepaired`. Nothing in this model
consumes splitter output: the YAML loader between the splitter and the walk
is not modelled.
