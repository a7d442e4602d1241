# pkgcheck eclass documentation parser, in Dafny

This project models the eclass documentation parser of pkgcheck and its cache
reconciliation, both in `src/pkgcheck/eclass.py`, and proves properties of the model.

An eclass documents itself in comment blocks. A marker line such as `# @ECLASS: foo.eclass`
opens a block of one of four kinds: ECLASS, ECLASS-VARIABLE, FUNCTION or VARIABLE. The
block continues as long as lines start with the same comment prefix. Inside a block,
`@TAG` lines open tags, and any other line continues the last tag opened.

- **Tag handlers.** Each tag has a handler, a required flag and a field name. The handler
  turns its body into a value: a single line, a tuple of lines, a flag, or a set of words.
- **Blocks.** The ECLASS block is singular: its fields go to the top level of the eclass
  document. The other kinds accumulate in the lists `variables`, `functions` and
  `function-variables`.
- **The cache.** `EclassAddon.update_cache` keeps a map from eclass name to parsed eclass.
  It drops entries whose file is gone and re-parses, in sorted name order, every live
  eclass that is uncached or whose modification time changed. It writes the map back only
  when the map is non-empty and something changed.

Modules, one per file:

| file | module | what it holds |
|---|---|---|
| `outcomes.dfy` | `Outcomes` | `Option`; `Outcome` = `Ok`, `Fail` (an `EclassDocParsingError`) or `Crash` (any other exception, with where it is raised) |
| `text.dfy` | `Text` | Python's `strip()`, `split()`, `rstrip(':')`, slicing and string order, over the six ASCII blanks |
| `schema.dfy` | `Schema` | the two registries (`eclass_doc`, `eclass_block`) written out as closed tables, in registration order |
| `block_parser.dfy` | `BlockParser` | `_EclassDoc.parse` and the tag handlers: specification functions, lemmas, and the loop methods proved against them |
| `document.dfy` | `Document` | `Eclass.parse`, `Eclass.functions` and `Eclass.variables`: the scan as a function, its properties, and the loop methods proved against it |
| `cache.dfy` | `EclassCache` | `update_cache`: removal, the sorted update loop, the dirty flag and the write decision, with the loops in `EclassAddon.UpdateCache` and its helpers |

Each imperative part of the source is a Dafny method whose `ensures` ties its result to a
specification function (`ParseBlock` to `BlockSpec`, `ParseDocument` to `DocumentSpec`,
`UpdateCache` to `Reconcile`). The lemmas state what the source promises about those
functions.

The cache specification takes the document parser as a parameter, so its lemmas hold for
any parser. `EclassAddon.UpdateCache` instantiates it with `DocumentSpec`.

The filesystem is a value: a map from path to a modification time and the file's lines,
or `None` when reading raises an `IOError`. The pickled cache is the value the load
produced: no file, a corrupt file, or a stored map with its version.

Four behaviours of the code that the model keeps as written:

- **Version mismatch.** An outdated cache version removes the cache file (lines 488-490).
  It does not clear the loaded map, so those entries are reconciled like current ones
  (`EclassCache.Loaded`). `Corrupt`, which starts from an empty map, is any of the four
  exceptions line 493 catches when `pickle.load` raises them, including an
  `AttributeError` for a pickled class that is gone. Only an `AttributeError` from
  `eclasses.version` at line 488 leaves the unpickled object bound (line 487): the file is
  removed but the object is reconciled, so that load is a `Stored` with a mismatched
  version.
- **Removal.** An entry is removed only when its file no longer exists (lines 498-501). An
  entry whose file exists is kept even when its name is not live
  (`EclassCache.ReconcileEntries`).
- **Block to end of file.** A block that reaches the last line of the file does not end
  there. The inner loop at line 424 tests `lines`, not the index, and raises `IndexError`
  (`Document.BlockAtEndOfFileRaises`, `Document.LoneMarkerLineRaises`).
- **Prefix stripping.** Each block line loses its prefix and one more character, whatever
  that character is (line 428).

## Model

| member | source | states |
|---|---|---|
| Schema.Tags | src/pkgcheck/eclass.py:101-388 | the tag table of each block kind, in registration order: each tag with its handler shape, whether it is required, and the field it fills |
| Schema.TagsDistinct | src/pkgcheck/eclass.py:23-29 | no two tags of a block kind share a name, so the registry of a kind is a dictionary keyed by tag |
| Schema.MarkerTagComesFirst | src/pkgcheck/eclass.py:101-106 | every block kind's first registered tag is its own marker followed by a colon |
| Schema.RequiredTagsByKind | src/pkgcheck/eclass.py:63-69 | `_required` of each kind: ECLASS needs ECLASS:, MAINTAINER: and BLURB:; ECLASS-VARIABLE and FUNCTION need their marker tag; VARIABLE needs none |
| Schema.MarkerTagRequired | src/pkgcheck/eclass.py:336-337 | the marker tag is required for every kind except VARIABLE |
| Schema.EclassFieldsAreNotLists | src/pkgcheck/eclass.py:101-179 | no ECLASS field is named like one of the lists the repeatable kinds fill |
| Schema.FlagTagsAreColonless | src/pkgcheck/eclass.py:191-252 | a tag takes no body exactly when it is registered without a trailing colon, in every block kind (also lines 305-313 and 344-372) |
| Schema.TagsPrefixFree | src/pkgcheck/eclass.py:58-61 | no tag of a block kind, after `@`, starts another, so the order of the alternatives of `_block_tags_re` decides nothing |
| Text.StrippedTextIsInfix | src/pkgcheck/eclass.py:83-84 | the stripped header text is the slice between a blank prefix and a blank suffix, neither of which it starts or ends with |
| Text.StrippedTextEmpty | src/pkgcheck/eclass.py:83-84 | the header contributes no body line exactly when its rest is blank, and never an empty line |
| Text.Words | src/pkgcheck/eclass.py:166-167 | `split()` yields no word exactly for a blank line |
| Text.StripColon | src/pkgcheck/eclass.py:93 | `rstrip(':')` gives a prefix without a trailing colon, having removed only colons |
| Text.LeastExists | src/pkgcheck/eclass.py:504 | every non-empty set of names has a first name in `sorted` order |
| BlockParser.RunHandler | src/pkgcheck/eclass.py:105-388 | single-value tags return the first body line and fail iff the body is empty; line-tuple tags return all lines and fail iff it is empty; USAGE: never fails; flags return true iff the body is empty and otherwise fail with its first line; SUPPORTED_EAPIS: is the word set of the first line and raises on an empty body |
| BlockParser.HeaderTag | src/pkgcheck/eclass.py:58-61 | a line opens a registered tag of the block that `@` and the tag start it with, and no tag when none does |
| BlockParser.HeaderTagUnique | src/pkgcheck/eclass.py:58-61 | the tag a header line opens is the one tag of the kind that starts it, whatever the registration order |
| BlockParser.SplitTags | src/pkgcheck/eclass.py:78-86 | the first loop: sub-blocks opened by header lines, each numbered by its line; it raises only on a continuation before the first header, and gives no sub-block exactly for no lines |
| BlockParser.SplitTagsCrashes | src/pkgcheck/eclass.py:78-86 | splitting raises exactly when the first line opens no tag (`blocks[-1]` on an empty list) |
| BlockParser.SplitTagsReassembles | src/pkgcheck/eclass.py:78-86 | each line goes to exactly one sub-block, in order: a header opens one, numbered by its position; any other line is appended verbatim to the last one |
| BlockParser.ReassembledJoin | src/pkgcheck/eclass.py:78-86 | the sub-blocks' lines, joined, give back the block's lines |
| BlockParser.ReassembledSeenTags | src/pkgcheck/eclass.py:78-82 | the tags opened are exactly the tags of the header lines |
| BlockParser.Evaluate | src/pkgcheck/eclass.py:88-90 | the handler loop: the handlers run in order, the first that raises ends it, and a later sub-block overwrites an earlier one's field |
| BlockParser.EvaluateOkIff | src/pkgcheck/eclass.py:88-90 | running the handlers succeeds iff every handler does |
| BlockParser.EvaluateFirstFailure | src/pkgcheck/eclass.py:88-90 | the first handler that fails decides the block's error |
| BlockParser.EvaluateFields | src/pkgcheck/eclass.py:88-90 | the block's data has a field for every sub-block's tag and no other |
| BlockParser.EvaluateLastWins | src/pkgcheck/eclass.py:88-90 | a repeated tag keeps the value of its last occurrence |
| BlockParser.EvaluateValues | src/pkgcheck/eclass.py:88-90 | every stored value is what some sub-block with that field returned |
| BlockParser.EvaluateCrashSite | src/pkgcheck/eclass.py:166-167 | the handler loop raises nothing other than `EclassDocParsingError`, except on an empty SUPPORTED_EAPIS: body |
| BlockParser.StrippedNames | src/pkgcheck/eclass.py:93 | the missing-tag names are the missing tags without their trailing colons, one for each |
| BlockParser.BlockSpec | src/pkgcheck/eclass.py:71-98 | `_EclassDoc.parse`: split, run the handlers, then report the required tags that opened no header |
| BlockParser.MissingTagsReported | src/pkgcheck/eclass.py:92-97 | a block fails iff some required tag opens no header; the error quotes the first line, names exactly the missing tags and says "tag" for one and "tags" otherwise; an empty block raises instead |
| BlockParser.BlockSpecOk | src/pkgcheck/eclass.py:71-98 | a block parsed without error split, ran every handler, and saw every required tag |
| BlockParser.BlockCrashSite | src/pkgcheck/eclass.py:78-98 | a block whose first line opens a tag raises nothing other than `EclassDocParsingError`, except on an empty SUPPORTED_EAPIS: body |
| BlockParser.SplitRulesKnown | src/pkgcheck/eclass.py:89 | every sub-block's rule is a rule of the table, so the handler lookup never fails |
| BlockParser.BlockFieldsKnown | src/pkgcheck/eclass.py:88-90 | a parsed block holds only field names of its kind |
| BlockParser.RequiredFieldsPresent | src/pkgcheck/eclass.py:76-97 | a parsed block holds the field of every required tag of its kind |
| BlockParser.SplitLines | src/pkgcheck/eclass.py:74-86 | the first loop computes the split and leaves in `missing_tags` exactly the required tags not opened |
| BlockParser.RunHandlers | src/pkgcheck/eclass.py:88-90 | the second loop computes the handlers' data or their first error |
| BlockParser.ParseBlock | src/pkgcheck/eclass.py:71-98 | `_EclassDoc.parse` computes the block specification |
| Document.MatchMarker | src/pkgcheck/eclass.py:394-395 | a marker match gives a prefix of blanks closed by `#`, followed by ` @<MARKER>:` |
| Document.MatchMarkerComplete | src/pkgcheck/eclass.py:394-395 | every marker line is matched, with its one prefix and kind |
| Document.MarkersUnambiguous | src/pkgcheck/eclass.py:394-395 | no two block markers can start the same line |
| Document.RegionEnd | src/pkgcheck/eclass.py:424-429 | a block takes the maximal run of lines that start with the captured prefix |
| Document.RegionAt | src/pkgcheck/eclass.py:418-429 | a block starts exactly at a marker line, with that line's prefix and kind, and ends at the first line without the prefix |
| Document.CutAll | src/pkgcheck/eclass.py:428 | each block line loses its prefix and one more character |
| Document.Merge | src/pkgcheck/eclass.py:437-443 | ECLASS fields go to the top level and fail as a duplicate iff a key is already there; any other block is appended to its kind's list; nothing else changes |
| Document.BlockOpensMarkerTag | src/pkgcheck/eclass.py:418-433 | every block's first line, cut after the prefix, opens its kind's marker tag, so splitting never meets a line before a tag |
| Document.DocumentSpec | src/pkgcheck/eclass.py:411-446 | `Eclass.parse`: the scan over the lines that parses and merges each documentation block in order, stopping at the first error |
| Document.DocumentCrashes | src/pkgcheck/eclass.py:411-446 | `Eclass.parse` raises nothing other than `EclassDocParsingError`, except on an empty SUPPORTED_EAPIS: body or a block that reaches the end of the file |
| Document.DocumentBlocksParse | src/pkgcheck/eclass.py:411-446 | when `Eclass.parse` returns, every block parsed and none reached the end of the file |
| Document.BlockAtEndOfFileRaises | src/pkgcheck/eclass.py:424-426 | a block that reaches the last line of the file keeps the parse from returning |
| Document.MergeAllCrashAt | src/pkgcheck/eclass.py:418-443 | when the blocks before one merge, that block's crash is the parse's crash |
| Document.BlockAtEndOfFileCrashes | src/pkgcheck/eclass.py:424-426 | a block that reaches the last line, after blocks that all parse and merge, makes `Eclass.parse` raise the `IndexError` of `lines[line_ind]` |
| Document.LoneMarkerLineRaises | src/pkgcheck/eclass.py:424-426 | a file holding only an ECLASS marker line raises the `IndexError` |
| Document.DocumentLists | src/pkgcheck/eclass.py:437-443 | the list of a repeatable kind holds one entry per block of that kind, in document order |
| Document.EmptyDocument | src/pkgcheck/eclass.py:411-446 | the parse returns an empty mapping iff the file has no documentation block |
| Document.OneEclassBlock | src/pkgcheck/eclass.py:437-440 | a document that parses has at most one ECLASS block |
| Document.MergeAllFields | src/pkgcheck/eclass.py:437-443 | the merges leave as plain top-level fields exactly the fields already there and those of the ECLASS outcomes, with their values |
| Document.DocumentEclassFields | src/pkgcheck/eclass.py:437-441 | the plain fields of a parsed document are exactly the fields of its ECLASS block, with the values that block's parser gave them |
| Document.DocumentWithoutEclass | src/pkgcheck/eclass.py:437-443 | a parsed document without an ECLASS block holds only lists |
| Document.MergeAllSecondEclass | src/pkgcheck/eclass.py:437-440 | merging two ECLASS outcomes, after outcomes that all parsed, fails as a duplicate |
| Document.SecondEclassBlockFails | src/pkgcheck/eclass.py:437-440 | a second ECLASS block makes `Eclass.parse` fail with "duplicate ECLASS doc block" when it and every block before it parse |
| Document.NamesOf | src/pkgcheck/eclass.py:403-409 | the names are those of the entries, in order, or a `KeyError` when an entry has no name |
| Document.Eclass.Functions | src/pkgcheck/eclass.py:403-405 | the `name` of every entry of the `functions` list, none when an entry has no name |
| Document.Eclass.Variables | src/pkgcheck/eclass.py:407-409 | the `name` of every entry of the `variables` list, none when an entry has no name |
| Document.ParsedNames | src/pkgcheck/eclass.py:403-409 | the names of a parsed document's FUNCTION or ECLASS-VARIABLE blocks are there, one per block, in order |
| Document.EclassNames | src/pkgcheck/eclass.py:403-409 | `functions` and `variables` of a parsed eclass name its blocks in order, and are empty when there are none |
| Document.IsolateBlock | src/pkgcheck/eclass.py:421-429 | the inner loop collects the block's cut lines, or raises at the end of the file |
| Document.MergeBlock | src/pkgcheck/eclass.py:437-443 | the merge step computes `Merge` |
| Document.ParseRegion | src/pkgcheck/eclass.py:418-443 | one block of the scan computes the block step |
| Document.ParseDocument | src/pkgcheck/eclass.py:411-446 | `Eclass.parse` computes the document specification |
| EclassCache.Loaded | src/pkgcheck/eclass.py:483-496 | the reconciliation starts empty when forced or without a usable cache, and otherwise from the loaded map, whatever its version |
| EclassCache.CacheFileRemoved | src/pkgcheck/eclass.py:483-495 | the cache file is removed on a corrupt file or an outdated version, never when forced or absent |
| EclassCache.Prune | src/pkgcheck/eclass.py:498-501 | the removal pass keeps exactly the entries whose file exists, unchanged |
| EclassCache.PruneRemoves | src/pkgcheck/eclass.py:498-501 | the removal pass changes the map iff some entry's file is gone |
| EclassCache.Attempt | src/pkgcheck/eclass.py:508-513 | `Eclass(path)` gives the parsed eclass with the file's mtime, is skipped on an `IOError` or a parsing error, and propagates any other exception |
| EclassCache.Stale | src/pkgcheck/eclass.py:505-508 | a live eclass is re-parsed when it is not cached or its cached mtime differs from the file's |
| EclassCache.RefreshOne | src/pkgcheck/eclass.py:503-513 | one iteration raises iff the file is gone or a stale re-parse crashes; the name gets its refreshed entry, no other name changes, and the flag is set iff a re-parse succeeded |
| EclassCache.RefreshAllOk | src/pkgcheck/eclass.py:503-513 | the update loop finishes iff no live name's refresh raises |
| EclassCache.RefreshAllEntries | src/pkgcheck/eclass.py:503-513 | after the loop, each live name holds its refreshed entry and every other name is untouched |
| EclassCache.RefreshAllDirty | src/pkgcheck/eclass.py:503-513 | the loop sets the flag iff some live name was re-parsed successfully |
| EclassCache.RefreshAllFirstCrash | src/pkgcheck/eclass.py:503-506 | the loop raises the exception of the first live name, in sorted order, whose refresh raises |
| EclassCache.Reconcile | src/pkgcheck/eclass.py:480-513 | load, prune the entries whose file is gone, then refresh the live eclasses in sorted order |
| EclassCache.ShouldWrite | src/pkgcheck/eclass.py:516 | the map is written back when it is not empty and something changed |
| EclassCache.ReconcileOk | src/pkgcheck/eclass.py:480-513 | the reconciliation finishes iff no live eclass's file is missing and no stale live eclass crashes the parser; it never reports a parsing error |
| EclassCache.ReconcileEntries | src/pkgcheck/eclass.py:498-513 | a live name holds its new eclass when it was stale and re-parsed, and otherwise its surviving entry; a failed re-parse leaves the entry as it was; a name that is not live keeps its entry iff its file exists |
| EclassCache.ReconcileDirty | src/pkgcheck/eclass.py:480-511 | the flag is set iff an entry was removed or a re-parse succeeded |
| EclassCache.ReconcileFirstCrash | src/pkgcheck/eclass.py:503-513 | a crashed reconciliation reports the first live name, in sorted order, whose refresh raises |
| EclassCache.ReconcilePathsExist | src/pkgcheck/eclass.py:498-513 | after a reconciliation, every cached eclass's file exists |
| EclassCache.ReconcileIdempotent | src/pkgcheck/eclass.py:480-516 | reconciling again, from the map just produced and over the same files, changes nothing, sets no flag and writes nothing |
| EclassCache.UpToDateCacheUntouched | src/pkgcheck/eclass.py:503-516 | a cache that is up to date with the live eclasses is kept as it is, with no re-parse and no write |
| EclassCache.LoadEclass | src/pkgcheck/eclass.py:397-401 | constructing an `Eclass` reads the file, parses it and records its mtime |
| EclassCache.RemoveMissing | src/pkgcheck/eclass.py:498-501 | the removal loop computes the pruned map and the flag |
| EclassCache.Refresh | src/pkgcheck/eclass.py:505-513 | the body of the update loop computes one refresh |
| EclassCache.RefreshLive | src/pkgcheck/eclass.py:503-513 | the update loop visits the live names in sorted order and computes the refreshed state |
| EclassCache.EclassAddon.constructor | src/pkgcheck/eclass.py:463-465 | a new addon has no eclasses |
| EclassCache.EclassAddon.UpdateCache | src/pkgcheck/eclass.py:467-525 | `update_cache` reports whether the cache file was removed and whether the map is written back; `eclasses` becomes the reconciled map, and an exception leaves it unchanged |

## Left out

- Pickle load and dump, `os.remove`, `os.makedirs` and opening the cache file are I/O. The
  loaded cache is an input, and the removal and the write are returned as booleans.
- Errors of loading the cache that line 493 does not catch, such as a
  `pickle.UnpicklingError` or a `PermissionError` from `open`, have no `Stored` value: they
  would escape `update_cache`, and the model does not represent them.
- `UserException` on a failed dump is left out: the write itself is not modelled.
- `logger.debug` calls are logging only.
- The options and repositories lookup, the `cache['eclass']` switch and the
  `repo_id == 'gentoo'` filter are framework plumbing. The model reconciles one repository.
- `_EclassCache` and `caches.CacheData` are foreign classes. Only the cache version, 1,
  is kept.
- The regular expressions are replaced by explicit prefix matching. The registration
  order of the tags and markers stands for the order of the alternatives.
- Whitespace for `\s`, `strip()` and `split()` is the six ASCII blanks. Python also
  treats other Unicode whitespace as blank there.
- Modification times are integers compared for equality, not floats.
- The file system does not change during a run. `Eclass.__init__` reads the mtime after
  parsing; the model reads one mtime per file.
- A `UnicodeDecodeError` while reading an eclass is not modelled. A file is either
  readable or raises an `IOError`.
- The `AttributeError` caught at line 508 is not modelled. It comes from a cached entry
  of an older pickle without an `mtime`, and in the model every cached entry has one.
- Error messages are structured values (`DocError`), not the formatted, `repr`-quoted
  strings. The missing-tag list is a set, not a string in set iteration order.
- `ImmutableDict` and the `UserDict` base of `Eclass` are left out. An eclass's data is a
  map value.
