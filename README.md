# Tag-to-tree compiler, modelled in Dafny

This project models the core of `excel-to-json-ignition`. That core turns a flat
table of industrial control tags into a tree of folders and alarm UDT
instances. A tag looks like `Area1.Line2[3].Motor.Fault.1` and comes with a
description.

It has three stages:

- **Row parser.** Two variants exist, each modelled in its own module.
  - `src/excel_processor_new.py` is the one the program uses; it is module `TagParser`.
  - `src/excel_processor.py` is the legacy variant; it is module `LegacyParser`.
  - Each one cleans the rows, drops wildcard rows, and splits every tag into
    Prefix, InstanceName, Bit and Description.
- **Grouper** (`src/data_grouper.py`, module `PrefixGrouper`). It partitions the
  records by Prefix.
- **Tree builder** (`src/folder_structure_builder.py`). It is split across three modules:
  - `Forest` holds the JSON tag tree and the index paths into it.
  - `UdtInstances` chooses the template, builds the bit map and fills the placeholders.
  - `FolderBuilder` normalises folder names, walks or creates the folder
    hierarchy, and appends the instances. Its `FolderTree` class holds the
    shared folder list that the Python code mutates in place.

Supporting modules:

- `Wrappers`: Option, Result, and the two "apply a raising step in order" combinators.
- `Strings`: `split`/`join`, plus digit and word characters.
- `Patterns`: the regular expression `\[(.*?)\]`, which both parsers use.
- `Table`: the row types, plus `clean_data` and `remove_wildcard_rows`. The two
  parser files define these identically, so they are modelled once.

How the Python constructs are modelled:

- **Tree nodes.** A JSON tag dict becomes `Forest.Node(name, tagType, typeId, value, tags)`.
- **Templates.** The loaded templates are a `map<string, seq<Node>>`.
- **Exceptions.** Where Python would raise, the model returns a `Result` error:
  - `.group(1)` on a failed `re.search` (AttributeError);
  - `split('.')[-2]` on a tag without a dot (IndexError);
  - a missing template key (KeyError).
- **Aliasing.** `build_folder_hierarchy` returns an alias into the shared list.
  The model represents it as an index path into `FolderTree.tags`. The method
  `FolderTree.BuildFolderHierarchy` updates `tags` in place, and it is proved
  equal to the recursive function `Resolve`.
- **In-place mutation.** `overwrite_udt_tags` and `build_folder_structure` are
  methods with loops. Each is proved equal to a function that states the result,
  and those functions carry the properties.

Behaviour of the code worth knowing, all of it modelled:

- `groupby` sorts by default. Groups therefore come out in ascending Prefix
  order, not first-seen order (`PrefixGrouper.GroupByPrefix`).
- Both parsers can raise, as listed above, and the first raising row ends the
  whole batch.
- In the new parser, the bracket branch takes the text before the first `[` as
  the Prefix, whichever segment the bracket is in.
- Only direct children of top-level `bitsDescription` folders are filled.
  Deeper placeholders are left as in the template.

## Model

| member | source | states |
|---|---|---|
| Wrappers.CollectMap | src/excel_processor_new.py:45 | A step that may raise, applied to every row. It succeeds exactly when every row succeeds. Then there is one value per row, in order. Otherwise the error is that of the first failing row, and every earlier row succeeded. |
| Wrappers.CollectPrefix | src/folder_structure_builder.py:144-147 | A step applied to each element until one fails. The result holds the values of the steps before the failure. The error is that of the failing element. No error means every step succeeded and every element has a value. |
| Strings.Split | src/excel_processor_new.py:52-53 | `s.split(sep)` has at least one part, and no part contains the separator. Joining the parts with the separator gives `s` back. |
| Strings.SplitJoin | src/excel_processor_new.py:40 | Splitting a join of separator-free parts gives the parts back, which is the other half of the round trip. |
| Strings.SplitCount | src/excel_processor.py:41 | A string contains the separator exactly when it splits into two parts or more, so `[-2]` exists. |
| Strings.LastSegmentSplit | src/excel_processor_new.py:53 | With a separator, the tag without its last segment, then the separator, then the last segment, rebuild the tag. `rsplit(sep, 1)[0]` is that front part. Without a separator, the front part is empty and the last segment is the whole string. |
| Strings.FirstSegment | src/excel_processor_new.py:36 | `s.split(sep)[0]` is a prefix of `s` that has no separator. When `s` contains the separator, that character comes right after this prefix. |
| Patterns.CloseBracket | src/excel_processor_new.py:37 | The lazy `.*?\]` part of the pattern. It ends at the first `]` at or after k, with no line break before it. It fails exactly when every later `]` has a line break in front of it. |
| Patterns.SearchBracketGroup | src/excel_processor_new.py:37 | `re.search` for `\[(.*?)\]`. The match found is the leftmost one, and no earlier position matches. None means no position matches. |
| Patterns.SearchFindsFirstBracket | src/excel_processor_new.py:37 | With no line break, the match opens at the first `[` and closes at the first `]` after it. |
| Patterns.RemoveBracketGroups | src/excel_processor.py:26 | `re.sub` with an empty replacement never lengthens the text; what it keeps and what it deletes are stated by the next four rows. |
| Patterns.RemoveWithoutMatch | src/excel_processor.py:26 | `re.sub` with an empty replacement, on a string without a match, returns the string unchanged. |
| Patterns.RemoveKeepsPlain | src/excel_processor.py:26 | Text that has no `[` passes through `re.sub` character for character. |
| Patterns.RemoveDropsGroup | src/excel_processor.py:26 | On one line, a match is deleted: text up to the next `[` is kept, everything from that `[` to the first `]` after it is dropped, and the removal carries on after the `]`. |
| Patterns.RemoveTrailingGroup | src/excel_processor.py:26 | A segment such as `Line2[3]`, a bracket-free text followed by one group, becomes the text before the `[`. |
| Table.NullIfNA | src/excel_processor_new.py:10 | A cell is null after `replace` exactly when it was null or `"N/A"`. Otherwise it is unchanged. |
| Table.CleanRow | src/excel_processor_new.py:10 | A row is dropped exactly when its Tag is null or `"N/A"`. Otherwise it keeps its Tag and has its Description cleaned. |
| Table.CleanData | src/excel_processor_new.py:8-11 | No surviving row has a Tag or Description of `"N/A"`. Every row that should be kept is kept. Every kept row comes from an input row. |
| Table.CleanDataAppend | src/excel_processor_new.py:10 | `clean_data` keeps input order: cleaning a concatenation gives the concatenation of the cleaned parts. |
| Table.CleanDataKeepsAll | src/excel_processor_new.py:10 | No row with a real Tag is dropped. |
| Table.RemoveWildcardRows | src/excel_processor_new.py:13-15 | Every remaining row has a last segment other than `*` and comes from the input. Every such input row remains. |
| Table.RemoveWildcardRowsAppend | src/excel_processor_new.py:15 | Wildcard removal keeps input order. |
| TagParser.ExtractBitNumber | src/excel_processor_new.py:50-54 | Bit is the last segment exactly when that segment is all digits, and None otherwise. Tag_Helper always drops the last segment. Tag_Helper, a dot and the last segment rebuild the tag. A tag without a dot gives an empty helper. |
| TagParser.ExtractDetails | src/excel_processor_new.py:33-42 | Covers all cases of `extract_details`. It fails exactly when both bracket characters are present but no `[...]` group is. With brackets, the Prefix is the text before the first `[` and the InstanceName is the content of the leftmost group. Without brackets, Prefix, a dot and InstanceName rebuild the helper, and the Prefix is empty when there is no dot. |
| TagParser.BracketDetails | src/excel_processor_new.py:34-37 | On a single-line helper, the InstanceName is the text between the first `[` and the first `]` after it. Whatever follows that `]` is discarded. |
| TagParser.BracketDetailsFail | src/excel_processor_new.py:34-37 | With no `]` after the first `[`, `.group(1)` is reached on None and parsing fails. |
| TagParser.ParseRow | src/excel_processor_new.py:71-77 | One row fails exactly when its helper has both brackets but no `[...]` group. A parsed row keeps its Description, has a Bit exactly when the tag's last segment is all digits, and, in the dotted branch, Prefix, InstanceName and the last segment joined by dots rebuild the tag. Its Bit is that of `extract_bit_number`, and its Prefix and InstanceName are exactly what `extract_details` gives for the helper. |
| TagParser.ParseAll | src/excel_processor_new.py:44-54 | One record per surviving row, in order. The first row that fails makes the whole batch fail. |
| TagParser.ProcessExcel | src/excel_processor_new.py:64-78 | There is exactly one output record per row that survives cleaning and wildcard removal. No Description is `"N/A"`. |
| LegacyParser.ExtractPrefix | src/excel_processor.py:17-21 | The Prefix is the tag minus its last segment, or the whole tag when it has no dot. The last part is the Prefix's last segment. Both round-trip with a dot. |
| LegacyParser.ProcessPrefix | src/excel_processor.py:23-29 | Without a group in the last part, the Prefix loses its last segment when it has a dot and is kept whole when it has none. With a group, it is the Prefix's front, a dot, then the last part with its groups removed. |
| LegacyParser.LegacyPrefix | src/excel_processor.py:17-29 | Without a group in the last part, the final Prefix is a leading part of the tag. |
| LegacyParser.PrefixShortTag | src/excel_processor.py:19-28 | For a tag of one or two segments the Prefix is its first segment, or, when that segment holds a group, the segment, a dot and the segment with its groups removed. |
| LegacyParser.PrefixColumns | src/excel_processor.py:19-20 | For a tag of three segments or more, the columns of `extract_prefix` in terms of the tag's segments. |
| LegacyParser.PrefixDropsTwoSegments | src/excel_processor.py:25-28 | For a tag of three segments or more without a bracket group in the second-to-last segment, the Prefix is the tag minus its last two segments. |
| LegacyParser.PrefixStripsBracketGroups | src/excel_processor.py:25-27 | For a tag of three segments or more with a bracket group in the second-to-last segment, the Prefix is the earlier segments, then a dot, then that segment with every bracket group removed. |
| LegacyParser.WordRunEnd | src/excel_processor.py:39 | `\w+` is greedy: the run stops at the first non-word character. |
| LegacyParser.SearchCloseDotWord | src/excel_processor.py:39-40 | `re.search(r"\]\.(\w+)")` finds the leftmost match and nothing earlier. None means no match anywhere. |
| LegacyParser.WordAt | src/excel_processor.py:39 | `.group(1)` is a non-empty, maximal run of word characters taken from the tag at that position. |
| LegacyParser.SecondToLastSegment | src/excel_processor.py:41 | `split('.')[-2]` fails exactly when the tag has no dot. |
| LegacyParser.ExtractInstanceName | src/excel_processor.py:38-42 | With a `].` match, the name is the maximal `\w+` run after the leftmost one. Otherwise it is the second-to-last segment. It fails exactly when there is no match and no dot. |
| LegacyParser.ExtractBit | src/excel_processor.py:45-48 | The Bit is the last segment with no digit check. With the Prefix of `extract_prefix` and a dot, it rebuilds the tag. |
| LegacyParser.ParseRow | src/excel_processor.py:61-68 | One row fails exactly when its tag has no `].` match and no dot. A parsed row has a dot in its tag, keeps its Description, and its Bit joined to Prefix of `extract_prefix` by a dot rebuilds the tag. Its Prefix is `LegacyPrefix` of the tag and its InstanceName is what `extract_instance_name` gives. |
| LegacyParser.ParseAll | src/excel_processor.py:58-69 | One record per surviving row, in order. The first failing row fails the batch. |
| LegacyParser.ProcessExcel | src/excel_processor.py:58-69 | There is exactly one record per row that survives cleaning and wildcard removal. No Description is `"N/A"`. |
| PrefixGrouper.DropPrefix | src/data_grouper.py:4 | Dropping the Prefix column keeps every other field. |
| PrefixGrouper.StrLessIrreflexive | src/data_grouper.py:2 | Python's string `<`, which `groupby` sorts by, is irreflexive. |
| PrefixGrouper.StrLessTransitive | src/data_grouper.py:2 | The string order is transitive. |
| PrefixGrouper.StrLessTotal | src/data_grouper.py:2 | The string order is total on distinct strings. |
| PrefixGrouper.AscendingDistinct | src/data_grouper.py:2 | Strictly ascending keys have no repeats. |
| PrefixGrouper.Insert | src/data_grouper.py:2 | Inserting a key keeps the list ascending. The result contains exactly the old keys and the new one. |
| PrefixGrouper.SortedPrefixes | src/data_grouper.py:2 | The group keys are ascending, and they are exactly the Prefixes that occur. |
| PrefixGrouper.Select | src/data_grouper.py:2-5 | A key that never occurs has an empty chunk. |
| PrefixGrouper.SelectAppend | src/data_grouper.py:2-5 | A chunk keeps the relative input order of its records. |
| PrefixGrouper.SelectHas | src/data_grouper.py:2-5 | Every record, without its Prefix, is in the chunk of its own Prefix. |
| PrefixGrouper.SelectFrom | src/data_grouper.py:2-5 | Every item of a chunk comes from a record with that Prefix. |
| PrefixGrouper.GroupsFor | src/data_grouper.py:3-5 | There is one group per key, in key order. Each group is the chunk of its key. |
| PrefixGrouper.GroupByPrefix | src/data_grouper.py:1-6 | Groups come out in strictly ascending Prefix order. Every key occurs in the records, and every record's Prefix has a group. Each group holds exactly the records with its Prefix, in input order (`Select`). |
| PrefixGrouper.RecordInOneGroup | src/data_grouper.py:2-5 | Every record lands in exactly one group, the one keyed by its Prefix, and appears there. |
| PrefixGrouper.GroupKeysDistinct | src/data_grouper.py:2-5 | No two groups share a key. |
| PrefixGrouper.GroupContents | src/data_grouper.py:2-5 | Every chunk is non-empty and holds only records with its Prefix. |
| PrefixGrouper.TotalSizeCovers | src/data_grouper.py:2-5 | When ascending keys cover every Prefix, the chunks have as many rows as the input. |
| PrefixGrouper.GroupSizesSum | src/data_grouper.py:2-5 | No row is lost or duplicated: the group sizes add up to the input size. |
| Forest.NewFolder | src/folder_structure_builder.py:51-55 | A new folder has the given name, the tagType `Folder` and no children. |
| Forest.WithLevel | src/folder_structure_builder.py:56 | Replacing the list at a non-empty path keeps the length of the top level. |
| Forest.LevelAtExtend | src/folder_structure_builder.py:57-59 | Descending into child j is one more index on the path. |
| Forest.WithLevelSelf | src/folder_structure_builder.py:56-59 | Putting back the list that is there changes nothing. |
| Forest.WithLevelGet | src/folder_structure_builder.py:56-59 | The list put at a path is found there again, so the alias sees the append. |
| Forest.WithLevelTwice | src/folder_structure_builder.py:147 | Of two writes through the same alias, the second one wins. |
| Forest.WithLevelCompose | src/folder_structure_builder.py:56-57 | A write through the alias of a child list is a write into its parent list. |
| Forest.FolderPathValid | src/folder_structure_builder.py:46-59 | A path that runs through folders leads through existing nodes. |
| Forest.GrowsRefl | src/folder_structure_builder.py:56 | Every tree has grown from itself. |
| Forest.GrowsTrans | src/folder_structure_builder.py:56 | Growth composes. |
| Forest.GrowsWithLevel | src/folder_structure_builder.py:56 | Growing the list at a path grows the whole tree. |
| Forest.UniqueFoldersAt | src/folder_structure_builder.py:46-49 | Below the folder-name invariant, every list reached through folders has unique folder names too. |
| Forest.UniqueFoldersWithLevel | src/folder_structure_builder.py:50-56 | Writing a list with unique folder names at a folder path keeps the invariant. |
| UdtInstances.SelectUdtName | src/folder_structure_builder.py:63-81 | The result is always one of the two templates. It is `AlarmsDINT2` exactly for a non-empty name that is not all digits and has no bracket. All-digit names get `AlarmsDINT`. |
| UdtInstances.PlaceholderBit | src/folder_structure_builder.py:23-25 | A placeholder name is its digits followed by `_description`. |
| UdtInstances.PlaceholderBitOf | src/folder_structure_builder.py:23 | Every `<digits>_description` name matches, with exactly those digits. |
| UdtInstances.Overwritten | src/folder_structure_builder.py:20-27 | Only direct children of top-level `bitsDescription` folders change, and only in their value. A child changes only when it is a placeholder whose digits are a key; it then gets that key's description. Everything else, including length and order, is kept. |
| UdtInstances.OverwrittenShape | src/folder_structure_builder.py:20-28 | The whole shape is preserved at every depth: length, names, tagTypes and typeIds. |
| UdtInstances.OverwrittenIdempotent | src/folder_structure_builder.py:20-27 | Overwriting twice with the same map is the same as overwriting once. |
| UdtInstances.OverwrittenEmpty | src/folder_structure_builder.py:20-27 | An empty map changes nothing. |
| UdtInstances.OverwrittenIgnoresUnusedKey | src/folder_structure_builder.py:26 | A map key with no placeholder in the template is silently ignored. |
| UdtInstances.OverwriteUdtTags | src/folder_structure_builder.py:9-28 | The nested in-place loops produce exactly `Overwritten`. |
| UdtInstances.BitKey | src/folder_structure_builder.py:93 | `str(row['Bit'])` is the bit itself for a numeric bit. A row without a bit gets a key that is not all digits, so it can never fill a placeholder. |
| UdtInstances.PrepareBitDescriptions | src/folder_structure_builder.py:83-93 | The keys are exactly the `str(Bit)` values of the rows. |
| UdtInstances.LastRowWins | src/folder_structure_builder.py:93 | For a duplicate bit, the last row's description wins. |
| UdtInstances.ProcessInstance | src/folder_structure_builder.py:95-127 | It fails exactly when the selected template is missing, and then names it. Otherwise the node has the instance name, tagType `UdtInstance`, no value, and typeId `AmazonUDTs/AlarmsUDTs/` followed by the template name. Its tags are exactly `Overwritten` of the template with the rows' bit map, and so have the template's shape. |
| UdtInstances.InstancePlaceholderFilled | src/folder_structure_builder.py:108-117 | A placeholder gets the description of the last row with its bit. |
| UdtInstances.InstancePlaceholderKept | src/folder_structure_builder.py:108-117 | A placeholder whose bit no row has stays exactly as in the template. |
| FolderBuilder.DigitRunEnd | src/folder_structure_builder.py:7 | `\d+` is greedy: the run stops at the first non-digit. |
| FolderBuilder.GroupLen | src/folder_structure_builder.py:7 | A match of `\[(\d+)\]` at the start is a `[`, digits and a `]`. |
| FolderBuilder.ConvertBrackets | src/folder_structure_builder.py:5-7 | The conversion keeps the length. |
| FolderBuilder.ConvertOnlyBrackets | src/folder_structure_builder.py:5-7 | Every character is kept, except that a `[` may become `(` and a `]` may become `)`. |
| FolderBuilder.ConvertAfterPlain | src/folder_structure_builder.py:7 | Text without a `[` in front passes through unchanged. |
| FolderBuilder.NoBracketUnchanged | src/folder_structure_builder.py:5-7 | A string with no `[` is returned unchanged. |
| FolderBuilder.ConvertGroup | src/folder_structure_builder.py:7 | Scanning left to right, each `[digits]` becomes `(digits)`. |
| FolderBuilder.ConvertIdempotent | src/folder_structure_builder.py:5-7 | Converting twice is the same as converting once. |
| FolderBuilder.OpenBracketStaysOpen | src/folder_structure_builder.py:7 | A `[` that opens no group still opens none after conversion. |
| FolderBuilder.ConvertExample | src/folder_structure_builder.py:6 | `'array[0]'` becomes `'array(0)'`. |
| FolderBuilder.FolderNames | src/folder_structure_builder.py:41-45 | There is one normalised name per component of `prefix.split('.')`. |
| FolderBuilder.FindFolder | src/folder_structure_builder.py:46-49 | It finds the first item that is a Folder with that name, or reports none. Items of other types with that name are passed over. |
| FolderBuilder.Resolve | src/folder_structure_builder.py:41-61 | The walk ends on a path of Folders, with one index per component. |
| FolderBuilder.ResolveShape | src/folder_structure_builder.py:41-61 | The path's folder names are the normalised components. The tree changes only along the path, by at most one folder per level, appended after the existing items. |
| FolderBuilder.ChangedAlongGrows | src/folder_structure_builder.py:50-59 | Such a change only grows the tree: existing items are never reordered or altered. |
| FolderBuilder.ResolveKeepsUniqueFolders | src/folder_structure_builder.py:46-57 | The walk reuses folders instead of duplicating them, so folder names stay unique at every level. |
| FolderBuilder.ResolveIdempotent | src/folder_structure_builder.py:44-59 | A second walk of the same prefix leaves the tree unchanged and returns the same path. |
| FolderBuilder.EmptyPrefixFolder | src/folder_structure_builder.py:41 | An empty prefix still walks one component, a folder named `""`. |
| FolderBuilder.Unique | src/folder_structure_builder.py:144 | `unique()` has no repeats and contains exactly the names that occur. |
| FolderBuilder.UniqueFirstSeenOrder | src/folder_structure_builder.py:144 | `unique()` lists names in order of first appearance. |
| FolderBuilder.InstanceNames | src/folder_structure_builder.py:144 | This is the InstanceName column, row by row. |
| FolderBuilder.ItemsNamed | src/folder_structure_builder.py:145 | The filter keeps exactly the rows with that InstanceName. |
| FolderBuilder.ItemsNamedAppend | src/folder_structure_builder.py:145 | The filter keeps the rows' order and multiplicity: filtering a concatenation concatenates the filtered parts. |
| FolderBuilder.BuildInstances | src/folder_structure_builder.py:144-147 | Node k is `process_instance` of the k-th name. The loop completes exactly when every selected template is present. Otherwise it stops at the first name whose template is missing and reports that template. |
| FolderBuilder.BuiltInstancesNamed | src/folder_structure_builder.py:120-125 | The appended nodes carry their instance names and are UdtInstances, not folders. |
| FolderBuilder.AppendInstancesKeepsUniqueFolders | src/folder_structure_builder.py:147 | Appending non-folders keeps folder names unique. |
| FolderBuilder.StructureAfter | src/folder_structure_builder.py:129-147 | The call stops with a missing template exactly when some row's InstanceName selects a template that is not loaded; the one reported is not loaded. |
| FolderBuilder.AllTemplatesPresent | src/folder_structure_builder.py:144-146 | Every distinct instance name has its template exactly when every row's instance name has. |
| FolderBuilder.StructureAppends | src/folder_structure_builder.py:142-147 | After the call, the resolved folder path still has the prefix's names. Its list is the old list followed by exactly the new instances. |
| FolderBuilder.StructureGrows | src/folder_structure_builder.py:142-147 | Nothing in the tree is removed, reordered or altered. |
| FolderBuilder.StructureOnlyAdds | src/folder_structure_builder.py:142-147 | Nothing changes but what the call creates: every node off the walked path is as it was, each level on the path gained at most one new Folder after its old nodes, and the reached folder gained exactly the built instances after its old contents. |
| FolderBuilder.ChangedAlongAppend | src/folder_structure_builder.py:56-59 | Appending through the alias at the end of a walked path changes the tree only in that way. |
| FolderBuilder.StructureKeepsUniqueFolders | src/folder_structure_builder.py:142-147 | `build_folder_structure` never creates a second folder of a name at one level. |
| FolderBuilder.HierarchyStep | src/folder_structure_builder.py:44-59 | One iteration of the walk leaves its final outcome unchanged. |
| FolderBuilder.FolderTree.constructor | src/main.py:22 | The shared folder structure starts empty. |
| FolderBuilder.FolderTree.EnterFolder | src/folder_structure_builder.py:45-59 | One component in place: the index of the first matching folder. When there is none, an empty folder is appended at the current level. |
| FolderBuilder.FolderTree.BuildFolderHierarchy | src/folder_structure_builder.py:30-61 | The in-place loop leaves exactly the tree and path of `Resolve` on the normalised components. |
| FolderBuilder.FolderTree.BuildFolderStructure | src/folder_structure_builder.py:129-147 | The in-place loop gives exactly `StructureAfter`, including the missing template when one stops it. The tree only grows, and folder names stay unique. |
| FolderBuilder.StructureEnsures | src/folder_structure_builder.py:142-147 | `StructureAfter` grows the tree and keeps folder names unique. |

## Left out

- `read_excel` (both parsers): spreadsheet I/O. Its result is taken as a given sequence of rows with optional Tag and Description cells.
- Template loading (`src/load_udt_json_files.py`) and JSON output (`src/json_writer.py`): file I/O. The templates are taken as a given map from template name to tag list.
- `src/main.py`: fixed paths, printing and the driver loop. The driver loop applies `FolderTree.BuildFolderStructure` once per group of `PrefixGrouper.GroupByPrefix`, in group order. It is not stated as a lemma of its own.
- A template node that is a Python dict may carry keys beyond name, tagType, typeId, value and tags. Those keys are not modelled.
- `copy.deepcopy`: templates are values here, so the copy is implicit and the template map can never change.
- Character classes are ASCII only: `\d`, `str.isdigit` and `\w`. Python's Unicode digits and word characters are not modelled.
- The `$` anchors also match before a trailing line break. This is not modelled.
- Non-string cell values are not modelled. That means numbers or NaN in the Tag column, or a Description that pandas keeps as a number. A cell is a string or null.
- pandas' handling of an empty table: the row functions assume nothing about it, and no column dtype behaviour is modelled.
- `str(row['Bit'])` of a null Bit is `"None"` (`UdtInstances.BitKey`). The NaN spelling that pandas might produce instead is not modelled.
- `extract_prefix` and `process_prefix` also appear, uncalled, in `src/excel_processor_new.py:17-29`. They are identical to the legacy ones and are modelled once, in `LegacyParser`.
- `drop_columns` and `reorder_columns` only select columns. The `Record` datatype already has the final four columns.
- Patterns.RemoveBracketGroups: its own contract only bounds the length. What the removal keeps and deletes is stated by `RemoveWithoutMatch`, `RemoveKeepsPlain` and `RemoveDropsGroup` (the last only for text without line breaks). That the result holds no further `[...]` group is not stated.
- FolderBuilder.ConvertBrackets: its own contract only states the length. The replacement itself is stated by the lemmas listed above.
