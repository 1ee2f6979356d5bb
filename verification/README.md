# A verified model of bootcfg

`bootcfg` maps a machine's labels to a Group, the Group to a Profile, and both to rendered boot
configuration. This project models that path in Dafny and proves what the system promises about it.

| file | models |
|---|---|
| `Text.dfy` | string order, splitting and joining, sorted slices, map iteration orders |
| `Mac.dfy` | hardware addresses: three notations, one canonical form |
| `Groups.dfy` | Groups: matching, normalising in place, selector texts and their order |
| `Selection.dfy` | the in-place sort and the choice of a Group |
| `Paths.dfy` | `path.Clean`, `filepath.Join`, `Dir.sanitize`, file names and extensions |
| `Documents.dfy` | JSON values, and what is written and read for Groups and Profiles |
| `JsonText.dfy` | JSON texts token by token, whole and torn |
| `Shapes.dfy` | the stored documents field by field |
| `Stores.dfy` | the store's errors and the map store |
| `FileTree.dfy` | the file tree: reading, writing, and where documents lie |
| `FileStore.dfy` | the file store |
| `Refinement.dfy` | the file store against the map store, over whole runs, and where they differ |
| `Server.dfy` | the server, and how puts change what it selects |
| `ConcurrentListing.dfy` | listing while puts are under way |
| `QuietListing.dfy` | those steps against the file store's own operations |
| `Signing.dfy` | the signing response writer |
| `Variables.dfy` | request labels and template variables |
| `EnvFile.dfy` | the env file of the metadata endpoint |
| `BootScripts.dfy` | the iPXE and GRUB scripts |

Where Go leaves a choice open, the model leaves it open too. Ranging over a map is a loop that takes
any pending key; `sort.Sort` may leave any permutation that its order allows. `Selection.MaySelect`
therefore describes a set of answers, and `AnswersExact` shows that it is the right set. With unambiguous
keys all answers have one selector (`SelectionDetermined`); they are one group, or lead to one profile,
exactly under the conditions of `DeterminedExact`, `OneGroupExact` and `OneProfileExact`. Where the code mutates, the model does: `GroupCell`,
`FileStore`, `FixedStore`, `ResponseWriter`, `SignatureResponseWriter` and `LineWriter` are classes, and
the sort works in place on an array. Their methods are proved against functions and relations, and the
theorems about runs are stated on those.

## Where the code and its description differ

- The tie-break comment in `bootcfg/server/server.go:129-131` suggests alphabetical order. The sort is
  reversed as a whole, so among groups with equally many selectors the greatest text wins
  (`MoreSelectorsWin`).
- "Deterministic" in `bootcfg/storage/storagepb/group.go:117-120` holds under two conditions.
  The selector that is chosen is determined only while no selector key is another key followed by `=`. For
  every pair of keys that breaks this there are two groups between which the choice is open
  (`SelectionNeedsUnambiguousKeys`); the condition is exact (`UnambiguousExact`, `DistinctSelectorsExact`)
  over all selectors, and keys without `=` meet it. The two groups are normalised ones, as a file store
  lists them, unless the shorter key is a MAC key.
  The group is determined, then, exactly while no two listed groups share a selector (`DeterminedExact`): the
  comparison sees nothing else of a group. Two stored groups that give one MAC in two notations share one
  (`TwoNotationsTie`), and a machine may get the profile of either. `OneGroupExact` and `OneProfileExact` give
  the exact conditions on what is stored.
- A missing label reads as the empty text, so a selector entry with an empty value matches a request
  without that label (`bootcfg/storage/storagepb/group.go:50`); nil labels match only the empty selector.
- A `..` in an id stays inside the data directory but can leave its collection: `PlaceOfName` says where
  every name leads, and `StaysInCollection` exactly which names stay. A name lies at its own place in the
  collection, as one component, exactly when it is plain (`FileInCollection`, `PlainIdFile`); others may
  land there too, as `./x` does at the place of `x`. The run theorems are about plain names.
- The two stores do not accept the same groups: `FixedStore` keeps every group
  (`bootcfg/storage/testfakes/fixed_store.go:30-33`), while the file store refuses metadata that are neither
  nil nor the JSON of null or an object (`bootcfg/storage/filestore.go:31-34`). `RefusedPutDiverges` gives
  such a put, and `RunAgreesExact` shows that a run of plain calls is answered alike exactly when it has none.
  Alike means up to what reading a document back changes: MACs become canonical and empty metadata nil, and
  a group whose MAC does not parse or a profile without an id is kept but not found (`GroupFound`,
  `ProfileFound`).
- Cleaning a path before `sanitize` can hide a NUL byte from it (`SanitizeTwoStageNeedsNulFree`).
- A handler that gives another code after 200 is settled gets a different status when signed;
  `SignedMatchesPlain` says exactly which handlers keep theirs.
- `collectVariables` panics on metadata `null` (`CollectSucceeds`); the file store never returns such a
  group (`StoredGroupsCollect`).

## Model

| member | source | states |
|---|---|---|
| Selection.SelectGroup | bootcfg/server/server.go:132-143 | The slice is left a ranked permutation of the listing; the result is its first match: a matching group no match outranks, or "no matching group" exactly when nothing matches |
| Selection.SortByRank | bootcfg/server/server.go:137 | The in-place sort, built from `Less` and `Swap` only, keeps the multiset and leaves no later group above an earlier one |
| Selection.Swap | bootcfg/storage/storagepb/group.go:127-129 | Exchanges two slots and nothing else |
| Selection.LessAt | bootcfg/storage/storagepb/group.go:131-136 | Compares two slots by count, then by selector text |
| Selection.AnswersExact | bootcfg/server/server.go:132-143 | The answers allowed by the specification are exactly the first matches of the arrangements that an unstable sort may leave, for every listing and labels |
| Selection.SelectionDetermined | bootcfg/server/server.go:132-143 | With unambiguous keys the selected selector depends only on the set of listed groups and the labels: not on order, duplicates, map iteration or the sort's treatment of equals |
| Selection.SelectionNeedsUnambiguousKeys | bootcfg/server/server.go:132-143 | For every pair of keys that breaks the condition, two groups and labels for which two different selectors may be selected; normalised groups unless the shorter key is a MAC key |
| Selection.DeterminedExact | bootcfg/server/server.go:132-143 | With unambiguous keys, any feature of the selected group (the group itself, its id, its profile) is the same in all answers for all labels exactly when listed groups with one selector share that feature |
| Selection.DistinctSelectorsExact | bootcfg/storage/storagepb/group.go:117-120 | Every listing of groups with distinct selectors has one answer for all labels if and only if the keys are unambiguous |
| Selection.EverySelectorChosen | bootcfg/server/server.go:132-143 | For every selector of a listing there are labels for which each group that has it may be selected |
| Selection.MoreSelectorsWin | bootcfg/server/server.go:129-143 | A match with more selectors always wins; among equally many the one whose `key=value` texts, in ascending order and joined by commas, make the greatest text; a group without selectors only for want of any other match |
| Selection.GreaterTextWins | bootcfg/server/server.go:129-143 | With a match of as many selectors and a greater text in the listing, a group is never selected |
| Selection.ReplacementEffect | bootcfg/server/server.go:132-143 | Adding or replacing a group, with the winner left in place, changes the choice exactly when the added group matches and outranks the winner, or nothing matched; then it is selected itself |
| Groups.SelectorString | bootcfg/storage/storagepb/group.go:88-96 | For every map iteration order the result joins by commas the entries' `key=value` texts in ascending order |
| Groups.SelectorTextExact | bootcfg/storage/storagepb/group.go:88-96 | Every ascending arrangement of the `key=value` texts of the entries, joined by commas, is the selector text |
| Groups.LessExact | bootcfg/storage/storagepb/group.go:131-136 | Fewer entries come first, and among equally many the lesser text of the ascending entries joined by commas |
| Groups.MatchesExact | bootcfg/storage/storagepb/group.go:48-55 | Labels match exactly when each entry's value is the label, or is empty and the label absent; nil labels match only the empty selector |
| Groups.ReqsAnyOrder | bootcfg/storage/storagepb/group.go:88-96 | The sorted requirements are the same for every iteration order of the map |
| Groups.ReqsShape | bootcfg/storage/storagepb/group.go:88-96 | The requirements are sorted, one for each entry, and are exactly the "key=value" texts of the entries |
| Groups.LessIsStrictWeakOrder | bootcfg/storage/storagepb/group.go:131-136 | `Less` is asymmetric, transitive and negatively transitive on all selectors; ties are equal counts with equal texts |
| Groups.LessIsTotalOnSeparable | bootcfg/storage/storagepb/group.go:131-136 | On selectors with `=`-free keys and `,`-free values `Less` is a strict total order |
| Groups.TiedMatchesAreEqual | bootcfg/storage/storagepb/group.go:88-96 | Two selectors matched by the same labels that tie under `Less` are equal, whatever their values contain, if no key in use is another key followed by `=` |
| Groups.UnambiguousExact | bootcfg/storage/storagepb/group.go:88-96 | That condition on the keys is exact: tied matches are always equal if and only if it holds |
| Groups.EqualsFreeUnambiguous | bootcfg/storage/storagepb/group.go:88-96 | Keys without `=` meet the condition |
| Text.LessIsLexicographic | bootcfg/storage/storagepb/group.go:133 | The string order is the lexicographic one |
| Text.SortedUnique | bootcfg/storage/storagepb/group.go:94 | A slice of strings has one sorted arrangement, so instability cannot show |
| Groups.GroupCell.Normalize | bootcfg/storage/storagepb/group.go:59-72 | Succeeds exactly when every MAC entry parses; then every MAC entry is the lower-case colon notation of its octets and nothing else changed; on failure the key set is kept and every entry has its original or its canonical value |
| Groups.NormalizedExact | bootcfg/storage/storagepb/group.go:59-72 | Entry by entry: a MAC becomes lower-case pairs with colons for the same octets, and stays if it is that already; anything else stays |
| Groups.MacKeyExact | bootcfg/storage/storagepb/group.go:61-62 | The reserved key is `mac` in any of its eight spellings, and nothing else |
| Groups.NormalizedIdempotent | bootcfg/storage/storagepb/group.go:59-72 | Normalising a normalised selector succeeds and changes nothing |
| Groups.NormalizedSameExact | bootcfg/storage/storagepb/group.go:59-72 | Two selectors become one by normalising exactly when they have the same keys, the same octets under MAC keys and the same text under the others |
| Mac.ParseMACExact | bootcfg/http/parse.go:63-69 | A text is accepted as an address exactly when, character by character and in any letter case, it is pairs of hex digits with colons or dashes or groups of four with dots, for 6, 8 or 20 octets |
| Mac.CanonicalExact | bootcfg/storage/storagepb/group.go:63-68 | The canonical form of an accepted text is lower-case pairs with colons for the same octets, and the text itself if it is that |
| Mac.PrintParse | bootcfg/storage/storagepb/group.go:63-68 | Printing and parsing undo each other; the canonical form is never empty |
| Mac.CanonicalDecides | bootcfg/storage/storagepb/group.go:63-68 | Two accepted texts have one canonical form exactly when they name the same octets |
| Paths.SanitizeConfines | bootcfg/storage/fs.go:59-69 | For every root and name: refused exactly on a NUL byte; otherwise the path is the cleaned root followed by the place the name denotes in its own tree, whose components are never empty, `.` or `..` |
| Paths.SanitizeExact | bootcfg/storage/fs.go:59-69 | For every directory and name: refused exactly on NUL; otherwise the path denotes the place of that very directory (the current one if none is given) followed by the place of the name read from the top, and is clean |
| Paths.SanitizeKeepsDirs | bootcfg/storage/fs.go:64-68 | Two directories give one path for a name exactly when they denote one place |
| Paths.SanitizeText | bootcfg/storage/fs.go:59-69 | On texts: the components of the name, joined by slashes, behind those of the directory, for absolute, relative and empty directories |
| Paths.SanitizeTwoStage | bootcfg/storage/fs.go:59-69 | The `filepath.Join` in front changes nothing, exactly unless it cleans away a NUL byte that `sanitize` would have refused |
| Paths.SanitizeTwoStageNeedsNulFree | bootcfg/storage/fs.go:60-63 | A name with a NUL byte on which the two differ |
| Paths.CleanIdempotent | bootcfg/storage/fs.go:68 | Cleaning a cleaned path changes nothing, and a path denotes what its cleaned form denotes |
| Paths.CleanRules | bootcfg/storage/fs.go:68 | The documented rules of `path.Clean` hold between any texts |
| Paths.ResolveText | bootcfg/storage/fs.go:68 | Proper components joined by slashes denote themselves, from the top or as a relative path; the empty text cleans to `.` |
| Paths.TrailingSlash | bootcfg/storage/fs.go:68 | A slash at the end of a non-empty path makes no difference |
| Paths.CleanKeepsMeaning | bootcfg/storage/fs.go:68 | A relative path leads to the same place before and after cleaning, from every directory of the tree |
| Paths.ResolveRender | bootcfg/storage/fs.go:68 | The text of a normal path denotes that path again, so rendering is injective on normal paths |
| Paths.FileInCollection | bootcfg/storage/filestore.go:39 | A file lies at the place `collection/name`, with the name as one component, exactly when the name is plain |
| Paths.PlaceOfName | bootcfg/storage/filestore.go:39 | The exact place of every name without NUL: below its collection unless its cleaned components climb, and then below the root at what follows the climbing |
| Paths.StaysInCollection | bootcfg/storage/filestore.go:39 | A name stays in its collection's directory exactly when its cleaned components do not start with `..`, or the first one after the `..` is the collection itself |
| Paths.FilePathInjective | bootcfg/storage/filestore.go:39 | Plain names give distinct paths across all collections |
| Paths.NameLeavesCollection | bootcfg/storage/filestore.go:39 | Names with `..` reach a sibling collection's file, so plainness is needed |
| Paths.StemOfJson | bootcfg/storage/filestore.go:63 | Trimming the extension recovers the id from the file name |
| Paths.StemExact | bootcfg/storage/filestore.go:63 | Trimming the extension removes the part from the last dot on, and nothing if there is none |
| FileTrees.PlainIdFile | bootcfg/storage/filestore.go:39 | A document's file name is plain exactly when the id has no `/` and no NUL |
| Formats.GroupRoundTrip | bootcfg/storage/storagepb/group.go:16-30 | A group can be written exactly when its metadata are nil, null or an object; it is read back with canonical MACs and empty metadata nil, or is unreadable if a MAC does not parse |
| Formats.ViewSettles | bootcfg/storage/storagepb/group.go:16-30 | A group as read back is written and read again without change |
| Formats.ParsedGroup | bootcfg/storage/storagepb/group.go:154-170 | Every parsed group has nil or object metadata and a canonical selector, whatever the document |
| Formats.ProfileRoundTrip | bootcfg/storage/filestore.go:73-97 | A profile is read back unchanged unless its id is empty |
| Shapes.WriteGroupExact | bootcfg/storage/storagepb/group.go:138-150 | A group is written, exactly when its metadata allow it, as an object with the fields `id`, `name`, `profile`, `selector` and `metadata`, each if it is not empty, that describes it |
| Shapes.ParseGroupExact | bootcfg/storage/storagepb/group.go:16-30 | A document is read exactly as the group its fields describe, with normalised selectors; wrong types and unparsable MACs are refused; `null` is the empty group |
| Shapes.WriteProfileExact | bootcfg/storage/storagepb/storage.pb.go:60-92 | A profile is written as an object with its fields under their names, each if it is not empty, that describes it |
| Shapes.ParseProfileExact | bootcfg/storage/filestore.go:82-97 | A document is read exactly as the profile its fields describe, if that has an id |
| Stores.FixedStore.constructor | bootcfg/storage/testfakes/fixed_store.go:19-27 | Five empty maps |
| Stores.Values | bootcfg/storage/testfakes/fixed_store.go:45-50 | A fresh array filled by index with every value once, for any order of the keys |
| Stores.FixedStore.GroupPut | bootcfg/storage/testfakes/fixed_store.go:30-33 | The map gains or replaces the entry under the group's id; nothing else changes |
| Stores.FixedStore.GroupGet | bootcfg/storage/testfakes/fixed_store.go:36-41 | The entry under the id, or an error |
| Stores.FixedStore.GroupList | bootcfg/storage/testfakes/fixed_store.go:44-52 | A fresh slice of all values, in some order of the keys |
| Stores.FixedStore.ProfilePut | bootcfg/storage/testfakes/fixed_store.go:55-58 | The map gains or replaces the entry under the profile's id |
| Stores.FixedStore.ProfileGet | bootcfg/storage/testfakes/fixed_store.go:61-66 | The entry under the id, or an error |
| Stores.FixedStore.ProfileList | bootcfg/storage/testfakes/fixed_store.go:69-77 | A fresh slice of all values, in some order of the keys |
| Stores.FixedStore.IgnitionPut | bootcfg/storage/testfakes/fixed_store.go:80-83 | The template map gains or replaces the entry |
| Stores.FixedStore.IgnitionGet | bootcfg/storage/testfakes/fixed_store.go:86-91 | The template under the name, or an error |
| Stores.FixedStore.CloudPut | bootcfg/storage/testfakes/fixed_store.go:94-97 | The template map gains or replaces the entry |
| Stores.FixedStore.CloudGet | bootcfg/storage/testfakes/fixed_store.go:100-105 | The template under the name, or an error |
| Stores.FixedStore.GenericGet | bootcfg/storage/testfakes/fixed_store.go:108-113 | The template under the name, or an error |
| FileStores.FileStore.DirNames | bootcfg/storage/fs.go:36-42 | The sorted entries of an existing directory of the tree, or an error |
| FileStores.FileStore.GroupPut | bootcfg/storage/filestore.go:30-40 | A put that succeeds is what the next get of the id sees, as read back, and is in the next list, on any tree; one that fails changes nothing; all other files read as before; the metadata error comes exactly for metadata that are no nil, null or object, and for a plain id in existing directories it is the only error |
| FileStores.GroupPutThenList | bootcfg/storage/filestore.go:30-70 | On any tree, fresh ones included: exactly when a plain put succeeds, and that the list then exists and holds the group as read back |
| FileStores.FileStore.GroupGet | bootcfg/storage/filestore.go:43-53 | For a plain id: the parsed document at the id's own place, "bad document" if it does not parse, "no such file" if there is none; every group it returns is canonical |
| FileStores.FileStore.GroupList | bootcfg/storage/filestore.go:56-70 | The readable groups of the directory's entries in order; unreadable ones are left out |
| FileStores.FileStore.ProfilePut | bootcfg/storage/filestore.go:73-79 | The profile put is what the next get of its id sees, and is in the next list on any tree, unless its id is empty; a failed put changes nothing; all other files read as before; a plain id never fails in existing directories |
| FileStores.ProfilePutThenList | bootcfg/storage/filestore.go:73-113 | The same for profiles |
| FileStores.FileStore.ProfileGet | bootcfg/storage/filestore.go:82-97 | For a plain id: the parsed document at the id's own place or the matching error; a returned profile has an id |
| FileStores.FileStore.ProfileList | bootcfg/storage/filestore.go:99-113 | The readable profiles of the directory's entries in order |
| FileStores.FileStore.IgnitionPut | bootcfg/storage/filestore.go:116-118 | The template put is what the next get of its name sees, or nothing changes; all other files read as before; a plain name never fails in existing directories |
| FileStores.FileStore.IgnitionGet | bootcfg/storage/filestore.go:121-124 | For a plain name the bytes at its own place in the collection, or "no such file" |
| FileStores.FileStore.CloudPut | bootcfg/storage/filestore.go:127-129 | The template put is what the next get of its name sees, or nothing changes; all other files read as before; a plain name never fails in existing directories |
| FileStores.FileStore.CloudGet | bootcfg/storage/filestore.go:132-135 | For a plain name the bytes at its own place in the collection, or "no such file" |
| FileStores.FileStore.GenericGet | bootcfg/storage/filestore.go:138-141 | For a plain name the bytes at its own place in the collection, or "no such file" |
| FileStores.FileStore.constructor | bootcfg/storage/filestore.go:23-27 | A store on the given root and tree |
| FileStores.FileStore.ReadBytes | bootcfg/storage/fs.go:26-33 | The bytes of the sanitised place, or the error of sanitising or of a missing file |
| FileStores.FileStore.WriteBytes | bootcfg/storage/fs.go:46-57 | All parents are made; a write fails exactly when the place is a directory or a file is above it, and then changes nothing; one that succeeds is what the name then reads, and every name of another file reads as before |
| FileStores.FileStore.GroupEntry | bootcfg/storage/filestore.go:63-67 | One directory entry contributes its group if it can be read, and nothing otherwise |
| FileStores.FileStore.ReadGroups | bootcfg/storage/filestore.go:61-69 | The contributions of all entries, in order |
| FileStores.FileStore.ProfileEntry | bootcfg/storage/filestore.go:106-110 | One directory entry contributes its profile if it can be read, and nothing otherwise |
| FileStores.FileStore.ReadProfiles | bootcfg/storage/filestore.go:104-112 | The contributions of all entries, in order |
| FileTrees.EntriesExact | bootcfg/storage/fs.go:36-42 | A name is an entry of a directory exactly when a file or directory lies directly under it |
| FileTrees.ReadDirExact | bootcfg/storage/fs.go:36-42 | Reading a directory gives each name directly under it once, in ascending order; it fails exactly for a refused name or what is no directory |
| FileTrees.WriteExact | bootcfg/storage/fs.go:46-57 | A write fails exactly when the place is a directory or a file is above it; otherwise every directory above the place exists afterwards, the file is replaced, and nothing else changes |
| FileTrees.AtExact | bootcfg/storage/filestore.go:39 | A collection's files lie in the directory of its name, in the data directory the store was given |
| Refinement.RunAgrees | bootcfg/storage/filestore.go:30-141 | For every run of puts, gets and lists with plain names and no refused put, the file store answers every call as the map store does, up to what reading back changes, and the two stay in step |
| Refinement.StepAgrees | bootcfg/storage/filestore.go:30-141 | One such call of any kind keeps the stores in step and gets the same answer |
| Refinement.RunAgreesExact | bootcfg/storage/filestore.go:30-141 | Over a run of plain calls the two stores give the same answers throughout, up to what reading back changes, exactly when no group put has metadata other than nil, null or an object |
| Refinement.GroupPutAgreesExact | bootcfg/storage/filestore.go:30-40 | A plain group put is answered alike, and leaves the stores in step, exactly when its metadata are nil or the JSON of null or an object |
| Refinement.RefusedPutDiverges | bootcfg/storage/testfakes/fixed_store.go:30-33 | A put that the map store keeps and the file store refuses |
| Refinement.KeptRunAgrees | bootcfg/storage/filestore.go:30-141 | Over every run of plain calls, refused puts among them, the file store answers as a map store that is given the run without those puts |
| Refinement.CallMaps | bootcfg/storage/testfakes/fixed_store.go:30-113 | A call on `FixedStore` is a step of the map store in these theorems |
| Refinement.CallFiles | bootcfg/storage/filestore.go:30-141 | A call on `FileStore` is a step of the file store in these theorems |
| FileTrees.WriteAt | bootcfg/storage/fs.go:46-57 | A plain write into existing collection directories succeeds, replaces that one file and keeps the directory layout |
| FileTrees.ReadAt | bootcfg/storage/fs.go:26-33 | A plain read gives the bytes at the name's own place in its collection |
| Refinement.ProfileFound | bootcfg/storage/filestore.go:82-97 | Reading an id finds exactly the profile last put under it, if it has an id |
| Refinement.TemplateFound | bootcfg/storage/filestore.go:121-141 | Reading a name finds exactly the template stored under it |
| Refinement.GroupFound | bootcfg/storage/filestore.go:43-53 | Reading an id finds exactly what was last put under it |
| Refinement.GroupsListed | bootcfg/storage/filestore.go:56-70 | A list holds the views of the stored groups as a multiset: each readable one, no unreadable one, nothing else |
| Refinement.ProfilesListed | bootcfg/storage/filestore.go:99-113 | The same for profiles |
| Refinement.EmptyStoresAgree | bootcfg/storage/filestore.go:23-27 | Existing empty collection directories are in step with an empty map store |
| Servers.ListedOnce | bootcfg/storage/filestore.go:56-70 | Each readable stored group is listed exactly once |
| Servers.ListedExactly | bootcfg/storage/filestore.go:56-70 | A group is in the list exactly when some stored group reads back as it |
| Servers.Server.constructor | bootcfg/server/server.go:66-70 | A server on the given store |
| Servers.Server.GroupPut | bootcfg/server/server.go:72-81 | A group without id or without profile is refused and changes nothing; a valid one is put as the store puts it |
| Servers.Server.SelectGroup | bootcfg/server/server.go:132-143 | A specified answer on the listing, the store's error if it cannot be listed, and no change to the store |
| Servers.Server.ProfileGet | bootcfg/server/server.go:110-119 | The store's profile or its error; the second validity test never fails |
| Servers.Server.SelectProfile | bootcfg/server/server.go:146-157 | "No matching group" exactly when nothing is listed or matches; otherwise the profile of a selected group, or "no matching profile" |
| Servers.SelectGroupStored | bootcfg/server/server.go:132-143 | On the map store: the selected groups are exactly the stored ones that match and are outranked by no stored match, as read back; "no matching group" exactly when no stored group matches |
| Servers.SelectProfileStored | bootcfg/server/server.go:146-157 | On the map store: the answers are exactly the stored profiles named by the profile field of such groups, or "no matching profile" if there is none with an id, or "no matching group" |
| Servers.StoreDetermines | bootcfg/server/server.go:132-143 | With unambiguous keys, what reading back keeps of the selected group is determined for all labels exactly when readable stored groups whose selectors ask for the same agree on it |
| Servers.OneGroupExact | bootcfg/server/server.go:132-143 | The store selects one group for all labels exactly when no two readable stored groups ask for the same keys, octets and texts |
| Servers.OneProfileExact | bootcfg/server/server.go:146-157 | `SelectProfile` has one reply for all labels exactly when readable stored groups that ask for the same lead to the same reply |
| Servers.TwoNotationsTie | bootcfg/storage/storagepb/group.go:59-72 | Two groups with one MAC in any two notations, read back, may both be selected for some labels |
| Servers.PutChangesChoice | bootcfg/server/server.go:72-81 | After any run of plain calls, refused puts among them, a put under an id other than the winner's changes the selected selector only if the put group, as read back, matches and outranks the winner or nothing matched, and then that group is selected |
| ConcurrentListing.ListedVersionsHeld | bootcfg/storage/filestore.go:56-70 | However puts interleave with a list call, each group it returns is a complete document its file held during the call: the initial one or one a put was writing |
| ConcurrentListing.UndisturbedListedOnce | bootcfg/storage/filestore.go:56-70 | A group that parses when the directory is read and is not being written appears exactly once, in that version |
| ConcurrentListing.UndisturbedKeepsClaim | bootcfg/server/server.go:132-143 | So while other puts run a selection neither misses such a matching group nor chooses one it outranks |
| ConcurrentListing.CompleteIsGenuine | bootcfg/storage/fs.go:46-57 | A complete file holds its initial document or one that some put wrote |
| ConcurrentListing.WritingNeverParses | bootcfg/storage/fs.go:46-57 | After a moment without puts, no file ever parses while it is being written |
| ConcurrentListing.DisturbedMissed | bootcfg/storage/filestore.go:56-70 | For every readable group and matching labels, a list call that misses the group and selects "no matching group" only because the same document is being put again: being undisturbed is needed |
| JsonText.TornIsNoJson | bootcfg/storage/fs.go:56 | The text of an object cut off anywhere before its end is the text of no JSON value |
| JsonText.TextDecides | bootcfg/storage/filestore.go:35-39 | One text is the text of one JSON value, in whatever order the fields of its objects are written |
| JsonText.ArrayText | bootcfg/storage/filestore.go:35 | An array's text is its elements' texts in order, with commas between, in square brackets |
| JsonText.ObjectText | bootcfg/storage/filestore.go:35 | An object's text is its fields as key, colon and value, with commas between, in braces |
| ConcurrentListing.EndedDocument | bootcfg/storage/fs.go:56 | When the whole text has reached the file, the file holds the document that was put |
| QuietListing.PutsTakeEffectAtTheirEnd | bootcfg/storage/fs.go:46-57 | However puts interleave, every file not being written holds what the store holds after the ended puts, done one at a time in the order of their ends |
| QuietListing.EndedGroupPut | bootcfg/storage/filestore.go:30-40 | The end of a put of a group's document has the effect of `GroupPut` on the tree |
| QuietListing.QuietListed | bootcfg/storage/filestore.go:56-70 | A list call that no put overlaps returns what `GroupList` returns, in the same order if its names are sorted |
| Signing.SignatureResponseWriter.constructor | bootcfg/sign/writer.go:25-32 | Starts with its own empty headers and an empty buffer |
| Signing.SignatureResponseWriter.SetHeader | bootcfg/sign/writer.go:36-38 | Changes only the writer's own header map |
| Signing.SignatureResponseWriter.Write | bootcfg/sign/writer.go:41-45 | Appends to the buffer and touches nothing else |
| Signing.SignatureResponseWriter.WriteHeader | bootcfg/sign/writer.go:51-57 | Passes on codes other than 200; the first one passed on settles the status |
| Signing.SignatureResponseWriter.Flush | bootcfg/sign/writer.go:62-70 | Writes the whole signature, or nothing when signing fails |
| Signing.SignatureResponseWriter.Do | bootcfg/sign/writer.go:36-57 | No call of the handler sends a body byte |
| Signing.ResponseWriter.WriteHeader | bootcfg/sign/writer.go:51-57 | The first status code goes out with the headers set by then; a later one changes nothing |
| Signing.ResponseWriter.Write | bootcfg/sign/writer.go:41-45 | The first write settles 200; data is sent behind what was sent before |
| Signing.ResponseWriter.Error | bootcfg/sign/writer.go:81 | `http.Error`: its two headers, the code if none went out, the text and a newline |
| Signing.PassedResult | bootcfg/sign/writer.go:51-57 | For any calls the signing writer lets through exactly the first code other than 200 |
| Signing.FirstErrorExact | bootcfg/sign/writer.go:51-57 | That code is the first one given that is not 200 |
| Signing.FirstCodeExact | bootcfg/sign/writer.go:41-57 | What settles a plain reply is the first call that sets no header: its code, or 200 for a write, with the headers set before it |
| Signing.PlainReply | bootcfg/sign/writer.go:41-57 | For every sequence of calls the exact unsigned reply: the status of the first code or write, the headers set before it, and everything written |
| Signing.PlainBody | bootcfg/sign/writer.go:41-57 | On the plain writer the body is everything written, and a settled status stays |
| Signing.PlainStatus | bootcfg/sign/writer.go:51-57 | The plain status is the first non-200 code, or 200, exactly for settled handlers |
| Signing.SignatureHandler | bootcfg/sign/writer.go:74-85 | The wrapped handler's calls, the flush, and the error reply when signing fails |
| Signing.SignedReply | bootcfg/sign/writer.go:36-85 | For every sequence of calls the exact reply: signature of all writes with the first non-200 code or 200; on failure the error text with that code or 500, no signature byte; handler headers dropped |
| Signing.SignedMatchesPlain | bootcfg/sign/writer.go:41-85 | A successful signed reply signs exactly the plain body, and has the plain status exactly for settled handlers |
| Signing.StatusFirstSettled | bootcfg/sign/writer.go:51-57 | Handlers that give the status at most once and before any write are settled |
| Variables.LabelsFromRequest | bootcfg/http/parse.go:38-60 | The labels are the first values, or empty for a key without values; a MAC key is kept exactly if its value is an address, in lower-case colon notation; in any order of the keys |
| Variables.RequestMatchesExact | bootcfg/storage/storagepb/group.go:48-55 | A request matches a normalised selector exactly when each MAC entry names the same octets in any notation and each other entry has equal text; an unparsable or absent MAC never matches |
| Variables.EntryMetExact | bootcfg/http/parse.go:45-56 | One selector entry is matched by the labels exactly when the request meets it |
| Variables.OverwriteExact | bootcfg/http/parse.go:26-28 | After the selector loop a name holds the value of a key folding to it, or what it held before |
| Variables.CollectVariables | bootcfg/http/parse.go:17-35 | The collected variables for some order of the selector keys, with the request's labels under `query` and the raw query under `raw_query` |
| Values.DecodedInjective | bootcfg/http/parse.go:20-25 | Decoding metadata for templates loses nothing: different values stay different |
| Variables.StoredGroupsCollect | bootcfg/http/parse.go:17-35 | Succeeds for every group parsed from a stored document |
| Variables.CollectPrecedence | bootcfg/http/parse.go:17-35 | Reserved `request` over lower-cased selectors over metadata, for every name and order |
| Variables.OrderFreeExact | bootcfg/http/parse.go:26-28 | The result is free of the iteration order exactly when keys that fold together have equal values |
| Variables.DistinctKeysOrderFree | bootcfg/http/parse.go:26-28 | In particular when the lower-cased keys are distinct |
| EnvFile.Render | bootcfg/http/metadata.go:54-71 | Returns on every finite tree and writes exactly one line for each string, bool or number leaf, for some order of the maps |
| EnvFile.RenderEntry | bootcfg/http/metadata.go:56-69 | One entry: a line for a simple value, all lines below a map, none for anything else |
| EnvFile.RenderLabels | bootcfg/http/metadata.go:61-66 | The `map[string]string` case: one line for each entry |
| EnvFile.LinesAnyOrder | bootcfg/http/metadata.go:54-71 | The lines are the same multiset for every order of the maps |
| EnvFile.NameJoins | bootcfg/http/metadata.go:54-69 | A line is named by its path joined with underscores |
| EnvFile.LineExact | bootcfg/http/metadata.go:54-60 | A leaf's line is its path joined by underscores in upper case, an equals sign and its text |
| EnvFile.OutputExact | bootcfg/http/metadata.go:60 | The file is its lines with a newline after each |
| EnvFile.CollectedLeaves | bootcfg/http/parse.go:17-35 | Every leaf the metadata endpoint can write: the request's labels and raw query, each selector under its lower-cased key, and elsewhere the strings, bools and numbers of the group's metadata, as JSON prints them |
| EnvFile.EnvRoundTrip | bootcfg/http/metadata.go:54-71 | Splitting the lines at the first `=` recovers every leaf under its name and nothing else, when names are distinct, keys have no `=` or newline and values no newline |
| BootScripts.RenderIpxe | bootcfg/http/ipxe.go:17-21 | The iPXE template on the boot settings |
| BootScripts.RenderGrub | bootcfg/http/grub.go:12-20 | The GRUB template on the boot settings |
| BootScripts.CollectTokens | bootcfg/http/ipxe.go:18 | The command line tokens in sorted key order, empty values as bare keys |
| BootScripts.TokensExact | bootcfg/http/ipxe.go:18 | The arguments are those of the keys in ascending order, `key=value` or a bare key for an empty value |
| BootScripts.IpxeExact | bootcfg/http/ipxe.go:17-21 | The iPXE script to the letter |
| BootScripts.GrubExact | bootcfg/http/grub.go:12-20 | The GRUB configuration to the letter |
| BootScripts.IpxeRoundTrip | bootcfg/http/ipxe.go:17-21 | Reading the iPXE script recovers the boot settings exactly, when tokens are words and keys have no `=` |
| BootScripts.GrubRoundTrip | bootcfg/http/grub.go:12-20 | Reading the GRUB script recovers them even with blanks and empty texts, when nothing contains a quote or newline and keys have no `=` |
| BootScripts.ScriptsAgree | bootcfg/http/grub.go:12-20 | Both scripts boot the same kernel, command line and images |
| BootScripts.CmdlineReads | bootcfg/http/ipxe.go:18 | The command line recovers its map, with empty values printed as bare keys |

## Left out

- JSON lexical syntax, float formatting and invalid UTF-8: a byte string is modelled by the JSON value it
  encodes, or as bytes that are not JSON; a number is held as the text Go prints for it. Field names are
  matched exactly, as the store writes them, where `encoding/json` would also accept other letter cases.
- Nil and empty maps or slices are told apart for metadata and labels only. Nothing in the modelled code
  can see the difference for selectors, command lines and initrd lists.
- Shared references: the map store of the original keeps the caller's Group; the model keeps its value.
- Disk errors, permissions, symlinks and file modes. A path denotes a place lexically; writing makes
  missing parents, and fails where a directory or a file is in the way.
- ConcurrentListing.WritePart: a file being written shows any beginning of its document's text, cut between
  tokens or inside one; the characters of a token are not modelled.
- Write errors on the client connection, the limits of `net/http` on particular status codes, and signers
  that leave part of the message unread. `ERROR_HEADERS` are those of `http.Error`.
- `path.Clean`, `filepath.Ext`, `net.ParseMAC`, `sort.Sort` and `text/template` belong to Go's library,
  whose source is not part of this model; they follow its documentation. Ranges over maps in templates
  are in sorted key order.
- Letter case is folded character by character, by any function for variables and env files; the reserved
  key `mac` needs ASCII letters only, the only ones whose lower case is `m`, `a` or `c`.
- BootScripts.ReadGrub: `$` and `\` inside GRUB's quotes are read as themselves. A Profile without boot
  settings, for which both templates fail, is not modelled.
- User templates, Fuze, Ignition and cloud-config parsing, HTTP routing, logging, the gRPC layer, TLS, key
  rings, the command line tools and the `Copy` methods.
