# file-organizer: a verified model of the planning and execution core

The file organizer reads YAML rule files (move, rename, tag, duplicate),
scans the user's folders, plans one operation per matching file or duplicate
group, and then either only lists the plan (dry run) or runs it, recording on
every operation whether it ran, whether it succeeded and why it failed. This
project models that core in Dafny and proves what it does:

- `Common`, `Paths`: strings, case mapping, stripping, filtering, and POSIX
  paths as lists of components (`Path = seq<string>`, absolute, the root is
  `[]`), with `name`, `parent`, `suffix`, `stem`, `expanduser` and the
  rendering used for textual prefix checks.
- `FileSystem`: the filesystem as a map from path to node (a regular file with
  size, mtime, content, Finder tags and label index, or a directory), held by
  the class `Disk`, plus the primitive operations the organizer calls
  (`mkdir(parents=True, exist_ok=True)`, `os.rename`, `shutil.move`,
  `shutil.copy2`, `unlink`), each returning the exception it raises as an
  `Error` value.
- `Parser`: `Condition.matches`, `parse_size`, the `parse_*` record builders
  with their defaults, and `_load_rules` / `load_all_rules` over already
  parsed YAML documents.
- `Mover`, `Renamer`, `Tagger`, `Deduplicator`: the four action classes, each
  operation a method on a `Disk` proved equal to a function of the old
  filesystem, with lemmas about those functions.
- `Runner`: the class `Operation` (its fields `executed`, `success`, `error`
  updated in place) and the class `Runner` with its `operations` and
  `results` lists, `scan_and_plan`, the four planners, `execute`, the four
  executors and `get_summary`.
- `FileUtils`: `list_files` and `is_text_file`.
- `Insights`: `scan_directory_basic`, its file and folder records, the
  extension histogram, and the top-k and threshold selections of its report.

Everything outside the program is a parameter: the regular-expression search
of a condition, the content digest of the duplicate finder, the order in which
`rglob`, `glob` and `scandir` yield entries, the home directory used by
`expanduser`, whether the platform is macOS, and the outcome of each external
process (`xattr`, `osascript`). The fixed regular expressions of the renamer
are written out as string functions.

The model follows the code where the code and its documentation differ:

- `parse_size` tries the unit `"B"` first and gives up on the first unit that
  matches, so every string ending in `KB`, `MB`, `GB` or `TB` parses to 0 and
  such a bound is then ignored by `matches` (`Parser.ParseSizeLargeUnits`,
  `Parser.MegabyteBoundIgnored`).
- `Mover.move` makes no existence check on the destination: a move onto an
  existing file replaces it (`Mover.MoveReplacesExistingFile`).
- A move operation with a `tag` tags the old source path after the file has
  left it. Whatever colour or label the tag names, the tag call finds no file
  and the move still succeeds (`Runner.MoveTagFindsNoFile`). A tag with any
  other key makes `add_tag` raise TypeError, so the operation is recorded as
  failed even though the file has already moved (`Runner.MoveTagBadKey`).
- The numbered-copy patterns run in order, and the bare digit group runs
  first: `name (2)` with a replacement `r` becomes `name r`, keeping the space,
  because the spaced pattern never sees the brackets
  (`Renamer.ReplacedSpacedParens`).
- `_load_rules` reads a YAML document that Python treats as false (an empty
  list, 0, an empty string) as an empty mapping, so it loads no rules rather
  than raising (`Parser.LoadResult`).

## Model

| member | source | states |
|---|---|---|
| FileSystem.MkdirParents | scripts/actions/mover.py:37 | `mkdir(parents=True, exist_ok=True)` succeeds exactly when the path is already a directory or is missing with no file on its way; on success the path is a directory, nothing that existed changes, and every new entry is a directory on the path to it |
| FileSystem.MkdirParentsLonger | scripts/actions/mover.py:37 | creating a directory leaves every path longer than it as it was |
| FileSystem.OsRename | scripts/actions/renamer.py:65-66 | a missing source raises FileNotFoundError; a successful rename moves the source's node to the destination and removes the source, and renaming a file onto itself changes nothing |
| FileSystem.ShutilMove | scripts/actions/mover.py:40 | `shutil.move` succeeds only on an existing regular file |
| FileSystem.ShutilMoveKeepsDirs | scripts/actions/mover.py:40 | moving a file leaves every existing directory a directory |
| FileSystem.Copy2 | scripts/actions/mover.py:69 | `shutil.copy2` succeeds only on a regular file and writes a copy at the target (the destination, or the file of that name inside a destination directory), distinct from the source |
| FileSystem.Copied | scripts/actions/mover.py:69 | a copy keeps size, mtime and content but not the Finder tags |
| FileSystem.Unlink | scripts/actions/deduplicator.py:124-128 | `unlink` succeeds exactly on a regular file and removes only it |
| FileSystem.Disk.constructor | scripts/actions/mover.py:11-42 | a disk starts with the given filesystem |
| Parser.ExtensionKeys | scripts/parser.py:30-33 | every listed extension is lowercased and stripped of leading dots, one key per extension, in order |
| Paths.Stem | scripts/actions/renamer.py:40 | the stem followed by the suffix is the name |
| Paths.Suffix | scripts/actions/renamer.py:41 | the suffix is empty, or a dot followed by at least one non-dot character, ending the name and shorter than it |
| Paths.ExpandUser | scripts/parser.py:25 | a string not starting with `~` is unchanged; `~` and `~/…` become the home directory without trailing slashes followed by the rest, or `/` |
| Parser.Matches | scripts/parser.py:21-56 | `matches` holds exactly when all of the path-prefix, extension, name-pattern, pattern and size checks hold, each check passing when its field is unset |
| Parser.SizeWithin | scripts/parser.py:46-54 | with a bound set, the size check fails on a file that cannot be stat-ed and otherwise requires size strictly above `size_gt` and strictly below `size_lt`, a 0 or unset bound being skipped |
| Parser.VacuousConditionMatches | scripts/parser.py:24-56 | a condition whose fields are all unset or empty matches every path |
| Parser.PathPrefixIsTextual | scripts/parser.py:24-27 | the path check is textual: `/tmp/ab` matches the prefix `/tmp/a` |
| Parser.UndottedKey | scripts/parser.py:30-33 | an extension without a leading dot is only lowercased |
| Parser.SuffixKey | scripts/parser.py:30-33 | a file suffix `.X` gives the key lowercased `X` |
| Parser.PlainKey | scripts/parser.py:30-33 | a lowercase extension without a dot is its own key |
| Parser.PhotoKey | scripts/parser.py:30-33 | `photo.JPG` has the key `jpg` |
| Parser.DocumentKey | scripts/parser.py:30-33 | `doc.pdf` has the key `pdf` |
| Parser.ImageKeys | scripts/parser.py:30-33 | the list `["jpg", "png"]` keys to itself |
| Parser.DocumentNotImage | scripts/parser.py:30-33 | `pdf` is not among the keys of `["jpg", "png"]` |
| Parser.ExtensionIgnoresCase | scripts/parser.py:30-33 | `photo.JPG` matches the extension list `["jpg", "png"]` |
| Parser.ExtensionMismatch | scripts/parser.py:30-33 | `doc.pdf` does not match `["jpg", "png"]`, whatever the other fields |
| Parser.SizeBoundsStrict | scripts/parser.py:46-54 | with a size bound set, a missing file never matches, and a file whose size equals a bound does not match |
| Parser.ParseDigits | scripts/parser.py:107-110 | Python `int` of an ASCII digit string is its decimal value |
| Parser.ParseNegativeDigits | scripts/parser.py:107-110 | `int` of a minus sign followed by digits is the negated value |
| Parser.ParseDecimal | scripts/parser.py:107-110 | `int` reads back the decimal rendering of every natural number |
| Parser.ParseIntegerBadEnd | scripts/parser.py:107-110 | a string ending in a character that is neither a digit nor whitespace is not an integer |
| Parser.ScanUnitsB | scripts/parser.py:100-105 | a string ending in `B` stops the unit loop at `B`: the number before it when that parses, a `break` otherwise |
| Parser.ScanUnitsNone | scripts/parser.py:100-105 | a string not ending in `B` matches no unit |
| Parser.ParseSizeDigits | scripts/parser.py:90-110 | a plain digit string parses to its value |
| Parser.ParseSizeDigitsB | scripts/parser.py:90-110 | digits followed by `B` parse to the value of the digits |
| Parser.ParseSizeBytes | scripts/parser.py:90-110 | the decimal rendering of `n`, with or without `B`, parses to `n` |
| Parser.LetterUnitSize | scripts/parser.py:92-110 | after strip and upper-casing, any string ending in `KB`, `MB`, `GB` or `TB` gives 0 |
| Parser.ParseSizeLargeUnits | scripts/parser.py:92-110 | `parse_size` of any string that ends in `KB`, `MB`, `GB` or `TB` once stripped and upper-cased is 0 |
| Parser.ParseSizeHundredMegabytes | scripts/parser.py:90-110 | `parse_size("100MB")` is 0, not 100 MiB |
| Parser.Get | scripts/parser.py:113-165 | a YAML key that is present gives its value, an explicit null gives None, an absent key gives the default |
| Parser.SizeBound | scripts/parser.py:115-121 | a string bound goes through `parse_size`, an integer bound is kept, a missing or null bound is None |
| Parser.MegabyteBoundIgnored | scripts/parser.py:115-121 | a `"100MB"` bound becomes 0, which `matches` does not treat as a bound |
| Parser.ParseRule | scripts/parser.py:148-155 | `parse_rule` raises exactly when `condition` or `action` is an explicit null |
| Parser.ParseDuplicateRule | scripts/parser.py:158-165 | `parse_duplicate_rule` never raises on a mapping |
| Parser.ParseDefaults | scripts/parser.py:133-165 | an empty entry gives the name "Unnamed Rule", an empty condition, separator `-`, `create_if_missing` false and enabled; an empty duplicate entry gives "Unnamed Duplicate Rule", `check_by` "content" and enabled |
| Parser.LoadResult | scripts/parser.py:190-206 | a missing file, a document Python reads as false (`or {}`) and a mapping without `rules` load as no rules; loading raises exactly for a truthy non-mapping document, a null `rules` or a non-mapping entry; every loaded rule is enabled |
| Parser.LoadRules | scripts/parser.py:190-206 | the loop of `_load_rules` computes the load result: `[]` for a missing file, the parsed entries in file order with failed ones skipped, then only the enabled ones |
| Parser.LoadedRulesEnabled | scripts/parser.py:204-206 | every loaded rule is enabled |
| Parser.ParsedAll | scripts/parser.py:196-203 | when every entry parses, all of them are kept, in file order |
| Parser.LoadAll | scripts/parser.py:208-215 | `load_all_rules` succeeds exactly when all four files load, and every rule it returns is enabled |
| Parser.LoadAllRules | scripts/parser.py:208-215 | the method computes `LoadAll` |
| Mover.Target | scripts/actions/mover.py:33-34 | into an existing directory the target is that directory joined with the source's name; otherwise it is the destination |
| Mover.MoveOutcome | scripts/actions/mover.py:11-42 | a missing source raises FileNotFoundError and changes nothing; a successful move returns the computed target |
| Mover.CopyOutcome | scripts/actions/mover.py:44-71 | a missing source raises FileNotFoundError and changes nothing; a successful copy returns the computed target |
| Mover.Move | scripts/actions/mover.py:11-42 | the method leaves the filesystem and the result that the move outcome describes |
| Mover.Copy | scripts/actions/mover.py:44-71 | the method leaves the filesystem and the result that the copy outcome describes |
| Mover.MissingSource | scripts/actions/mover.py:29-30 | a missing source raises FileNotFoundError and changes nothing, for both move and copy |
| Mover.MoveRelocates | scripts/actions/mover.py:37-42 | after a move the file's node is at the returned path and no longer at the source, and every other path keeps its node |
| Mover.CopyDuplicates | scripts/actions/mover.py:66-71 | after a copy the source is unchanged and the returned path holds a file with the same content, size and mtime |
| Mover.MoveParentCreated | scripts/actions/mover.py:37 | after a successful move the parent of the returned path is a directory |
| Mover.CopyParentCreated | scripts/actions/mover.py:66 | after a successful copy the parent of the returned path is a directory |
| Mover.MoveReplacesExistingFile | scripts/actions/mover.py:24-40 | a move onto an existing file in an existing directory replaces that file |
| Renamer.Run | scripts/actions/renamer.py:44-47 | the longest prefix whose characters satisfy a test |
| Renamer.Enclosed | scripts/actions/renamer.py:45 | a bracketed group, when found, is the opening bracket, a non-empty run of digits and the closing bracket |
| Renamer.EnclosedDigits | scripts/actions/renamer.py:45 | conversely, an opening bracket, a non-empty run of digits and the closing bracket always match together, whatever follows |
| Renamer.MatchAt | scripts/actions/renamer.py:44-47 | a match of a fixed pattern is non-empty and within the string |
| Renamer.ShutUnmatched | scripts/actions/renamer.py:45-47 | no numbered-copy pattern matches at a place where its opening bracket does not occur |
| Renamer.SubShut | scripts/actions/renamer.py:45-47 | substituting a numbered-copy pattern leaves a string without its opening brackets unchanged |
| Renamer.SubSkip | scripts/actions/renamer.py:45-47 | `re.sub` copies a stretch where no match starts and carries on after it |
| Renamer.SpacedUnmatched | scripts/actions/renamer.py:46-47 | a spaced pattern cannot start inside bracket-free text that ends in a non-whitespace character |
| Renamer.MarkerSkip | scripts/actions/renamer.py:45-47 | such text passes through each numbered-copy substitution unchanged, ahead of what follows it |
| Renamer.SubWhole | scripts/actions/renamer.py:45-47 | a string that a pattern matches whole is replaced by the replacement |
| Renamer.DigitGroupWhole | scripts/actions/renamer.py:45 | `(d)` and `（d）` for a non-empty digit string d are each matched whole by the digit-group pattern |
| Renamer.SpacedBracketsWhole | scripts/actions/renamer.py:47 | ` [d]` for a non-empty digit string d is matched whole, space included |
| Renamer.ReplacedSkipped | scripts/actions/renamer.py:44 | without a truthy replacement the stem is left as it is |
| Renamer.ReplacedParens | scripts/actions/renamer.py:44-47 | with a replacement r, `w(d)` becomes w followed by r, for bracket-free w and r |
| Renamer.ReplacedWideParens | scripts/actions/renamer.py:44-47 | with a replacement r, `w（d）` becomes w followed by r |
| Renamer.ReplacedSpacedParens | scripts/actions/renamer.py:44-47 | `w (d)` becomes w, a space and r: the digit-group pattern removes `(d)` before the spaced pattern can take the space |
| Renamer.ReplacedBrackets | scripts/actions/renamer.py:44-47 | `w [d]` becomes w followed by r, the space removed, when w does not end in whitespace |
| Renamer.ReplacedTail | scripts/actions/renamer.py:46-47 | the two spaced patterns leave a bracket-free string unchanged |
| Renamer.NewStem | scripts/actions/renamer.py:44-59 | the derived stem exists exactly when the separator is a non-empty string; with a one-character separator it has no doubled separator and none at either end, and when the replaced stem is non-empty and neither it nor a truthy prefix or suffix holds the separator, it is exactly prefix, replaced stem and suffix joined by one separator each |
| Renamer.NewName | scripts/actions/renamer.py:40-62 | the new name exists exactly when the derived stem does, and it is that stem followed by the old suffix |
| Renamer.NewNameKeepsExtension | scripts/actions/renamer.py:40-62 | when the file has a suffix and the derived stem is non-empty, the new name's stem is that stem and its suffix is the old one: the extension survives the rename |
| Renamer.Rename | scripts/actions/renamer.py:11-68 | the method leaves the filesystem and the result that the rename outcome describes |
| Renamer.RenameMissing | scripts/actions/renamer.py:37-38 | a missing file raises FileNotFoundError and changes nothing, for `rename` and for `clean_garbled` |
| Renamer.RenameTouchesOnlyOnChange | scripts/actions/renamer.py:62-68 | a successful `rename` returns the parent joined with the derived name; the filesystem changes only when that path differs, and then the file is at the new path and gone from the old one |
| Renamer.RelocateTouchesOnlyOnChange | scripts/actions/renamer.py:62-66 | the last step of both renames: a success always returns the target; the path is returned unchanged when it is the same, otherwise `os.rename` moves the node |
| Renamer.CleanTouchesOnlyOnChange | scripts/actions/renamer.py:99-104 | a successful `clean_garbled` returns the path made of the cleaned stem and the old suffix; the filesystem changes only when that path differs, and then the file is there |
| Renamer.CollapseNoDoubled | scripts/actions/renamer.py:58 | after collapsing, no separator character follows another |
| Renamer.CollapseRun | scripts/actions/renamer.py:58 | a run of separators collapses to one |
| Renamer.CollapseNone | scripts/actions/renamer.py:58 | a string without the separator is left as it is |
| Renamer.TrimNoDoubled | scripts/actions/renamer.py:59 | stripping the separator from the ends keeps "no doubled separator" |
| Renamer.TidyOneChar | scripts/actions/renamer.py:58-59 | after cleanup with a one-character separator there is no doubled separator and none at either end |
| Renamer.OneCharSeparator | scripts/actions/renamer.py:44-59 | with a one-character separator every derived stem has no doubled or edge separator |
| Renamer.TidyJoinedWords | scripts/actions/renamer.py:58-59 | two words joined by a run of separators end up joined by one |
| Renamer.CollapseIdle | scripts/actions/renamer.py:58 | collapsing leaves a string with no doubled separator unchanged |
| Renamer.JoinedApart | scripts/actions/renamer.py:50-55 | separator-free words joined by the separator have no doubled separator and none at either end |
| Renamer.TidyFacts | scripts/actions/renamer.py:58-59 | the cleanup of a joined stem has no doubled or edge separator, and leaves separator-free words joined by one separator exactly as they are |
| Renamer.PrefixJoins | scripts/actions/renamer.py:50-51 | a separator-free prefix gives prefix, separator, stem for a separator-free stem |
| Renamer.SuffixJoins | scripts/actions/renamer.py:54-55 | a separator-free suffix gives stem, separator, suffix for a separator-free stem |
| Renamer.NumberedCopyRenamed | scripts/actions/renamer.py:44-59 | with a replacement r and no prefix or suffix, the stem `w(d)` becomes w followed by r |
| Renamer.PrefixName | scripts/actions/renamer.py:50-62 | a prefix is joined to the whole old name, suffix kept, by one separator |
| Renamer.PrefixExample | scripts/actions/renamer.py:50-62 | `vacation.png` with prefix `IMG` and separator `-` becomes `IMG-vacation.png` |
| Renamer.CollapseExample | scripts/actions/renamer.py:58-62 | `my--file.txt` becomes `my-file.txt` with no options |
| Renamer.CleanGarbled | scripts/actions/renamer.py:70-104 | the method leaves the filesystem and the result that the cleanup outcome describes |
| Renamer.SpacesSingle | scripts/actions/renamer.py:96 | after collapsing whitespace no whitespace character follows a space |
| Renamer.SpacesKeepClean | scripts/actions/renamer.py:92-96 | collapsing whitespace adds no control character or removed symbol |
| Renamer.CleanStemIsClean | scripts/actions/renamer.py:92-97 | the cleaned stem holds no control character in U+0000-001F or U+007F-009F, none of the symbols removed, and no run of whitespace |
| Renamer.CleanStemTrimmed | scripts/actions/renamer.py:97 | the cleaned stem neither starts nor ends with whitespace, and it is empty exactly when the stem has no character that is neither garbled nor whitespace |
| Renamer.FilterStrip | scripts/actions/renamer.py:97 | stripping removes whitespace only |
| Renamer.FilterSpaces | scripts/actions/renamer.py:96 | replacing whitespace runs by a space removes and adds whitespace only |
| Renamer.FilterTwice | scripts/actions/renamer.py:92-93 | the two deletions keep exactly the characters that are neither control characters nor removed symbols, in order |
| Renamer.CleanStemKeepsText | scripts/actions/renamer.py:92-97 | ignoring whitespace, the cleaned stem is exactly the stem's clean characters, in order |
| Renamer.SpacesBlank | scripts/actions/renamer.py:96 | after the substitution the only whitespace character is the plain space |
| Renamer.CleanStemBlanks | scripts/actions/renamer.py:96-97 | every whitespace character left in the cleaned stem is a plain space |
| Renamer.SpacesIdle | scripts/actions/renamer.py:96 | a string whose whitespace is single plain spaces is left unchanged by the substitution |
| Renamer.CleanStemFixed | scripts/actions/renamer.py:92-97 | a stem that is clean, single-spaced with plain spaces and trimmed is left as it is |
| Renamer.CleanStemIdempotent | scripts/actions/renamer.py:92-97 | cleaning a cleaned stem changes nothing |
| Tagger.ColorIndexRange | scripts/actions/tagger.py:94-102 | every palette colour has a Finder label index from 1 to 7 |
| Tagger.Tags | scripts/actions/tagger.py:53-61 | the tag list holds the lowercased colour only if it is a palette name, followed by the label only if it is non-empty |
| Tagger.FirstColorIndex | scripts/actions/tagger.py:104-111 | the fallback index is at most 7, and 0 exactly when no tag is a palette colour |
| Tagger.FirstColorWins | scripts/actions/tagger.py:107-111 | the index is that of the first tag, in list order, whose lowercase is a palette name |
| Tagger.LabelIndex | scripts/actions/tagger.py:104-111 | the loop with `break` computes that first palette index |
| Tagger.AddTagOutcome | scripts/actions/tagger.py:27-84 | a failed `add_tag` leaves the filesystem unchanged |
| Tagger.AddTag | scripts/actions/tagger.py:27-84 | the method leaves the filesystem and the result that the tagging outcome describes |
| Tagger.AddTagRefuses | scripts/actions/tagger.py:44-64 | off macOS, on a missing file, or with an empty tag list, `add_tag` returns False and changes nothing |
| Tagger.AddTagTrueOnceRun | scripts/actions/tagger.py:66-84 | otherwise `add_tag` returns True exactly when `xattr` exits 0, or exits non-zero and the AppleScript fallback runs without raising |
| Tagger.AddTagTouchesOnlyPath | scripts/actions/tagger.py:66-80 | tagging changes no path other than the tagged file |
| Tagger.AddThenGetTags | scripts/actions/tagger.py:66-80 | after a successful `xattr` write, `get_tags` returns the tag list written |
| Tagger.FallbackUsesColor | scripts/actions/tagger.py:76-78 | when `xattr` fails, the fallback sets the label index of the colour given |
| Tagger.FallbackLabelAsColor | scripts/actions/tagger.py:104-111 | a label that is itself a palette name sets that colour's index |
| Tagger.FallbackWithoutColor | scripts/actions/tagger.py:104-111 | with no palette tag the fallback sets the label index 0 |
| Tagger.RemoveTagOutcome | scripts/actions/tagger.py:125-158 | `remove_tag` returns True exactly on macOS, on an existing file, when the delete command runs; otherwise nothing changes |
| Tagger.RemoveTag | scripts/actions/tagger.py:125-158 | the method leaves the filesystem and the result that the removal outcome describes |
| Tagger.RemoveThenGetTags | scripts/actions/tagger.py:140-158 | after a successful removal `get_tags` returns `[]` |
| Tagger.GetTags | scripts/actions/tagger.py:160-193 | `get_tags` returns `[]` off macOS, on a missing file, or when the read fails, and when the `xattr` read exits with 0 it returns exactly the tags recorded on the file |
| Deduplicator.CheckByOf | scripts/actions/deduplicator.py:26-29 | grouping is by name exactly when `check_by` is "name"; any other value groups by content |
| Deduplicator.KeyOf | scripts/actions/deduplicator.py:31-57 | by name the key is the final path component; by content a file has a key exactly when it is a regular file that can be read |
| Deduplicator.Order | scripts/actions/deduplicator.py:31-57 | the keys in first-seen order, each once, covering every file that has a key |
| Deduplicator.GroupsOf | scripts/actions/deduplicator.py:33-39 | the list for each key holds the files with that key, in input order |
| Deduplicator.Duplicates | scripts/actions/deduplicator.py:39 | every returned group has at least two members, all of them input files |
| Deduplicator.FindDuplicates | scripts/actions/deduplicator.py:11-57 | the bucket-filling loops of `_find_by_name` and `_find_by_content` compute the groups of `Duplicates` |
| Deduplicator.LongLists | scripts/actions/deduplicator.py:57 | the loop over the buckets keeps exactly the lists longer than one |
| Deduplicator.SameGroupSameKey | scripts/actions/deduplicator.py:31-57 | files in one group share a key |
| Deduplicator.SameKeySameGroup | scripts/actions/deduplicator.py:31-57 | two input files with the same key are in one group |
| Deduplicator.GroupsDisjoint | scripts/actions/deduplicator.py:31-57 | a file is in at most one group |
| Deduplicator.UnreadableInNoGroup | scripts/actions/deduplicator.py:46-54 | by content, a non-regular file or one whose hashing raises is in no group |
| Deduplicator.ByNameGrouping | scripts/actions/deduplicator.py:35-36 | by name, two input files share a group exactly when their names are equal |
| Deduplicator.ByContentGrouping | scripts/actions/deduplicator.py:46-54 | by content, two input files share a group exactly when both hash and the digests are equal |
| Deduplicator.FirstMissing | scripts/actions/deduplicator.py:89-94 | the index of the first group member that cannot be stat-ed |
| Deduplicator.NewestIndex | scripts/actions/deduplicator.py:90-91 | the first member with maximal mtime |
| Deduplicator.OldestIndex | scripts/actions/deduplicator.py:92-93 | the first member with minimal mtime |
| Deduplicator.SelectKeep | scripts/actions/deduplicator.py:89-94 | the kept file is a group member; any policy other than newest and oldest keeps the first; newest and oldest raise exactly when some member cannot be stat-ed |
| Deduplicator.KeepNewest | scripts/actions/deduplicator.py:90-91 | "newest" keeps the first member with maximal mtime |
| Deduplicator.KeepOldest | scripts/actions/deduplicator.py:92-93 | "oldest" keeps the first member with minimal mtime |
| Deduplicator.NewestExample | scripts/actions/deduplicator.py:89-94 | with mtimes 10:00, 10:05 and 10:02, "newest" keeps the second file |
| Deduplicator.TrashOutcome | scripts/actions/deduplicator.py:110-128 | `_move_to_trash` raises only on macOS when the Finder script raises; it touches only the given path; elsewhere it removes a regular file and catches the failed unlink of anything else |
| Deduplicator.MoveToTrash | scripts/actions/deduplicator.py:110-128 | the method leaves the filesystem and the error that the trash outcome describes |
| Deduplicator.DisposeOne | scripts/actions/deduplicator.py:101-108 | handling one file touches only that file; tagging it raises nothing and removes nothing |
| Deduplicator.Dispose | scripts/actions/deduplicator.py:101-108 | the method leaves the filesystem and the error that handling one file describes |
| Deduplicator.HandleOutcome | scripts/actions/deduplicator.py:85-86 | a group of fewer than two files is left alone, so a group reduced to its kept file is a no-op |
| Deduplicator.HandleDuplicates | scripts/actions/deduplicator.py:69-108 | the loop of `handle_duplicates` computes the handling outcome |
| Deduplicator.HandledOnce | scripts/actions/deduplicator.py:97-99 | the files handled are the group without the kept file, each as often as it occurs in the group |
| Deduplicator.DisposeEachKeepsOthers | scripts/actions/deduplicator.py:97-108 | handling a list of files leaves every other path as it was |
| Deduplicator.KeptUntouched | scripts/actions/deduplicator.py:97-108 | the kept file is left as it was |
| Deduplicator.UnlinkEach | scripts/actions/deduplicator.py:124-128 | off macOS, trashing a list raises nothing and removes exactly the regular files among them, processing continuing past failed unlinks |
| Deduplicator.HandleDeletes | scripts/actions/deduplicator.py:97-128 | off macOS without tagging, every regular member other than the kept file is removed and the kept file stays |
| Deduplicator.TaggingRemovesNothing | scripts/actions/deduplicator.py:101-105 | with `tag_duplicates` no file is removed and no error is raised |
| Runner.Operation.constructor | scripts/runner.py:18-25 | a new operation holds its rule name, kind, source and details and starts with `executed` and `success` false and no error |
| Runner.Records | scripts/runner.py:15-25 | the planned record of every operation, one per operation, in order |
| Runner.Scanned | scripts/runner.py:95-109 | `_scan_directory` yields only regular files: nothing for a missing path, the file itself for a file |
| Runner.ScanDirectory | scripts/runner.py:95-109 | the loop over `rglob` computes `Scanned` |
| Runner.AnyKept | scripts/runner.py:118-120 | the search for a kept file succeeds exactly when the filter is non-empty |
| Runner.OpsFor | scripts/runner.py:111-177 | one operation per source, in order, each carrying the rule name, kind and details |
| Runner.PlanMove | scripts/runner.py:111-131 | a move rule without `condition.path` plans nothing; otherwise each matching scanned file gives one "move" operation carrying the expanded destination, `create_if_missing` and tag, and a rule without destination raises at its first match |
| Runner.OpsOver | scripts/runner.py:133-177 | every operation planned over several lists carries the rule's name, kind and details |
| Runner.MatchingLists | scripts/runner.py:133-177 | one list of matches per scanned folder |
| Runner.ScannedAll | scripts/runner.py:186-188 | the concatenated scans hold only regular files |
| Runner.ScanAll | scripts/runner.py:186-188 | the loop concatenating the scans computes `ScannedAll` |
| Runner.GroupOps | scripts/runner.py:195-205 | one "duplicate" operation per group, with the group's first file as source and the group and action as details |
| Runner.PlanMoves | scripts/runner.py:78-79 | every operation planned from the move rules is a move carrying move details |
| Runner.PlanRenames | scripts/runner.py:82-83 | every operation planned from the rename rules is a rename carrying rename details |
| Runner.PlanTags | scripts/runner.py:86-87 | every operation planned from the tag rules is a tag carrying tag details |
| Runner.PlanDuplicates | scripts/runner.py:90-91 | every operation planned from the duplicate rules is a duplicate carrying duplicate details |
| Runner.TagArgs | scripts/runner.py:262-264 | `add_tag(**tags)` raises TypeError exactly when a key other than `color` or `label` is given, and passes each given key |
| Runner.OpOutcome | scripts/runner.py:215-236 | an operation of unknown kind succeeds with no effect |
| Runner.RunAll | scripts/runner.py:215-236 | one outcome per operation |
| Runner.CountKind | scripts/runner.py:278-289 | a kind is counted at most once per operation |
| Runner.KindsPartition | scripts/runner.py:278-289 | when every kind is one of the four, the four counts sum to the number of operations |
| Runner.Runner.constructor | scripts/runner.py:42-49 | a runner starts with its dry-run flag and no operations or results |
| Runner.Runner.GetSummary | scripts/runner.py:278-289 | `total` is the number of operations, the dry-run flag is reported, and the four counts sum to `total` when every kind is known |
| Runner.Runner.Append | scripts/runner.py:121-131 | appending adds exactly one planned operation at the end |
| Runner.Runner.AppendKept | scripts/runner.py:118-131 | the loop appends one operation per kept file, in order |
| Runner.Runner.PlanMoveOperations | scripts/runner.py:111-131 | `_plan_move_operations` appends exactly the operations of `PlanMove` and raises its error |
| Runner.Runner.AppendMatching | scripts/runner.py:143-157 | the loop appends one operation per matching file of one folder |
| Runner.Runner.AppendOver | scripts/runner.py:142-157 | the loop appends one operation per matching file, folder by folder |
| Runner.Runner.PlanRenameOperations | scripts/runner.py:133-157 | `_plan_rename_operations` appends exactly the rename operations planned over the three fixed folders |
| Runner.Runner.PlanTagOperations | scripts/runner.py:159-177 | `_plan_tag_operations` appends exactly the tag operations planned over the three fixed folders |
| Runner.Runner.AppendGroups | scripts/runner.py:195-205 | the loop appends one operation per duplicate group |
| Runner.Runner.PlanDuplicateOperations | scripts/runner.py:179-205 | `_plan_duplicate_operations` appends exactly the operations for the duplicate groups of the two scanned folders |
| Runner.Runner.PlanAllMoves | scripts/runner.py:78-79 | planning the move rules appends their operations in rule order and stops at the first error |
| Runner.Runner.PlanAllRenames | scripts/runner.py:82-83 | planning the rename rules appends their operations in rule order |
| Runner.Runner.PlanAllTags | scripts/runner.py:86-87 | planning the tag rules appends their operations in rule order |
| Runner.Runner.PlanAllDuplicates | scripts/runner.py:90-91 | planning the duplicate rules appends their operations in rule order |
| Runner.Runner.PlanRuleSet | scripts/runner.py:74-93 | from an empty list, the operations planned from loaded rules are the move, rename, tag and duplicate plans in that order |
| Runner.Runner.ScanAndPlan | scripts/runner.py:72-93 | `scan_and_plan` replaces the list by the plan of the loaded rule files, or stops with the load or planning error |
| Runner.Runner.Execute | scripts/runner.py:207-238 | in a dry run nothing changes and `[]` is returned; otherwise every operation runs in order on the filesystem, each ends executed, succeeds exactly when its handler raised nothing, records what it raised, and the results are the operations, one each |
| Runner.ExecuteMove | scripts/runner.py:240-250 | `_execute_move` creates the destination when asked, moves the file, then tags the old source path |
| Runner.ExecuteRename | scripts/runner.py:252-260 | `_execute_rename` renames with the operation's details |
| Runner.ExecuteTag | scripts/runner.py:262-264 | `_execute_tag` calls `add_tag` and ignores its result |
| Runner.ExecuteDuplicate | scripts/runner.py:266-276 | `_execute_duplicate` handles the group with the action's keep policy, tagging flag and label, and raises on a null action |
| Runner.Handle | scripts/runner.py:217-224 | the dispatch on the operation kind runs its handler |
| Runner.ExecuteAll | scripts/runner.py:215-236 | the loop of `execute` runs every operation in order, catches what each raises and records it on that operation |
| Runner.ExecuteAt | scripts/runner.py:215-236 | one step of that loop extends the run by the next operation |
| Runner.ExecuteOne | scripts/runner.py:216-236 | one operation runs and ends executed, with success exactly when nothing was raised |
| Runner.PlanMovesStops | scripts/runner.py:78-79 | once a move rule raises, the later move rules plan nothing |
| Runner.PlanConsistent | scripts/runner.py:72-93 | every planned operation has one of the four kinds and carries that kind's details |
| Runner.PlanOrder | scripts/runner.py:74-93 | in every plan all moves come before all renames, which come before all tags, which come before all duplicates |
| Runner.PlanSummary | scripts/runner.py:278-289 | for every plan, the four counts of the summary sum to its total |
| Runner.OpsOverFrom | scripts/runner.py:138-157 | every planned operation's source was matched in some folder |
| Runner.OpsOverCovers | scripts/runner.py:138-157 | every matched file is the source of some planned operation |
| Runner.OpsOverSources | scripts/runner.py:138-157 | a file is the source of a planned operation exactly when it was matched in some folder |
| Runner.RenameSources | scripts/runner.py:133-157 | rename operations carry the rule's rename fields, and a file is a source exactly when it matches in one of Downloads, Documents or Desktop, whatever the condition path |
| Runner.TagSources | scripts/runner.py:159-177 | tag operations carry the rule's tags, and a file is a source exactly when it matches in one of the three fixed folders |
| Runner.DuplicateOperations | scripts/runner.py:179-205 | one duplicate operation per group found over Downloads and Documents, its source the group's first file and every member a scanned regular file |
| Runner.UnknownKindNoEffect | scripts/runner.py:215-236 | an unknown kind leaves the filesystem unchanged and counts as success |
| Runner.MoveOp | scripts/runner.py:240-250 | without `create_if_missing`, a missing source records FileNotFoundError and changes nothing |
| Runner.RenameOp | scripts/runner.py:252-260 | a rename operation that raises leaves the filesystem as it was |
| Runner.TagOp | scripts/runner.py:262-264 | a tag operation changes the node of no path other than the source |
| Runner.TagOpOffMacOS | scripts/runner.py:262-264 | off macOS a tag operation succeeds and changes nothing |
| Runner.DuplicateOp | scripts/runner.py:266-276 | a duplicate operation with an action and fewer than two files does nothing |
| Runner.MoveTagFindsNoFile | scripts/runner.py:240-250 | a move that relocates the file succeeds whatever colour or label its tag names, because the tag call finds no file at the old source |
| Runner.MoveTagBadKey | scripts/runner.py:240-250 | a tag with a key other than `color` or `label` records TypeError, yet the file has already left the source for its target |
| FileUtils.StrLessTransitive | scripts/utils/file_utils.py:40 | Python's string order is transitive |
| FileUtils.StrLessTotal | scripts/utils/file_utils.py:40 | Python's string order is total |
| FileUtils.PathLessTransitive | scripts/utils/file_utils.py:40 | the order of paths is transitive |
| FileUtils.PathLessTotal | scripts/utils/file_utils.py:40 | the order of paths is total |
| FileUtils.InsertPath | scripts/utils/file_utils.py:40 | insertion adds exactly one path |
| FileUtils.SortPaths | scripts/utils/file_utils.py:40 | sorting is a permutation |
| FileUtils.SortPathsSorted | scripts/utils/file_utils.py:40 | sorting gives a list with no path followed by a smaller one |
| FileUtils.ListFiles | scripts/utils/file_utils.py:21-40 | the loop of `list_files` computes the sorted filtered glob |
| FileUtils.ListedSorted | scripts/utils/file_utils.py:40 | the listing is sorted |
| FileUtils.ListedMembers | scripts/utils/file_utils.py:27-38 | a missing directory lists nothing; otherwise a path is listed exactly when the glob yields it, it is a regular file, and it is not hidden unless hidden files are asked for |
| FileUtils.HiddenDirectoryListed | scripts/utils/file_utils.py:36-37 | a visible file inside a hidden directory is still listed |
| FileUtils.IsTextFile | scripts/utils/file_utils.py:50-59 | a text file always has a suffix |
| FileUtils.TextFileBySuffix | scripts/utils/file_utils.py:52-59 | a name with a stem is a text file exactly when its last suffix, lowercased, is one of the fixed text extensions |
| FileUtils.DotfileNotText | scripts/utils/file_utils.py:52-59 | a dotfile such as `.sh` is never a text file |
| Insights.InsertDesc | scripts/utils/insights.py:72 | insertion adds exactly one element |
| Insights.SortDesc | scripts/utils/insights.py:72 | `sorted(..., reverse=True)` is a permutation |
| Insights.SortDescOrdered | scripts/utils/insights.py:72 | the sorted list is in non-increasing key order |
| Insights.SortDescStable | scripts/utils/insights.py:72 | elements with equal keys keep their input order |
| Insights.BumpValue | scripts/utils/insights.py:51 | incrementing a count raises that key's value by one and no other |
| Insights.BumpTotal | scripts/utils/insights.py:51 | incrementing a count raises the total by one |
| Insights.BumpDistinct | scripts/utils/insights.py:51 | the counts keep one entry per key |
| Insights.SplitExt | scripts/utils/insights.py:42 | `os.path.splitext` gives an extension that is empty or starts with a dot and ends the name |
| Insights.ExtOf | scripts/utils/insights.py:42 | the recorded extension never starts with a dot |
| Insights.ExtOfAt | scripts/utils/insights.py:42 | the extension is the lowercased text after the last dot, or empty when only dots come before it |
| Insights.ExtOfStemmed | scripts/utils/insights.py:42 | a name `stem.ext` with a real stem records `ext` lowercased |
| Insights.ExtOfDotfile | scripts/utils/insights.py:42 | a dotfile records no extension |
| Insights.FileRecordsAre | scripts/utils/insights.py:39-53 | one record per file entry whose stat succeeds, in scan order, holding its name, size and extension; a failed stat adds nothing |
| Insights.FolderRecordsAre | scripts/utils/insights.py:55-68 | one record per directory entry, in scan order, holding its name and the number of regular files directly inside it |
| Insights.CountDirectFiles | scripts/utils/insights.py:57-63 | the counting loop counts the regular files of the listing, keeping the partial count when the listing fails |
| Insights.ScanEntries | scripts/utils/insights.py:38-69 | the scan loop builds the file records, the folder records and both count dictionaries |
| Insights.ScanDirectoryBasic | scripts/utils/insights.py:10-89 | `scan_directory_basic` computes the report of `Basic`: the error record for a missing path, the raised error for a non-directory or failed listing, and otherwise the summary |
| Insights.MissingPathNotScanned | scripts/utils/insights.py:29-31 | a missing path gives the error record, whatever the listings and stats |
| Insights.HistogramCounts | scripts/utils/insights.py:42-53 | the extension histogram has one entry per extension, counts exactly the files with that extension, and sums to the number of files |
| Insights.FolderCountsFrom | scripts/utils/insights.py:65-69 | every folder count belongs to a folder record with that name and count |
| Insights.ReportTotals | scripts/utils/insights.py:81-82 | `total_files` is the number of file entries whose stat succeeded and `total_folders` the number of directory entries |
| Insights.TakeOrdered | scripts/utils/insights.py:73 | a prefix of an ordered list is ordered and no later element is larger than any element in it |
| Insights.SortDescLength | scripts/utils/insights.py:72 | sorting keeps the length |
| Insights.TopFilesStable | scripts/utils/insights.py:72-73 | among `top_files` of equal size, scan order is kept |
| Insights.ReportTopFiles | scripts/utils/insights.py:72-73 | `top_files` has min(20, number of files) entries in non-increasing size, ties in scan order, and no file left out is larger than one kept |
| Insights.ReportLargeFiles | scripts/utils/insights.py:74 | `large_files` has at most 10 entries, all above 50 MiB, and is the first of them in scan order |
| Insights.ReportOrdered | scripts/utils/insights.py:77-85 | `folders` is a permutation of the folder records in non-increasing count; `by_extension` has at most 15 entries and `by_folder` at most 10, each in non-increasing count |
| Insights.ReportExtensionCounts | scripts/utils/insights.py:84 | each `by_extension` entry counts exactly the files with that extension |
| Insights.ReportFolderCounts | scripts/utils/insights.py:85 | each `by_folder` entry is the name and count of a scanned folder |

## Left out

- `scripts/organizer.py` (command line, environment checks, guide printing, init) and `scripts/config.py` (YAML settings) are not part of this model: they are input and output only.
- YAML parsing: `_load_rules` takes each rule file as an already parsed document, a list of entries whose keys are present, null or absent; a file that fails to parse as YAML is not modelled. Every field value is assumed to have the type the code expects: `extension` a list of strings, `enabled` and the other flags booleans, `size_gt`/`size_lt` an integer or a string, `tag` a mapping. Other YAML values behave differently in Python: a bare string `extension` is iterated character by character, a string `enabled: "false"` is truthy, and a float size bound bypasses `parse_size`. Those cases are not modelled.
- Regular expressions: `name_pattern` and `pattern` go through a search function given as a parameter; `re.search` raising on a malformed pattern is not modelled.
- `parse_size` reads numbers as an optional sign followed by ASCII digits, after stripping whitespace; fractional numbers, underscores and other forms that Python's `float` accepts are not modelled. A number before a unit goes through `float` in the code (`scripts/parser.py:101`), which rounds integers above 2^53; the model reads it exactly (`Parser.ScanUnitsB`).
- Logging, `_setup_logging` and `OperationResult`: the results list holds the operations themselves, and `OperationResult.timestamp` is not modelled, because it reads the clock.
- Error messages: a raised exception is recorded as an `Error` value naming its kind and path, not as the message string.
- `_hash_file`: SHA-256 over chunked reads is a digest function of the file's content, given as a parameter; a read that raises is a file without content.
- External processes (`xattr`, `osascript`, `plistlib` and base64 in the tagger, the Finder trash script in the deduplicator) are an environment parameter giving each call's outcome: exit code or raised. What they do to a file is modelled as the Finder tags and label index recorded on its node.
- `Path.resolve()` before the AppleScript calls is not modelled: paths are absolute already.
- Traversal order: the order in which `rglob`, `glob` and `os.scandir` yield entries is given as a parameter.
- `os.path.expanduser` and `Path.expanduser`: the home directory is a parameter; the `~user` form is left unexpanded.
- Relative paths are not modelled: all paths are absolute component lists.
- Directory sources for move, copy and rename are not modelled: these operations act on regular files.
- `format_size`, `get_file_size`, `ensure_directory` and `Deduplicator.get_file_info` are not modelled separately; `ensure_directory` is the same call as `FileSystem.MkdirParents`.
- Floating point: `size_mb` and `total_size_mb` in the insights report are rounded megabytes; the model keeps sizes in bytes (`Insights.TotalSize`).
- `generate_analysis_prompt` and `format_insights_for_user` only format text and are not modelled.
- The `include_subdirs` parameter of `scan_directory_basic` is never read by the code, so the model has no such parameter.
- `os.scandir` raising on the top-level directory: the listing carries a `raised` flag and the scan returns `ListingFailed`; the partial records built before the failure are not kept.
- Runner.Runner.Execute: requires that every operation carries the details of its kind, as every planned operation does (`Runner.PlanConsistent`), and that no operation occurs twice in the list; operations built by hand with mismatched details are not modelled.
- Runner.Runner.ScanAndPlan: does not state that the new operations are freshly allocated objects.
- Runner.OpOutcome: its contract states only the unknown-kind case; the other kinds are specified by `Runner.MoveOp`, `Runner.RenameOp`, `Runner.TagOp` and `Runner.DuplicateOp`, which the handler methods are proved against.
- Runner.RunAll: its contract states only the number of outcomes; how each outcome arises is stated by the step lemma that `Runner.ExecuteAt` uses.
- Renamer.MatchAt: its contract bounds the match only; what each numbered-copy pattern matches is stated by `Renamer.EnclosedDigits`, `Renamer.ShutUnmatched`, `Renamer.SpacedUnmatched`, `Renamer.DigitGroupWhole` and `Renamer.SpacedBracketsWhole`, and what the separator and whitespace patterns do by the collapse and whitespace lemmas.
- Renamer.Sub: the replacement, and the separator used as one, is inserted literally; the template syntax of `re.sub` (group references, and escapes that raise) is not modelled.
- Common.IsDigit, Common.Lower and Common.Upper: cover ASCII only, whereas Python's `\d`, `int`, `str.lower` and `str.upper` follow Unicode; this affects `Renamer.MatchAt`, `Parser.ParseSize`, `Parser.ExtensionKeys`, `FileUtils.IsTextFile` and `Insights.ExtOf` on non-ASCII input. Whitespace (`\s`, `str.strip`) is Python's full set.
- Insights.ReportLargeFiles and the other report lemmas are stated over the file and folder records; `Insights.FileRecordsAre` and `Insights.FolderRecordsAre` connect those records to the directory entries.
- Tagger: tagging the root path is not modelled; `Tagger.AddThenGetTags` and the fallback lemmas require a path other than the root.
- Concurrency and changes to the filesystem made by other processes between planning and execution are not modelled.
