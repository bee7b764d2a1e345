# Project-structure generator: verified model of the tree-text builder and serializer

The repository has two front ends, a Tk GUI (`TKcreate_structure.py`) and a console
script (`create_structureConsole.py`). Both turn a directory tree drawn in text form, for
example

```
my_bot/
├── bot.py
├── handlers/
│   └── __init__.py
└── data/
```

into real directories and empty files. The GUI can also walk an existing directory and
write it out in the same notation. This project models that core in Dafny:

- **Text** (`text.dfy`): the string operations both programs lean on. These are
  `str.strip()` with Python's whitespace set, `str.replace(pat, '')`, `split('\n')`,
  `'\n'.join`, `file.readlines()`, and the count of leading tree glyphs.
- **FileSystem** (`filesystem.dfy`): a filesystem as a map from component paths to
  `Directory` or `File(content)`. It gives the contracts of `os.makedirs(exist_ok=True)`,
  `open(.., 'w')`, `open(.., 'r')`, `os.path.getsize` and `os.path.dirname`. It also
  holds a `FileSystem` class whose `entries` field the methods update in place.
- **Builder** (`builder.dfy`): one step per line, stated as functions (`Step`, `Run`). It
  also has the imperative methods that mirror the source loops: `Build`, `ProcessLine`,
  `CountGlyphs`, `PopTo`, `CreateEntry` and `CreateActualStructure`. Each method is
  proved against those functions. GUI and console share one model: the GUI joins paths
  onto its base directory; the console uses the empty base, the working directory.
- **BuilderFacts** (`builder_facts.dfy`): what one line does to the stack and the
  filesystem. Also: the `'\n'` that `readlines()` keeps changes nothing, and running the
  same text twice gives the filesystem the first run gave.
- **Serializer** (`serializer.dfy`): `generate_project_structure` as written. It sorts
  the listing, picks a pointer per item and recurses into directories with a grown
  prefix. Each recursive result is joined as one element. Beside it is a flat reference,
  `Lines`, which renders a tree in its listing order without sorting. The serializer's
  output is proved to be `Lines` of the tree with every level sorted.
- **RoundTrip** (`roundtrip.dfy`): for every well-formed tree, building a root line
  followed by the tree's listing-order lines creates exactly that tree. The same holds
  for `generate_project_structure`'s text of a tree whose levels are already sorted.
  Also: without a root line, a file after an empty directory is nested inside it.
- **ListingOrder** (`listing_order.dfy`): sorting every level keeps a tree well formed
  and keeps the paths it describes. So `generate_project_structure`'s text of any
  well-formed tree, in whatever order each level is listed, builds exactly that tree.
- **Template** (`template.dfy`): `DEFAULT_STRUCTURE`, identical in both programs, and
  what building it creates: the root `my_bot` with three packages and eight empty files.
- **Console** (`console.dfy`): `ensure_structure_file` and `create_structure_from_tree`,
  including the fallback that writes the template into an empty structure file.

The operating system's failures are modelled, not excluded. A missing parent, a file on
the path or writing onto a directory makes the Python call raise; the model stops there
and keeps what the earlier lines already created (`Outcome.Failed`). Dafny's filenames
are plain component lists. A label is split on `/`, and empty pieces are dropped, as
`os.path.join` and the OS do for a trailing or doubled `/`.

Two behaviours of the code are easy to miss:

- For an empty subdirectory, the serializer appends the empty string returned by the
  recursive call. The output therefore has one empty line after that directory's line
  (`Serializer.EmptyDirectoryLines`), rather than no line. The builder skips blank lines,
  so the round trip is unaffected.
- After a line, the stack is the old stack cut to `min(len, depth)` plus the label. Its
  length is `depth + 1` only when the depth is at most the old length. A line indented
  deeper than its parent is attached to the deepest open entry
  (`BuilderFacts.StepStack`).

## Model

| member | source | states |
|---|---|---|
| Text.LeadRun | TKcreate_structure.py:139-144 | the count of leading indentation characters `│`, `├`, `└`, space and `─`, stopping at the first other character |
| Text.Strip | TKcreate_structure.py:135 | `str.strip()`: whitespace, as `str.isspace()` defines it, trimmed from both ends |
| Text.Remove | TKcreate_structure.py:150 | `str.replace(pat, '')`: scanning from the left, each occurrence of the pattern is deleted and the scan resumes after it |
| Text.Split | TKcreate_structure.py:131 | `str.split('\n')`: the pieces between separators, so one more piece than there are separators |
| Text.Join | TKcreate_structure.py:221 | `'\n'.join(parts)`: the parts with one separator between each two |
| Text.ReadLines | create_structureConsole.py:20 | `readlines()`: the lines of the text, each keeping its `'\n'`; no lines for the empty text |
| Text.LeadRunFacts | TKcreate_structure.py:139-144 | the counted run consists of glyphs only, is at most the line's length, and stops at the first non-glyph |
| Text.StripFacts | TKcreate_structure.py:135-137 | `strip()` is empty exactly for an all-whitespace line, and a non-empty result neither starts nor ends with whitespace |
| Text.StripPadded | TKcreate_structure.py:150 | stripping whitespace from both sides of a trimmed word gives back the word |
| Text.RemoveFacts | TKcreate_structure.py:150 | `replace(pat, '')` never lengthens the text, keeps only its characters, and leaves no occurrence of a one-character pattern |
| Text.RemoveAbsent | TKcreate_structure.py:150 | replacing a pattern that does not occur changes nothing |
| Text.RemoveAfterFree | TKcreate_structure.py:150 | a prefix that cannot start the pattern passes through `replace` unchanged |
| Text.RemoveCharSplit | TKcreate_structure.py:150 | deleting one character distributes over concatenation |
| Text.IndexOf | TKcreate_structure.py:131 | the first separator position, or the length when there is none |
| Text.JoinSplit | TKcreate_structure.py:131 | joining the pieces of `split('\n')` gives back the text |
| Text.SplitJoin | TKcreate_structure.py:221 | splitting `'\n'.join(parts)` gives back the parts when none holds a line break |
| Text.SplitCons | TKcreate_structure.py:131 | the text before the first separator is the first piece, and the rest is split on |
| Text.ReadLinesFacts | create_structureConsole.py:19-20 | `readlines()` loses nothing (its lines concatenate to the text), and each line except the last ends in its only `'\n'` |
| Text.ReadLinesEmpty | create_structureConsole.py:23 | `readlines()` gives no lines exactly for the empty file |
| Text.ReadLinesCons | create_structureConsole.py:19-20 | a first line keeps its terminating `'\n'` and the rest is read on |
| FileSystem.Components | TKcreate_structure.py:155 | the components `os.path.join` gives a label: the pieces between `/`, with empty pieces dropped |
| FileSystem.MakeDirsSpec | TKcreate_structure.py:166 | `os.makedirs(p, exist_ok=True)`: raises for the empty path or a file on the path; otherwise adds `p` and its missing ancestors as directories |
| FileSystem.WriteSpec | TKcreate_structure.py:161-162 | `open(p, 'w')` and a write: raises for the empty path, a directory, or a parent that is missing or not a directory; otherwise `p` holds exactly the text |
| FileSystem.ComponentsOfName | TKcreate_structure.py:155 | joining a label without separators adds one component, with or without a trailing `/` |
| FileSystem.MakeDirsFacts | TKcreate_structure.py:166 | `os.makedirs` raises exactly for the empty path or a file on it; otherwise the path and its ancestors are directories, old entries keep their value, nothing else is added, and a consistent tree stays consistent |
| FileSystem.DirName | TKcreate_structure.py:158 | `os.path.dirname`: the path without its last component, or empty for one component |
| FileSystem.WriteFacts | TKcreate_structure.py:161-162 | `open(p, 'w')` raises exactly for the empty path, a directory, or a missing parent; otherwise `p` holds exactly the written text and nothing else changes |
| FileSystem.ReadSpec | create_structureConsole.py:19-20 | reading succeeds exactly when the path is a file, and gives its content |
| FileSystem.Size | create_structureConsole.py:92 | a size is zero exactly for an empty file; a directory's size is never zero |
| FileSystem.FileSystem.MakeDirs | TKcreate_structure.py:166 | the entries become `MakeDirsSpec` of the old entries, or stay as they were when it raises; a real tree stays a real tree (`Valid`) |
| FileSystem.FileSystem.WriteFile | TKcreate_structure.py:161-162 | the entries become `WriteSpec` of the old entries, or stay as they were when it raises; a real tree stays a real tree (`Valid`) |
| FileSystem.FileSystem.ReadFile | create_structureConsole.py:19-20 | reports whether the read succeeds and returns the file's content |
| Builder.Depth | TKcreate_structure.py:139-145 | `indent_level`: the leading glyph run divided by 4, rounded down |
| Builder.Clean | TKcreate_structure.py:150 | the label: `├──`, then `└──`, then `│` deleted, and the rest stripped |
| Builder.IsFile | TKcreate_structure.py:157 | a label names a file when it contains `.` and does not end with `/` |
| Builder.NewFile | TKcreate_structure.py:157-162 | the file branch: `os.makedirs` of the parent when it is non-empty and missing, then an open for writing that leaves the file empty; a call that raises stops with the filesystem as it then is |
| Builder.NewDir | TKcreate_structure.py:163-166 | the directory branch: nothing when the path exists, otherwise `os.makedirs` of the path |
| Builder.Step | TKcreate_structure.py:135-166 | one loop iteration: a blank line is skipped; otherwise the stack is cut to `min(len, depth)`, and a non-empty label is pushed and created at base joined with the stack |
| Builder.Run | TKcreate_structure.py:134-166 | the loop: the lines in order, the first raised error ending the run with what was already created |
| Builder.StepConsistent | TKcreate_structure.py:135-166 | whatever a line does, also when a call raises part way, a real directory tree stays one |
| Builder.RunConsistent | TKcreate_structure.py:134-166 | a whole run, finished or stopped by an error, keeps a real directory tree real |
| Builder.DepthFacts | TKcreate_structure.py:139-145 | the depth is the glyph run divided by 4, rounded down |
| Builder.CleanFacts | TKcreate_structure.py:150 | a label holds no `│`, is trimmed on both sides, and is no longer than its line |
| Builder.JoinPath | TKcreate_structure.py:155 | the joined path always starts with the base directory |
| Builder.Create | TKcreate_structure.py:157-166 | a created entry leaves the stack as it was given |
| Builder.Build | TKcreate_structure.py:132-166 | the loop over the lines ends in the state `Run` describes, failing exactly when `Run` fails |
| Builder.ProcessLine | TKcreate_structure.py:135-166 | one loop iteration: filesystem and stack become those of `Step` |
| Builder.CountGlyphs | TKcreate_structure.py:139-144 | the counting loop returns the leading glyph run |
| Builder.PopTo | TKcreate_structure.py:147-148 | the pop loop leaves the first `min(len, depth)` labels |
| Builder.CreateEntry | TKcreate_structure.py:157-166 | classifies the label and creates the file or the directory as `Create` describes |
| Builder.MakeFile | TKcreate_structure.py:158-162 | the missing parent is made, then the file is opened for writing, as `NewFile` describes |
| Builder.MakeDir | TKcreate_structure.py:164-166 | the directory is made only when its path is absent, as `NewDir` describes |
| Builder.CreateActualStructure | TKcreate_structure.py:129-166 | `create_actual_structure` builds from `content.split('\n')` under the base directory, and a real tree stays a real tree (`Valid`) |
| BuilderFacts.BlankLineSkipped | TKcreate_structure.py:135-137 | an empty or all-whitespace line changes neither the filesystem nor the stack |
| BuilderFacts.StepStack | TKcreate_structure.py:147-154 | after a line, the stack is the old one cut to `min(len, depth)`, plus the label when there is one |
| BuilderFacts.DrawingOnlyLine | TKcreate_structure.py:147-152 | a line of whole `├──` and `└──` connectors, bars and whitespace (such as `│   └── `) has no label: it cuts the stack to its depth and creates nothing |
| BuilderFacts.LineEnding | create_structureConsole.py:32-55 | a line with the `'\n'` kept by `readlines()` does exactly what the line without it does |
| BuilderFacts.ReadLinesAsSplit | create_structureConsole.py:19-31 | building from `readlines()` gives the same outcome as building from `split('\n')` |
| BuilderFacts.NewFileEffect | TKcreate_structure.py:157-162 | a file line that succeeds leaves that file empty (truncating old content), with directories above it; other entries are unchanged and the tree stays consistent |
| BuilderFacts.NewFileFails | TKcreate_structure.py:157-162 | a file line raises exactly for the empty path, a directory at the path, or a file on the parent chain |
| BuilderFacts.NewDirEffect | TKcreate_structure.py:163-166 | a directory line leaves an existing path untouched, and otherwise creates it with its ancestors as directories |
| BuilderFacts.NewDirFails | TKcreate_structure.py:163-166 | a directory line raises exactly when the path is absent and is empty or has a file on it |
| BuilderFacts.CreateKind | TKcreate_structure.py:157-166 | a label with `.` and no trailing `/` ends as an empty file; any other label ends as a new directory, or leaves an existing entry and everything else alone |
| BuilderFacts.RunGrows | TKcreate_structure.py:134-166 | a run removes nothing, changes no entry's kind, and leaves an empty file empty |
| BuilderFacts.RunAgain | TKcreate_structure.py:134-166 | on any filesystem that extends a run's result, the same lines succeed and change nothing |
| BuilderFacts.BuildTwice | TKcreate_structure.py:129-166 | building the same text a second time succeeds and leaves the filesystem as the first run left it |
| Serializer.Generate | TKcreate_structure.py:198-221 | `generate_project_structure(directory, prefix)` on a given listing: the listing sorted, rendered into the list `structure`, joined with `'\n'` |
| Serializer.Structure | TKcreate_structure.py:203-219 | the loop from entry `i`: each entry's line `prefix + pointer + name` (`└── ` for the last, `├── ` otherwise; `/` after a directory's name), and after a directory one element holding its recursive result with the prefix grown by `    ` (last) or `│   ` |
| Serializer.Lines | TKcreate_structure.py:206-219 | the same rendering as flat lines in listing order, with no sorting: a directory's lines follow its own line, and an empty directory gives one empty line |
| Serializer.SortTree | TKcreate_structure.py:200-201 | the tree as the recursion visits it: every level sorted by name |
| Serializer.LexTotal | TKcreate_structure.py:201 | the name order is total |
| Serializer.LexTrans | TKcreate_structure.py:201 | the name order is transitive |
| Serializer.Insert | TKcreate_structure.py:201 | insertion adds exactly the one entry |
| Serializer.Sort | TKcreate_structure.py:201 | `items.sort()` is a permutation of the listing |
| Serializer.SortFacts | TKcreate_structure.py:201 | the sorted listing is in name order and is a permutation of the listing |
| Serializer.SortOfSorted | TKcreate_structure.py:201 | sorting a listing already in order changes nothing |
| Serializer.GenerateSorted | TKcreate_structure.py:198-221 | the nested-join output equals the flat lines of the tree with every level sorted |
| Serializer.GenerateLines | TKcreate_structure.py:198-221 | for a tree already in order, the output is the flat lines joined by `'\n'` |
| Serializer.TidyNames | TKcreate_structure.py:214-217 | sorting every level keeps each entry's name and kind, and sorts its children |
| Serializer.SortTreeOrdered | TKcreate_structure.py:200-201 | every level of the re-sorted tree is in name order |
| Serializer.SortTreeOfOrdered | TKcreate_structure.py:200-201 | a tree whose levels are in order is its own re-sorting |
| Serializer.EmptyDirectoryLines | TKcreate_structure.py:214-221 | an empty directory generates the empty string, so its line is followed by one empty line |
| RoundTrip.NameReadsBack | TKcreate_structure.py:150 | a valid name, bare or with `/`, is its own cleaned label |
| RoundTrip.EntryLineReads | TKcreate_structure.py:139-150 | a serialized line with prefix `p` is read at depth `|p|/4 + 1`, and its label is exactly what follows the pointer |
| RoundTrip.EntryStep | TKcreate_structure.py:135-154 | a serialized line cuts the stack to its level and creates its label |
| RoundTrip.RootStep | TKcreate_structure.py:135-154 | the root line on an empty stack creates its label at depth 0 |
| RoundTrip.CreateEntryEffect | TKcreate_structure.py:154-166 | an entry under an existing directory chain, at a free path, adds exactly that entry |
| RoundTrip.TreeMapBelow | TKcreate_structure.py:206-217 | every path of a tree lies below its root, under one of the tree's own names |
| RoundTrip.RenderRun | TKcreate_structure.py:134-166 | reading the lines written for a directory creates exactly its subtree and leaves the directory's stack below |
| RoundTrip.RootLineRun | TKcreate_structure.py:134-166 | the root line makes the root directory and its missing ancestors |
| RoundTrip.LinesNoNewline | TKcreate_structure.py:215-219 | no serialized line holds a line break |
| RoundTrip.TreeRoundTrip | TKcreate_structure.py:129-166 | a root line plus the serialized lines of a well-formed tree build exactly the root, its ancestors and the tree's paths |
| RoundTrip.OrderedTextRoundTrip | TKcreate_structure.py:129-221 | `root/` plus `generate_project_structure`'s text, split on `'\n'`, builds exactly the tree, for a tree whose levels are listed in sorted order |
| ListingOrder.PermutedDistinct | TKcreate_structure.py:201 | rearranging a listing whose names are distinct keeps them distinct |
| ListingOrder.SortTreeWellFormed | TKcreate_structure.py:200-201 | sorting every level keeps a tree well formed and keeps its set of names |
| ListingOrder.SortTreeNames | TKcreate_structure.py:200-201 | sorting a level keeps its set of names |
| ListingOrder.SortTreeMap | TKcreate_structure.py:200-201 | sorting every level of a well-formed tree changes none of the paths it describes, nor whether each is a file or a directory |
| ListingOrder.TreeMapValue | TKcreate_structure.py:206-219 | with distinct names, each entry's paths appear in the tree's map with the kind the entry gives them |
| ListingOrder.TextRoundTrip | TKcreate_structure.py:129-221 | `root/` plus `generate_project_structure`'s text, split on `'\n'`, builds exactly the root, its ancestors and the tree's paths, for every well-formed tree in whatever order its levels are listed |
| RoundTrip.SiblingsNest | TKcreate_structure.py:139-154 | without a root line, a file after an empty top-level directory is created inside it and not beside it |
| Template.DefaultSplit | TKcreate_structure.py:5-17 | the template's text split on `'\n'` is its twelve lines plus the empty piece after the final `'\n'` |
| Template.DefaultRendered | TKcreate_structure.py:5-17 | the template is the root line `my_bot/` followed by the listing-order lines (`Lines`) of its tree, which keeps its own unsorted order (`handlers` and `utils` before `data`) |
| Template.DefaultWellFormed | TKcreate_structure.py:5-17 | the template's names are valid, its files carry a `.`, and no directory holds two equal names |
| Template.DefaultTreeMap | create_structureConsole.py:3-15 | the template's tree is the three packages and eight empty files below the root |
| Template.DefaultTemplate | create_structureConsole.py:3-86 | building the template under any base creates `my_bot`, its ancestors, `handlers`, `utils`, `data` and the eight empty files, and nothing else |
| Console.EnsureSpec | create_structureConsole.py:90-97 | `ensure_structure_file`: a missing or empty file is written with the template and `True` is returned; otherwise nothing changes and `False` is returned |
| Console.ConsoleSpec | create_structureConsole.py:17-86 | `create_structure_from_tree`: a read that raises stops at once; no lines means the template is written and its text split on `'\n'` is built; otherwise the `readlines()` lines are built from the working directory |
| Console.EnsureFacts | create_structureConsole.py:90-97 | reports True exactly for a missing or empty file, which then holds the template while nothing else changes; reports False otherwise (a directory included) and changes nothing; raises only when the write does |
| Console.EnsureSucceeds | create_structureConsole.py:92-94 | with the parent directory present, the write never raises |
| Console.EnsureStructureFile | create_structureConsole.py:90-97 | the method's result and new state are those of `EnsureSpec`, and a real tree stays a real tree (`Valid`) |
| Console.CreateStructureFromTree | create_structureConsole.py:17-86 | the method ends in the outcome `ConsoleSpec` describes, and a real tree stays a real tree (`Valid`) |
| Console.ConsoleAsGui | create_structureConsole.py:17-61 | a non-empty structure file builds what the GUI builds from the same text on the working directory |
| Console.ConsoleUnreadable | create_structureConsole.py:19-20 | a missing structure file, or a directory in its place, raises before anything is made |
| Console.ConsoleEmptyFile | create_structureConsole.py:23-26 | an empty structure file is filled with the template and the template's tree is built in the working directory |
| Console.ConsoleTemplateFile | create_structureConsole.py:17-86 | a structure file holding the template builds the template's tree in the working directory |

## Left out

- The Tk user interface, message boxes, status bar, file pickers and window placement:
  presentation only. This includes `create_or_update_structure` and `analyze_project`,
  which choose directories and save files through dialogs.
- The `print` logging of the console and its `__main__` block: output only.
- The real filesystem: it is a map passed in and out. Directory listing
  (`os.listdir`) is the `Entry` tree the serializer receives, so a listing that raises
  is not modelled. No symbolic links, no permissions, no concurrency.
- File contents are Dafny strings. UTF-8 encoding, universal-newline translation of
  `'\r\n'` and `'\r'` on reading, and the byte count `getsize` reports are not modelled. A size is
  zero exactly for an empty file, which is all `ensure_structure_file` uses.
- `FileSystem.Size`: a directory's size is represented by the constant 4096. The model
  relies only on it being non-zero.
- Absolute labels (a label starting with `/`, which makes `os.path.join` restart at the
  root), and the names `.` and `..`: paths are component lists relative to the base.
- Serializer: names are compared code point by code point, as Python compares strings.
  The listing is given, so the OS listing order does not matter.
- `RoundTrip.ValidName` is a sufficient condition for a name to read back, not the exact
  set of such names. For example, it excludes names that contain `├` or `└` anywhere.
- The template's lines are spelled in the model as indentation, connector and label
  pieces concatenated. The string is the same, written so that its facts are proved
  from the pieces.
