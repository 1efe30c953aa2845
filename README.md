# DirectoryTree in Dafny

A model of the directory-tree printer of `DirectoryTree.java`: given a directory, it
prints one line (one `println` call) per visible entry below it, depth first, each line being the
inherited prefix, a connector (`├── ` or, for the last entry of a directory, `└── `)
and the entry's name. Below a directory entry the prefix grows by `│   ` when more
siblings follow and by four blanks when the entry was the last one. Entries that the
OS marks hidden or whose name starts with a dot are skipped, and a directory whose
listing fails prints nothing below its own line.

Files:

- `filesystem.dfy` (module `FileSystem`): the filesystem as a value. `Entry` is a
  `File(name, hidden)` or a `Dir(name, hidden, listable, children)`; `ListFiles` plays
  `File.listFiles()`, returning `None` (Java's `null`) for a plain file or an
  unlistable directory.
- `directory_tree.dfy` (module `DirectoryTree`): the four glyph constants;
  `Visible` and `Filter`, the specification of `filterHiddenFiles`, with the method
  `FilterHiddenFiles` that runs the source's loop; `Render` / `RenderLevel` /
  `RenderEntry`, the lines printed for a directory, for its children from position
  `i` on, and for one child; the output sink `PrintStream` (a class whose `lines`
  field collects what `println` wrote); and the methods `PrintFile` and
  `PrintDirectoryTree`, which append to the sink and are proved to append exactly
  what `Render` describes.
- `tree_shape.dfy` (module `TreeShape`): what the output looks like, against a
  reference that knows nothing about glyphs. `Walk(d)` lists the visible entries in
  depth-first order as `Visit(depth, name)`; `Decode` reads a printed line back
  (indentation segments, a connector, a name). The main theorem says the printed
  lines are exactly the walk, one line per visit, each line being the caller's
  prefix followed by text that decodes to that visit. The level theorem says the
  lines sitting directly at the caller's prefix are one per visible child, in
  listing order, with `└── ` on the last one only.
- `tree_examples.dfy` (module `TreeExamples`): small trees and their exact output,
  for any names of the printed entries that do not start with a dot: the three-entry tree of a file and two folders, and a listing
  with a dot-directory, a hidden file and an unlistable directory.

## Model

| member | source | states |
|---|---|---|
| `DirectoryTree.Filter` | src/main/java/com/directorytree/DirectoryTree.java:91-100 | the filtered listing is no longer than the input and holds only input entries that are neither OS-hidden nor dot-named |
| `DirectoryTree.FilterHiddenFiles` | src/main/java/com/directorytree/DirectoryTree.java:91-100 | the for-each loop that appends each visible entry to a fresh list returns exactly `Filter` of the listing |
| `DirectoryTree.FilterKeepsVisible` | src/main/java/com/directorytree/DirectoryTree.java:93-97 | every entry of the listing that is not hidden and has no leading dot is in the filtered list |
| `DirectoryTree.KeptIndicesAreVisiblePositions` | src/main/java/com/directorytree/DirectoryTree.java:93-97 | the kept positions are in range, strictly increasing, and a position is kept if and only if the entry there is neither hidden nor dot-named |
| `DirectoryTree.FilterAtKeptIndices` | src/main/java/com/directorytree/DirectoryTree.java:92-99 | the filtered list has one element per kept position and its k-th element is the listing's entry at the k-th kept position: a subsequence in the listing's own order, nothing sorted |
| `DirectoryTree.FilterIdempotent` | src/main/java/com/directorytree/DirectoryTree.java:91-100 | filtering an already filtered list changes nothing |
| `DirectoryTree.PrintFile` | src/main/java/com/directorytree/DirectoryTree.java:110-112 | exactly one line, prefix + (`└── ` if last else `├── `) + name, is appended to the output |
| `DirectoryTree.PrintDirectoryTree` | src/main/java/com/directorytree/DirectoryTree.java:59-81 | the output grows by exactly `Render(directory, prefix)`: for each filtered child in order its own line, then (directories only) its subtree under the extended prefix; nothing at all when the listing is null |
| `TreeShape.RenderMatchesWalk` | src/main/java/com/directorytree/DirectoryTree.java:59-81 | the printed lines correspond one to one, in order, with the depth-first walk of visible entries below the directory (unlistable directories contributing nothing below their own line); every line starts with the caller's prefix and the rest decodes to that entry's depth and name |
| `TreeShape.LineAnatomy` | src/main/java/com/directorytree/DirectoryTree.java:23-25 | the line of an entry `d` levels below the starting call is the starting prefix, then `d` four-column segments each `│   ` or blank, then a connector and the entry's name |
| `TreeShape.DecodeShape` | src/main/java/com/directorytree/DirectoryTree.java:18-25 | a line that decodes to depth `d` and a name is `d` indentation segments, a connector and that name |
| `TreeShape.DecodeOfShape` | src/main/java/com/directorytree/DirectoryTree.java:18-25 | conversely, `d` indentation segments, either connector and any name decode to depth `d` and that name, so reading a line back is unambiguous whatever the name holds |
| `TreeShape.EntryLines` | src/main/java/com/directorytree/DirectoryTree.java:72-78 | a child's block starts with its own line prefix + connector + name; a plain file or an unlistable directory prints that one line only; every further line of a directory child starts with the prefix extended by four blanks if the child was last and by `│   ` otherwise |
| `TreeShape.OwnLinesOfLevel` | src/main/java/com/directorytree/DirectoryTree.java:66-79 | among the lines printed for a listable directory, those sitting directly at the caller's prefix are exactly one per filtered child, in filtered order, equal to prefix + connector + name; the `└── ` connector appears on the last of them and on no other |
| `TreeExamples.FoldersLines` | src/main/java/com/directorytree/DirectoryTree.java:59-81 | a file followed by two folders prints exactly the six lines `├── file1`, `├── folder1`, `│   ├── sub1`, `│   └── sub2`, `└── folder2`, `    └── sub3` |
| `TreeExamples.HiddenAndLockedLines` | src/main/java/com/directorytree/DirectoryTree.java:60-63 | a dot-named directory and an OS-hidden file print nothing, an unlistable directory prints only its own line, and the last visible entry gets `└── ` |

## Left out

- `main` (src/main/java/com/directorytree/DirectoryTree.java:33-50): reading the path from standard input, the existence and is-directory check on the real disk, and the header and root-name lines are console I/O and are not modelled; the model starts at the `printDirectoryTree(directory, "", true)` call.
- The `isRoot` parameter of `printDirectoryTree` is never read by the source, so the model's `PrintDirectoryTree` does not take it.
- `java.io.File` calls (`listFiles`, `isHidden`, `isDirectory`, `getName`) are foreign filesystem calls; they become fields of the `Entry` value. The order of a listing is whatever the `children` sequence holds: the operating system decides it in the source, and nothing sorts it.
- Symbolic links: the source has no cycle detection. Given a directory symlink that points at an ancestor, it keeps descending through the link, each level adding one more link to the path. This goes on until the operating system refuses to resolve the path (too many links or too long a path), at which point `isDirectory()` is false or `listFiles()` returns null. If the OS never refuses, it goes on until the stack overflows. An `Entry` value is a finite tree. The output up to the OS refusal is such a finite unrolling, ending in a `File` or an unlistable `Dir`, and the model covers it when given that unrolling. The model does not compute where the OS stops, and it does not model the stack overflow.
- `System.out.println` appends a platform line separator; the sink records each `println` call as one string instead. A "line" in every theorem here (`PrintDirectoryTree`, `RenderMatchesWalk`, `DecodeOfShape`, `OwnLinesOfLevel`) is one such call. An entry name may itself contain a line separator, which some filesystems allow. Such a name puts two or more console lines on the screen for one entry, and the later one can read like another entry's line. So one line per visible entry, and an unambiguous read-back, hold for the sequence of `println` calls. For the joined console text they hold only when no name contains a line separator, and the model does not prove that case.
- The program has no sorting, no exclusion set of directory names, no depth limit, no colour, no symbolic-link annotation, no error line for unlistable directories and no option to show hidden entries; an unlistable directory prints nothing below its own line.
