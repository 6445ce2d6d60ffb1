# akash alias manager — verified model of its text core

akash keeps a user's shell aliases in a sorted store and writes them into the
start-up file of the user's shell (Bash, Zsh or PowerShell). It wraps them in a
managed block between two marker lines. This project models the part of akash
that is pure text and data, once the home directory and the file contents are
given as values:

- **Block merger** (`BlockMerge`, on top of `Text`). `replace_or_append_block`
  splices a generated block into arbitrary, user-edited file text. When both
  markers occur, it replaces the span from the first begin marker to the end of
  the first end marker, and trims the newlines just before that span down to
  one (to none when only newlines precede it). Otherwise it appends the block, after a blank line unless the text is
  empty.
  `MergeExamples` holds worked inputs, including the limits of its fixpoint.
- **Alias rendering per dialect.** `Unix` covers Bash and Zsh: POSIX
  single-quote escaping, with a model of shell quote removal to state the round
  trip. `Windows` covers PowerShell's choice between `Set-Alias` and a function
  wrapper, with a parser that reads a line back. Both modules also give each
  dialect's start-up file path.
- **Alias store** (`Store`, on top of `StringOrder`). This is insert/update,
  remove, lookup, the key-ordered listing of the `BTreeMap`, alias-name
  validation and the store path.
- **Settings** (`Configuration`). This is the default settings, the log-level
  mapping and the settings path. `FileLayout` shows that the default paths are
  distinct.

Paths are lists of components (`Paths`). A missing home directory is an
`Option` input. Every path function that needs the home directory fails
exactly when it is absent; `StorePath` with a custom path never looks it up.
Strings are `seq<char>`. Rust byte offsets become character offsets, which is
equivalent here because `str::find` only returns character boundaries.

Four points where the merge is weaker than one might expect:

- The code does not check that the end marker comes after the begin marker
  (`src/main.rs:191`). With the end marker first, it splices in reverse and
  copies the text between the markers again on every run
  (`MergeExamples.StrayEndMarkerRepeatsBlock`).
- A second merge changes nothing only under conditions
  (`BlockMerge.MergeFixpoint`). Non-empty text that holds no marker loses the
  blank separator line, and any blank lines the text itself ended with, on the
  second run, whether it ends in a newline
  (`BlockMerge.AppendThenMergeDropsBlankLine`) or not
  (`BlockMerge.AppendUnterminatedThenMergeDropsBlankLine`). From then on the
  text stays put (`BlockMerge.ConvergesAfterTwo`). The fixpoint also needs marker
  lines without a newline in them (`MergeExamples.NewlineInMarkerBreaksFixpoint`).
- Before the block, the code trims only `'\n'` characters
  (`trim_end_matches('\n')`, `src/main.rs:198`); `'\r'` and spaces stay.
- A begin marker left in the file without its end marker costs the user text.
  The first merge appends the block. The second merge pairs the stray begin
  marker with the block's end marker and replaces everything between them
  (`MergeExamples.LoneBeginMarkerDeletesText`).

## Model

| member | source | states |
|---|---|---|
| `Text.Find` | src/main.rs:191 | `str::find`: the result is an occurrence of the pattern and no occurrence starts earlier; `None` means no occurrence at all |
| `Text.TrimTrailingNewlines` | src/main.rs:198 | `trim_end_matches('\n')`: the result is a prefix, only `'\n'` characters were removed, and it does not end in `'\n'` |
| `BlockMerge.ReplaceOrAppendBlock` | src/main.rs:185-218 | the result always contains the block as a substring; with both markers, the text after the first end marker is its suffix; without both, the old content is its prefix |
| `BlockMerge.Splice` | src/main.rs:194-204 | the replace branch: the block occurs in the result and the text after the old block is its suffix |
| `BlockMerge.Append` | src/main.rs:207-216 | the append branch: the old text is a prefix of the result and the block occurs in it |
| `BlockMerge.ReplacePreservesOutside` | src/main.rs:191-204 | with both markers found: the text after the first end marker is kept byte for byte and is preceded by the block; before the block is the text before the first begin marker with only its trailing `'\n'`s removed, plus one `'\n'` unless nothing is left |
| `BlockMerge.AppendToEmpty` | src/main.rs:205-216 | a marker missing from empty content gives exactly the block and a newline |
| `BlockMerge.AppendKeepsText` | src/main.rs:207-216 | a marker missing from non-empty content: the content is a prefix, the result ends with a blank line, the block and a newline, and exactly the newlines needed for that are added |
| `BlockMerge.AppendAfterNewline` | src/main.rs:207-215 | content that already ends in `'\n'` gets exactly one more `'\n'` before the block |
| `BlockMerge.MergeFixpoint` | src/main.rs:191-204 | conditions for a second merge to change nothing: the block starts with the begin marker, its only end marker closes it, and neither marker contains a newline; the content is empty, or its first begin marker comes no later than its first end marker |
| `BlockMerge.FixpointAfterReplace` | src/main.rs:191-204 | the replace half of the fixpoint: when the first begin marker comes no later than the first end marker, merging the result again with a well-formed block changes nothing |
| `BlockMerge.FixpointAfterAppendToEmpty` | src/main.rs:205-216 | the append half: a well-formed block appended to an empty file is left alone by a second merge |
| `BlockMerge.AppendThenMergeDropsBlankLine` | src/main.rs:198-213 | no unconditional idempotence: for marker-free content ending in `'\n'`, the second merge trims the blank separator line and every trailing newline of the text down to one, so its result differs from the first |
| `BlockMerge.MergeAtSplice` | src/main.rs:191-204 | text made of a marker-free prefix, a well-formed old block and a tail merges into the trimmed prefix, the new block and the unchanged tail |
| `MergeExamples.NewlineInMarkerBreaksFixpoint` | src/main.rs:191-201 | a begin marker containing `'\n'` lets the inserted separator complete an earlier marker, so the second merge moves the block although every other fixpoint premise holds |
| `BlockMerge.AppendUnterminatedThenMergeDropsBlankLine` | src/main.rs:198-213 | for marker-free content without a final `'\n'`, the first merge adds a newline and a blank line before the block, and the second merge trims the blank line, so its result differs from the first |
| `BlockMerge.ConvergesAfterTwo` | src/main.rs:185-218 | repeated merging settles: for content holding neither marker and a well-formed block, the third merge gives back the second merge's result |
| `MergeExamples.LoneBeginMarkerDeletesText` | src/main.rs:191-216 | a begin marker without an end marker: the first merge appends the block, and the second merge replaces the user's text from that begin marker to the block's end marker |
| `MergeExamples.StrayEndMarkerRepeatsBlock` | src/main.rs:191-196 | an end marker with no begin marker before it is spliced in reverse, and the block is duplicated on the next merge |
| `MergeExamples.ReplacesOnlyTheOldBlock` | src/main.rs:191-204 | a Bash file with user lines around an old block: merging any new block leaves both user lines untouched and swaps only the block |
| `Unix.Escape` | src/shell/unix.rs:14-15 | the escaped command is longer by exactly three characters per single quote, and a command without quotes is unchanged |
| `Unix.AliasSyntax` | src/shell/unix.rs:13-16 | the line starts with `alias ` and the name, and its length is `9 + |name| + |escaped command|` |
| `Unix.QuotedCommandRoundTrip` | src/shell/unix.rs:14-15 | POSIX quote removal of `'` + escaped command + `'` gives back the command, for every command |
| `Unix.AliasLineRoundTrip` | src/shell/unix.rs:13-16 | for every valid alias name (letters, digits, `_`, `-`) and every command, quote removal of the word after `alias ` gives `name=command` |
| `Unix.ZshMatchesBash` | src/shell/unix.rs:34-36 | Zsh writes every alias line exactly as Bash does |
| `Unix.ConfigPath` | src/shell/unix.rs:18-22 | `home/.bashrc` for Bash (`home/.zshrc` for Zsh, lines 38-42); an error with the home message exactly when the home is unknown |
| `Unix.DialectFacts` | src/shell/unix.rs:9-42 | the names are `Bash` (lines 9-11) and `Zsh` (lines 30-32), and the two dialects write different files (lines 18-22 and 38-42) |
| `Windows.AliasSyntax` | src/shell/windows.rs:12-20 | the line starts with `function ` exactly when the command holds a space, `\|` or `;`; the line's length is fixed by the name and command, and the command appears verbatim (right before the last two characters of a wrapper, or at the end of a `Set-Alias`) |
| `Windows.AliasSyntaxShape` | src/shell/windows.rs:15-18 | the exact layout: `function `, the name, ` { `, the command and ` }` for a wrapper; `Set-Alias -Name `, the name, ` -Value ` and the command otherwise |
| `Windows.FormIgnoresName` | src/shell/windows.rs:15-18 | which form is written depends only on the command, never on the name |
| `Windows.FunctionRestRoundTrip` | src/shell/windows.rs:16 | the part of a function wrapper after `function ` reads back as its name and command |
| `Windows.SetAliasRestRoundTrip` | src/shell/windows.rs:18 | the part of a `Set-Alias` after `-Name ` reads back as its name and command |
| `Windows.AliasLineRoundTrip` | src/shell/windows.rs:15-18 | reading a line back gives the name and command it came from, for every name without a space |
| `Windows.FunctionExample` | src/shell/windows.rs:15-16 | `("ll", "ls -la")` gives `function ll { ls -la }` |
| `Windows.SetAliasExample` | src/shell/windows.rs:17-18 | `("g", "git")` gives `Set-Alias -Name g -Value git` |
| `Windows.DialectFacts` | src/shell/windows.rs:8-10 | the display name is `PowerShell`, and the profile is a `.ps1` file three levels below the home directory |
| `Windows.ConfigPath` | src/shell/windows.rs:22-30 | `home/Documents/PowerShell/Microsoft.PowerShell_profile.ps1`; an error exactly when the home is unknown |
| `Paths.HomeDir` | src/store.rs:29-30 | an unknown home directory is an error with the message `Cannot determine home directory`, never a default |
| `Store.NewStore` | src/store.rs:16-20 | a new store holds no alias |
| `Store.AddAlias` | src/store.rs:85-96 | reports true exactly when the name was absent; afterwards the name maps to the new command, overwriting an old one, and every other entry is unchanged |
| `Store.RemoveAlias` | src/store.rs:99-107 | reports true exactly when the name was present; afterwards it is absent and every other entry is unchanged |
| `Store.HasKeyTracksUpdates` | src/store.rs:116-124 | `has_key` after an add is true exactly for the added name and the names already present; after a remove, exactly for the other names already present |
| `Store.RemoveUndoesAdd` | src/store.rs:85-107 | removing a name that was just added restores the store and reports true |
| `Store.AddUndoesRemove` | src/store.rs:85-107 | adding back a removed name with its old command restores the store |
| `Store.StoreScenarios` | src/store.rs:166-257 | the store unit tests: first add reports new, re-add reports existing and overwrites, remove empties, removing or looking up a missing name reports false |
| `Store.ListAliases` | src/store.rs:110-113 | the listing is in strictly ascending key order, has one entry per alias, lists exactly the stored names, and pairs each name with its command |
| `Store.ListingIsUnique` | src/store.rs:8-11 | two key-ascending listings of the same store are equal, so the order is the `BTreeMap` order and nothing else |
| `Store.SortedListingExample` | src/store.rs:278-290 | aliases added as `z`, `a`, `m` are listed as `a`, `m`, `z` |
| `Store.ValidateAliasName` | src/store.rs:128-142 | succeeds exactly for non-empty names of letters, digits, `_` and `-`; the empty name and a bad character get their own messages |
| `Store.ValidNamesAreShellSafe` | src/store.rs:126-127 | a valid name holds no blank, newline, quote, backslash, `=`, `$` or `;` |
| `Store.LeadingHyphenIsValid` | src/store.rs:134 | `-` is accepted in any position, so `-x` is a valid name |
| `Store.NameExamples` | src/store.rs:295-321 | `gs`, `my-alias`, `my_alias` and `alias123` are valid; the empty name, `has space`, `has!bang` and `a/b` are not |
| `Store.StorePath` | src/store.rs:24-34 | a custom path is returned unchanged; otherwise `home/.akash/aliases.json`, or an error exactly when the home is unknown |
| `Configuration.DefaultLogLevel` | src/config.rs:18-20 | the default level string is the name of the ERROR level, and it selects ERROR |
| `Configuration.Default` | src/config.rs:19-31 | no shell override, no alias-store path, and the level string `error`, which selects ERROR |
| `Configuration.Lower` | src/config.rs:89 | ASCII lower-casing: it keeps the length and lowers each character on its own (Rust's `to_lowercase` is Unicode; see Left out) |
| `Configuration.TracingLevel` | src/config.rs:88-96 | `trace`, `debug`, `info` and `warn` (after lower-casing) select their level; every other string, `error` and the empty string included, selects ERROR |
| `Configuration.LevelNameRoundTrip` | src/config.rs:88-96 | any string that lower-cases to a level's name selects that level |
| `Configuration.TracingLevelIgnoresCase` | src/config.rs:89 | two strings equal up to letter case select the same level |
| `Configuration.TracingLevelOfLowered` | src/config.rs:88-96 | storing the level string already lower-cased does not change the level it selects |
| `Configuration.ConfigPath` | src/config.rs:63-67 | `home/.akash/config.toml`; an error exactly when the home is unknown |
| `FileLayout.ToolFilesAreDistinct` | src/main.rs:118-137 | with the default alias-store path, the three start-up files, the settings file and the store are five different lists of path components below the home directory |

## Left out

- Shell detection is not modelled. It reads the parent process name through
  the process table (`src/shell/mod.rs:58-84`) and the environment. The
  detection chain, `ShellType` parsing and the `Shell` trait with
  `generate_alias_block`, `begin_marker` and `end_marker` are not part of this
  model. The block and the markers are therefore plain parameters of the merge,
  and their well-formedness is a precondition of `MergeFixpoint`.
- The commented-out trait and factory in `src/shell/mod.rs:9-56` are dead code.
- File and format I/O are not modelled: `store_load`/`store_save` (JSON),
  `Config::load`/`create_default_if_missing` (TOML), and the read, create-dir and
  write steps of `cmd_apply`. In the model, `cmd_apply` is just "old text →
  merge → new text".
- The command-line surface is not modelled: `src/cli.rs`, the interactive menu
  (`src/interactive.rs`), the `cmd_*` printing and column alignment in
  `src/main.rs`, and all `debug!`/`info!` logging. They have no effect on the
  values computed here.
- `reload_instructions` is kept as fixed strings (`Unix.ReloadInstructions`,
  `Windows.ReloadInstructions`) with no property stated about them.
- Store.ValidateAliasName: alphanumeric means ASCII letters and digits only.
  Rust's `char::is_alphanumeric` also accepts non-ASCII letters and digits such
  as `é`, so the model rejects some names the Rust code accepts.
- Configuration.Lower: this is ASCII lower-casing. Rust's `to_lowercase` is
  Unicode: it can change the length (`'İ'` becomes `i` and a combining dot) and
  lowers a final sigma depending on its context.
- Configuration.TracingLevel: lower-casing is ASCII lower-casing, not Unicode
  `to_lowercase`. For this mapping the two agree: `to_lowercase` can only turn a
  non-ASCII character into `k` or into `i` followed by a combining dot, and none
  of the four level names can be completed that way.
- BlockMerge.MergeFixpoint: the lemma needs marker lines without `'\n'` in
  addition to the block's shape. Without it, the fixpoint fails
  (`MergeExamples.NewlineInMarkerBreaksFixpoint`). The real markers are single
  lines.
- Unix.AliasLineRoundTrip: `Unquote` models single quotes and backslashes
  only. Word splitting, double quotes and expansion are not modelled, so the
  round trip is stated for valid alias names, which contain none of the
  characters those steps act on (`Store.ValidNamesAreShellSafe`).
- Store.ValidNamesAreShellSafe: a valid name may start with `-` (`-x`,
  `Store.LeadingHyphenIsValid`). A shell can read such a name as an option:
  Bash's `alias` builtin and PowerShell's `Set-Alias -Name -x` both would. The
  model states only which characters a valid name lacks, not that every valid
  name is safe in every shell.
- FileLayout.ToolFilesAreDistinct: only the default alias-store path is
  covered. A custom `aliases_path` (`src/config.rs:12`, `src/store.rs:25-27`)
  can name any file, a start-up file included. Paths are compared as lists of
  components, so two paths joined by a symbolic link are not detected.
- Paths are lists of components. `PathBuf::join` with an absolute component,
  which replaces the path, is never used by these functions and is not modelled.
