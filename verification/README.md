# Packs generator of React on Rails, in Dafny

A model of `ReactOnRails::PacksGenerator`, the class that turns a directory of
UI component files into generated "packs" and one generated server bundle.

- Every component file is classified as **common**, **client** (`*.client.*`)
  or **server** (`*.server.*`).
- A canonical **component name** is derived from each file.
- The three categories are checked against each other. A client or server
  file that overrides a common one is an error, and so is a server file
  with no client counterpart.
- Each common and client component gets a small pack that registers it
  with the runtime. Components rendered as server components get a
  different pack.
- One server bundle registers the common and server components, split by a
  static check for a leading `"use client"` directive.
- Generation runs only when the packs directory or the bundle is missing,
  or when some pack is older than the newest tracked source.

The model is functional. The filesystem is a `Snapshot`: the component files
with their whole-second mtimes and texts, a map from existing file paths to
mtimes, and a set of existing directories. A run is the list of `Action`s it
emits, plus the error that ended it, if any. `Apply` plays those actions
back on a snapshot, which lets the model state what a second run does.

Modules, in dependency order:

| file | module | contents |
|---|---|---|
| `base.dfy` | `Base` | `Option`, `Result` with the three `GenError` kinds, `Filter` |
| `text.dfy` | `Text` | `String#strip`, `index`, `sub` with a literal pattern, `join` |
| `directive.dfy` | `DirectiveScanner` | `first_js_statement_in_code` (the loop and a recursive reference), `client_entrypoint?` |
| `paths.dfy` | `Paths` | `Pathname#relative_path_from` over segment lists, and how a loader resolves the result |
| `naming.dfy` | `Naming` | `File.extname`, the infix pattern `\.(server\|client)($\|\.)`, `component_name`, the three categories |
| `omap.dfy` | `OrderedMaps` | Ruby hashes as insertion-ordered association lists: `to_h`, `[]`, `merge`, `delete_if` |
| `catalog.dfy` | `Catalog` | `common/client/server_component_to_path` and their errors |
| `packs.dfy` | `Packs` | configuration, pack paths, `pack_file_contents` |
| `bundle.dfy` | `ServerBundle` | generated bundle path, registrations, bundle text, the prepended import and its guard |
| `generator.dfy` | `Generator` | `stale_or_missing_packs?`, `generate_packs`, `generate_packs_if_stale`, and the effect of a run |

## Behaviour worth knowing

- A second run with no source changes only prepends when a server bundle is
  configured (`Generator.SecondRunSkips`). In entrypoint mode with no bundle
  file name it does nothing at all: nothing is prepended in entrypoint mode,
  and the bundle path is the source entry directory, which `mkdir_p` of the
  packs directory recreates (`Generator.EntryDirectoryFirstAndSecondRun`). When none is configured and the
  generated bundle is not the server entry itself, nothing ever creates the
  bundle path that the up-to-date check looks for. Every run then wipes and
  regenerates the packs (`Generator.UnconfiguredBundleRegenerates`).
- Packs can be partly rewritten. When the packs directory or the bundle is
  missing, the staleness check is skipped. The common packs are then written
  before the client lookup raises its override error (`Generator.PartialWrites`).
- The bundle test is `File.exist?`, so a directory at the bundle path counts
  as a present bundle (`Generator.Exists`).

## Model

| member | source | states |
|---|---|---|
| Text.Strip | lib/react_on_rails/packs_generator.rb:77 | the stripped text is empty or starts and ends with a character that is neither `\s` nor NUL |
| Text.StripIsSlice | lib/react_on_rails/packs_generator.rb:77 | `strip` removes only blanks and NULs, and only from the two ends: the result is a slice of the input with blanks before and after it |
| Text.StripFinalNewline | lib/react_on_rails/packs_generator.rb:95-109 | stripping a heredoc whose text has no blank at either end removes exactly its final newline |
| Text.IndexOfFirst | lib/react_on_rails/packs_generator.rb:64 | `index(pat, from)` finds an occurrence, none is found earlier, and nil means there is none at or after `from` |
| Text.ReplaceFirstIsFirst | lib/react_on_rails/packs_generator.rb:214 | `sub` with a literal pattern replaces its leftmost occurrence and keeps the text before and after it, and leaves a text without the pattern unchanged |
| DirectiveScanner.FirstJsStatement | lib/react_on_rails/packs_generator.rb:47-82 | the index loop returns the same statement as the recursive scan: "" for empty input, and never a newline |
| DirectiveScanner.CommentOrStatement | lib/react_on_rails/packs_generator.rb:59-78 | after `//` the scan resumes just past the first newline, or stops with "" when there is none; after `/*` it resumes just past the first `*/` at or after the `/*`, or stops with "" when there is none; any other line stops with that line, stripped |
| DirectiveScanner.Scan | lib/react_on_rails/packs_generator.rb:47-82 | the first statement never contains a newline |
| DirectiveScanner.SkipsBlanksAndComments | lib/react_on_rails/packs_generator.rb:53-73 | any run of blanks, closed `//` comments and closed `/* */` comments before a text does not change its first statement |
| DirectiveScanner.FirstLineIsStatement | lib/react_on_rails/packs_generator.rb:74-77 | a line that does not start with a blank or a comment opener yields itself, stripped |
| DirectiveScanner.UnterminatedLineComment | lib/react_on_rails/packs_generator.rb:62-65 | a `//` comment with no following newline yields "" |
| DirectiveScanner.UnterminatedBlockComment | lib/react_on_rails/packs_generator.rb:68-71 | a `/*` with no `*/` after it yields "" |
| DirectiveScanner.SlashStarSlashIsClosed | lib/react_on_rails/packs_generator.rb:70 | because the `*/` search starts at the `/*` itself, `/*/` counts as a closed comment |
| DirectiveScanner.IsClientEntrypoint | lib/react_on_rails/packs_generator.rb:84-88 | a file is a client entrypoint exactly when its first statement starts with a quote, `use client`, a quote, then `;`, a blank or the end; each quote may be `'` or `"` on its own |
| Paths.ResolveLexicalRelative | lib/react_on_rails/packs_generator.rb:213 | `relative_path_from`, resolved from the starting path, leads to the target |
| Paths.RelativeDropsOneUp | lib/react_on_rails/packs_generator.rb:209-215 | for a target outside the file and its directory, `relative_path` is the lexical path with one `..` fewer: it climbs out of all but one of the file's unshared segments, then descends the rest of the target |
| Paths.RenderRelativePath | lib/react_on_rails/packs_generator.rb:214 | `sub("../", "")` on the printed lexical path removes its first `..` segment when more segments follow, and removes nothing otherwise, since normal segments never contain `../` |
| Paths.RelativePathTextResolves | lib/react_on_rails/packs_generator.rb:209-215 | an import written in a file with the text of `relative_path(file, target)` leads to the target |
| Paths.RelativePath | lib/react_on_rails/packs_generator.rb:209-215 | `relative_path` is never empty and is at most one segment shorter than the lexical relative path; `Paths.ImportResolves` shows where it leads |
| Paths.ImportResolves | lib/react_on_rails/packs_generator.rb:209-215 | for a target outside the file and its directory, `relative_path(file, target)` read from the file's directory leads to the target |
| Naming.FirstMatchIsFirst | lib/react_on_rails/packs_generator.rb:8 | the pattern search finds the leftmost match, and finds nothing only when no position matches |
| Naming.ComponentName | lib/react_on_rails/packs_generator.rb:221-225 | the component name is no longer than the file's basename and uses only its characters; `Naming.NameIsStemWithoutFirstInfix` gives it for every basename |
| Naming.NameIsStemWithoutFirstInfix | lib/react_on_rails/packs_generator.rb:221-225 | for every basename, whatever dots it holds, the name is the stem with its leftmost infix match cut out, or the stem itself when nothing in it matches |
| Naming.StemOfDotFreeExt | lib/react_on_rails/packs_generator.rb:222 | `File.basename(p, File.extname(p))` drops exactly the last extension |
| Naming.NameWithoutInfix | lib/react_on_rails/packs_generator.rb:221-225 | a dot-free name with any dot-free extension, such as `Foo.js`, is named by the name alone |
| Naming.NameWithFinalInfix | lib/react_on_rails/packs_generator.rb:221-225 | a dot-free name followed by `.client` or `.server` and a dot-free extension, such as `Foo.client.js` or `Foo.server.jsx`, is named by the name alone |
| Naming.NameWithInnerInfix | lib/react_on_rails/packs_generator.rb:221-225 | an infix inside the stem goes together with the dot after it: `Foo.client.bar.js` is named `Foobar` |
| Naming.ClientOrServerIsNotCommon | lib/react_on_rails/packs_generator.rb:232-247 | a file listed by `*.client.*` or `*.server.*` is never common |
| Naming.BareInfixInNoCategory | lib/react_on_rails/packs_generator.rb:232-247 | `Foo.client` with no further dot is in none of the three categories |
| Naming.OneDotIsNeitherClientNorServer | lib/react_on_rails/packs_generator.rb:237-247 | a basename with a single dot matches neither glob |
| OrderedMaps.Lookup | lib/react_on_rails/packs_generator.rb:148 | `h[k]` is absent exactly when `k` is not a key, and otherwise is the value of an entry under `k` |
| OrderedMaps.PutProperties | lib/react_on_rails/packs_generator.rb:228 | assigning a key keeps keys unique and an existing key's position, the key reads back the new value, and every other key reads as before |
| OrderedMaps.FromListKeys | lib/react_on_rails/packs_generator.rb:227-229 | `to_h` has unique keys: the items' names, each once, in order of first appearance |
| OrderedMaps.FromListLookupNone | lib/react_on_rails/packs_generator.rb:227-229 | `to_h` has an entry for a name exactly when some item has that name |
| OrderedMaps.FromListLookupLast | lib/react_on_rails/packs_generator.rb:227-229 | with a repeated name, `to_h` keeps the path that comes last |
| OrderedMaps.DeleteKeys | lib/react_on_rails/packs_generator.rb:137 | `delete_if` keeps exactly the entries whose key is not in the other hash |
| OrderedMaps.DeleteKeysAbsent | lib/react_on_rails/packs_generator.rb:137 | deleting keys the hash does not have leaves it unchanged |
| OrderedMaps.MergeDisjoint | lib/react_on_rails/packs_generator.rb:138 | `merge` of hashes with no key in common appends the second to the first |
| Catalog.CategoryMap | lib/react_on_rails/packs_generator.rb:227-234 | a category's hash has unique keys, and each entry is a file of that category under its own component name |
| Catalog.KeysOfCategory | lib/react_on_rails/packs_generator.rb:227-234 | a category's hash has a key exactly for the names of its files |
| Catalog.FirstShared | lib/react_on_rails/packs_generator.rb:240-241 | the `slice` finds a shared key, and finds none exactly when no key is shared |
| Catalog.FirstMissing | lib/react_on_rails/packs_generator.rb:253-255 | finds a server key with no client entry, and finds none exactly when every key has one |
| Catalog.ClientComponents | lib/react_on_rails/packs_generator.rb:236-244 | the client lookup yields the client hash, or raises client-overrides-common on a name that is both a client and a common name; `Catalog.ClientValidation` gives the converse |
| Catalog.ServerComponents | lib/react_on_rails/packs_generator.rb:246-258 | the server lookup yields the server hash, or raises server-overrides-common on a name that is both server and common, the client lookup's error when there is a server file, or missing-client on a server name with no client file; `Catalog.ServerValidation` gives the converse |
| Catalog.ClientValidation | lib/react_on_rails/packs_generator.rb:236-244 | the client lookup succeeds exactly when no client name is a common name, and then yields the client hash; otherwise it raises client-overrides-common on a name that is both |
| Catalog.ServerValidation | lib/react_on_rails/packs_generator.rb:246-258 | the server lookup succeeds exactly when no server name is common and, if there is a server file at all, the client lookup succeeds and every server name has a client file |
| Catalog.ServerOverrideReportedFirst | lib/react_on_rails/packs_generator.rb:250-255 | a server name that is also common raises server-overrides-common, before any missing-client check |
| Catalog.MissingClientReported | lib/react_on_rails/packs_generator.rb:253-255 | with no override, a server name with no client file raises missing-client, naming a server name that has no client file |
| Packs.PackContent | lib/react_on_rails/packs_generator.rb:90-110 | with server components enabled and no `"use client"` directive, the pack is exactly the `registerServerComponent("Name")` module; otherwise it is the `ReactOnRails.register({Name})` module importing from the relative path |
| Packs.PackPath | lib/react_on_rails/packs_generator.rb:217-219 | a pack path lies directly in the packs directory; `Packs.PackPathsDistinct` shows that distinct names get distinct packs |
| Packs.PackPathsDistinct | lib/react_on_rails/packs_generator.rb:217-219 | two components share a pack path exactly when they share a name |
| Packs.PackInPacksDir | lib/react_on_rails/packs_generator.rb:195-219 | the directory holding every pack is `<source entry>/generated`; the `<Name>.js` segment comes from the definition of `PackPath` |
| Packs.PackImportResolves | lib/react_on_rails/packs_generator.rb:201-207 | the import in a client pack, read from the packs directory, leads to the component file |
| ServerBundle.GeneratedBundleOfPlainEntry | lib/react_on_rails/packs_generator.rb:173-183 | for an entry `n.js` whose path has no earlier `.js`, the bundle is `n-generated.js` in the `generated` directory beside the source entry directory |
| ServerBundle.GeneratedBundlePath | lib/react_on_rails/packs_generator.rb:173-183 | in entrypoint mode the bundle is the server entry; otherwise it is a file directly in the `generated` directory beside the source entry directory, named by `ServerBundle.GeneratedBundleOfPlainEntry` |
| ServerBundle.BundleApartFromPacks | lib/react_on_rails/packs_generator.rb:173-199 | a separate generated bundle is never a pack and never in the packs directory, so wiping that directory keeps it |
| ServerBundle.EntryDirectoryBundle | lib/react_on_rails/packs_generator.rb:173-174 | in entrypoint mode with no bundle file name, the bundle path is the source entry directory, above the packs directory |
| ServerBundle.Registrations | lib/react_on_rails/packs_generator.rb:136-138 | the registrations exist exactly when the server lookup succeeds, and raise its error otherwise; `ServerBundle.RegistrationsAreCommonThenServer` gives their contents |
| ServerBundle.RegistrationsAreCommonThenServer | lib/react_on_rails/packs_generator.rb:136-138 | the registrations exist exactly when the server lookup succeeds; they are then the common entries followed by the server entries, with distinct names; a server file never overrides a common one |
| ServerBundle.NamesPartition | lib/react_on_rails/packs_generator.rb:144-151 | the server and client name lists split the registered names, and a name is a server name exactly when its file is a server component |
| ServerBundle.NoServerNamesWithoutSupport | lib/react_on_rails/packs_generator.rb:144-151 | with server components disabled, the server list is empty and every name is a client name |
| ServerBundle.BundleImportsResolve | lib/react_on_rails/packs_generator.rb:140-142 | each bundle import, read from the bundle's directory, leads to the registered file |
| ServerBundle.BuildServerPackContent | lib/react_on_rails/packs_generator.rb:119-134 | the bundle text is the header with its imports, then the `registerServerComponent` block exactly when the server list is non-empty, then `ReactOnRails.register({…})`, even an empty one |
| ServerBundle.GeneratedServerPackContent | lib/react_on_rails/packs_generator.rb:136-154 | the bundle text can be built exactly when the server lookup succeeds, raises its error otherwise, and starts with the import of every registration |
| ServerBundle.PrependedHasImport | lib/react_on_rails/packs_generator.rb:161-169 | the prepended text carries an import that the guard pattern matches, whatever text follows it |
| ServerBundle.PrependIdempotent | lib/react_on_rails/packs_generator.rb:156-171 | prepending twice is prepending once, and afterwards the guard finds the import |
| Generator.MaxMtime | lib/react_on_rails/packs_generator.rb:297 | the newest mtime is at least every tracked file's mtime and is one of them |
| Generator.AnyOutdated | lib/react_on_rails/packs_generator.rb:299-302 | true exactly when some tracked file's pack is missing or older than the newest source |
| Generator.StaleOrMissing | lib/react_on_rails/packs_generator.rb:295-303 | raises exactly the client lookup's error, and otherwise is stale exactly when some common or client file's pack is missing or older than the newest of them |
| Generator.NothingTrackedIsFresh | lib/react_on_rails/packs_generator.rb:295-303 | with no common or client files, nothing is stale |
| Generator.ServerOnlyFilesIgnored | lib/react_on_rails/packs_generator.rb:296 | adding a server-only file anywhere in the listing does not change the staleness verdict |
| Generator.UntrackedFileChangesNothing | lib/react_on_rails/packs_generator.rb:296 | a file outside a category, wherever it sits in the listing, does not change that category's hash |
| Generator.PrependStep | lib/react_on_rails/packs_generator.rb:156-157 | the prepend is skipped when the generated bundle is itself the entry, and otherwise targets the server entry |
| Generator.PackWritesInDir | lib/react_on_rails/packs_generator.rb:38-42 | every pack write lands inside the packs directory |
| Generator.RunWritesTracked | lib/react_on_rails/packs_generator.rb:31-33 | once the client lookup succeeds, a run starts by writing the pack of every tracked file, in the order the staleness check visits them |
| Generator.BundleWrites | lib/react_on_rails/packs_generator.rb:35 | the bundle actions exist exactly when a server bundle file is configured, and when they do not raise, the first of them writes the generated bundle path |
| Generator.GeneratePacks | lib/react_on_rails/packs_generator.rb:31-36 | the common packs are written before anything can raise, and a run raises exactly when the client lookup does or, with a bundle configured, when the bundle text cannot be built |
| Generator.UpToDate | lib/react_on_rails/packs_generator.rb:19-21 | the check raises only when the packs directory and the bundle both exist, and then raises the client lookup's error; when it reports up to date, every tracked file has a pack no older than any tracked file |
| Generator.GeneratePacksIfStale | lib/react_on_rails/packs_generator.rb:15-27 | nothing happens when the feature is off; otherwise the run starts with the prepend, and ends in an error only from the staleness check or from a regeneration |
| Generator.RegenerationDecision | lib/react_on_rails/packs_generator.rb:15-27 | a run wipes the packs exactly when the feature is on and the packs directory is missing, neither a file nor a directory is at the bundle path, or a pack is stale; an error of the check ends the run after the prepend |
| Generator.WriteOrder | lib/react_on_rails/packs_generator.rb:15-36 | a regeneration without error prepends, wipes, writes all common packs, then all client packs, then the bundle and a second prepend only when a bundle is configured |
| Generator.PartialWrites | lib/react_on_rails/packs_generator.rb:19-33 | with a client override, a missing packs directory or a missing bundle yields the wipe, the common packs and then the error; with both present the error ends the run after the prepend |
| Generator.WipeThenWrite | lib/react_on_rails/packs_generator.rb:185-188 | after the wipe the packs directory and every directory above it exist, and every file the run writes is present with the current time |
| Generator.RegenerationLands | lib/react_on_rails/packs_generator.rb:25-26 | after a regeneration the packs directory exists and every pack and bundle written by the run is present and newest |
| Generator.SecondRunSkips | lib/react_on_rails/packs_generator.rb:15-27 | when a bundle is configured, or the bundle path is the packs directory or lies above it, a run that ends without error leaves a state in which the next run only prepends |
| Generator.EntryDirectoryFirstAndSecondRun | lib/react_on_rails/packs_generator.rb:185-188 | in entrypoint mode with no bundle file name, a first run on an empty tree regenerates, and the second does nothing because `mkdir_p` recreated the source entry directory |
| Generator.UnconfiguredBundleRegenerates | lib/react_on_rails/packs_generator.rb:19-26 | with no bundle configured and the bundle apart from the server entry, a bundle path that holds nothing makes every run regenerate, and the run leaves it holding nothing |

## Left out

- Filesystem effects are not executed: `Dir.glob`, `File.read/write/exist?/mtime`, `FileUtils.rm_rf/mkdir_p`. The glob results, texts and mtimes are inputs, and writes are emitted `Action`s. `mkdir_p` of the bundle's directory (line 181) is not modelled.
- The component files are one list in glob order. Each category is a filter of that list, which assumes the globs list files in one common sorted order. The `**` search root, hidden files and directories matched by `*` are not modelled.
- Logging (`puts`, `Rainbow`, lines 44 and 116) and the singleton `instance` (lines 11-13) are left out.
- Configuration is a plain `Config` value in place of `ReactOnRails.configuration`, `PackerUtils` and `Utils.rsc_support_enabled?`.
- `Utils.find_most_recent_mtime` is not part of this model; `MaxMtime` assumes it returns the newest mtime, and 0 for no files.
- `Utils.prepend_to_file_if_text_not_present` is not part of this model; `PrependIfAbsent` assumes it prepends when the pattern does not match. The relative path is matched literally, whereas the source interpolates it into a regex without escaping its dots.
- Mtimes are whole seconds from the start, so the `.to_i` truncation is the identity here.
- Paths are absolute and normal: no `.` or `..` segments, no segment ending in `..` (such as `v1..`), and no trailing slash. The import-resolution lemmas exclude component paths with such segments. `relative_path_from` errors on mixed absolute and relative paths are not modelled. `RenderAbs([])` prints "" where Ruby prints "/".
- Generator.Step: the prepend action leaves the snapshot unchanged, so the text and mtime of the host's server entry are not tracked.
- Generator.PackOutdated: a directory at a pack path counts as a missing pack, whereas `File.exist?` holds for it and its mtime is compared; the snapshot has no directory mtimes.
- Generator.UnconfiguredBundleRegenerates: requires a non-empty source entry path, so that the bundle lies outside the packs directory.
- Error messages are not modelled beyond the kind of error and the component it names.
- A server bundle file name made only of blanks (which `present?` rejects) counts as configured here: `BundleConfigured` checks only that the name is non-empty.
- `MINIMUM_SHAKAPACKER_VERSION` (line 9) and `components_search_path` (lines 260-264) are not used by the modelled logic.
