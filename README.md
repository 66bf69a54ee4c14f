# ONE Exporter: a verified model of the note-graph resolver and guide builder

ONE Exporter turns a vault of cross-referenced Obsidian notes into one linear
guide document. It builds a case-insensitive index of the vault's files and
collects the notes to export, in one of two ways:

- manual mode reads the links in an outline note;
- automatic mode walks links depth first from a start note, bounded by depth.

Each collected note is flattened exactly once: its front matter and tags are
stripped, its wiki links become plain text, and its attachment embeds become
Markdown images copied into an assets folder. The exporter then writes
`_MOC_Guide.md`, a front-matter header followed by one `!include["…"]`
section per note. The include expansion later splices the notes back into the
guide.

This project models that core in Dafny and proves what it promises.

| module | file | what it holds |
|---|---|---|
| `Wrappers` | wrappers.dfy | `Option` and `Result`. A `Failure` stands for an exception that aborts the run. |
| `Text` | text.dfy | Python's `isspace`, `splitlines`, `strip`, `lower` (ASCII and Latin-1) and the `[\w-]` class. |
| `Paths` | paths.dfy | `pathlib` paths as component sequences: `name`, `stem`, `suffix`, `Path(target).name`, `parents`, `len(str(p))`. |
| `FrontMatter` | front_matter.dfy | `YAML_PATTERN` as a scanner with the backtracking order of Python `re`, and `_clean_yaml`. |
| `Links` | links.dfy | `LINK_PATTERN` as a tokenizer into text and link segments with a round trip, `TAG_PATTERN` stripping, and `LIST_LINE_PATTERN`. |
| `VaultIndex` | vault_index.dfy | `os.walk` with pruning, `_build_vault_index` (an imperative loop), and the one lookup the source repeats at four places. |
| `Flatten` | flatten.dfy | `link_flattener`, the flattening of a note body, and the resolved `.md` plain links of a body. |
| `Traversal` | traversal.dfy | `_traverse_and_collect` as a pair of mutually recursive functions, with its invariants. |
| `Config` | config.dfy | `read_export_config` on the parsed YAML, the depth coercion of automatic mode, and `find_vault_for_note`. |
| `Includes` | includes.dfy | The `!include["…"]` substitution and `_assemble_full_markdown`. |
| `Guide` | guide.dfy | `_create_yaml_header`, and the two guide builders as specification functions with their properties. |
| `Exporter` | exporter.dfy | The class `OneExporter`. Its methods update `processedNotes`, `notesInScope`, `structureMap`, the notes folder and the copy log. Each method and loop is proved equal to the specification functions above. |

Design choices:

- **Filesystem.** The vault is a tree of folders. The readable files are a map
  `fs` from path to text. Reading a path outside `fs` raises in the source and
  is modelled as `ok == false`.
- **Outputs.** Files written to the notes folder are a map from file name to
  text, `notesDir`. `shutil.copy` calls are a log of copied paths, `copyLog`.
- **Foreign calls.** `unquote` and `yaml.safe_load` are function parameters.
  `datetime.now()` is a `today` parameter.
- **Set iteration order.** `for note in self.notes_in_scope` iterates a set.
  The model picks notes with `:|`, so every property holds for any order.

Where the code and its documentation disagree, the model follows the code:

- **Depth in automatic mode.** A note's recorded depth is the depth at which
  the depth-first walk first reaches it, not its distance from the start
  note. A note within `export_depth` can therefore be left out when it is
  first reached along a longer path. `Traversal.CollectShape`,
  `Traversal.VisitDepths` and `Traversal.CollectParents` state what the code
  does guarantee: each recorded note is linked from a recorded note one level
  above it.
- **Manual guide entries.** The manual guide emits a section for every list
  entry whose target resolves, whatever the file's extension.
- **Manual scope.** The manual scope holds only the resolved `.md` plain
  links of the outline.
- **Folders that cannot be listed.** `os.walk` runs with its default
  `onerror=None`, so a folder it cannot list is skipped without a word, and an
  unreadable or missing vault gives an empty index rather than an error. The
  model's vault is a tree that always lists; see the `VaultIndex.BuildVaultIndex`
  line under "## Left out".
- **No asset de-duplication.** `copied_assets` is never consulted, so every
  embed of an attachment copies it again. The model logs each copy and does
  not claim de-duplication.

## Model

| member | source | states |
|---|---|---|
| VaultIndex.BuildVaultIndex | ONE_Exporter.py:49-60 | The nested loop over the pruned walk and its files builds exactly `IndexOf` of the visited paths. Each kept file overwrites its stem key and then its full-name key. |
| VaultIndex.IndexKeys | ONE_Exporter.py:52-58 | A key is in the index if and only if some kept file registers it. |
| VaultIndex.IndexIsLastWriter | ONE_Exporter.py:52-58 | A key maps to the path of the last kept file, in visiting order, that registers it. |
| VaultIndex.ExcludedNeverIndexed | ONE_Exporter.py:53-58 | No file with an excluded folder name anywhere in its path is a value of the index. Every key is the lowercase stem or lowercase name of the file it maps to. |
| VaultIndex.KeptFileIndexedUnderBothKeys | ONE_Exporter.py:52-58 | Take a kept file whose keys no later kept file shares. Its lowercase stem and its lowercase full name are both in the index, and both map to its path. |
| VaultIndex.KeptFileHasKeys | ONE_Exporter.py:49-58 | For every file in the vault tree not under an excluded folder, both of its keys are in the built index, at any depth. |
| VaultIndex.WalkCoversKeptFiles | ONE_Exporter.py:52-56 | `os.walk` with `dirs[:]` pruned still lists every file whose path has no excluded folder name. |
| VaultIndex.TreeFilesBelow | ONE_Exporter.py:52 | Every file of a folder's tree lies strictly below the folder's root. |
| VaultIndex.Resolve | ONE_Exporter.py:72-74 | It finds only indexed paths. It gives "not found" if and only if neither the decoded, lowercased target nor the stem of its last component is a key. |
| VaultIndex.ResolveIgnoresCase | ONE_Exporter.py:72 | Two targets whose decoded forms agree up to letter case resolve alike. |
| VaultIndex.ResolveFullKeyFirst | ONE_Exporter.py:74 | When the full key is present, its entry wins. |
| VaultIndex.ResolveStemFallback | ONE_Exporter.py:74 | The stem is used only when the full key misses, and then its entry is the result. |
| VaultIndex.ResolveFindsRegisteredFile | ONE_Exporter.py:57-58 | A target whose decoded, lowercased text is some kept file's key resolves to the last kept file registering that key. |
| Paths.StemSuffixSplit | ONE_Exporter.py:57 | `stem + suffix` is the file name again. |
| Paths.LastDotIsLast | ONE_Exporter.py:57 | The dot that splits the stem from the suffix is the last dot of the name. |
| Paths.NameHasNoSlash | ONE_Exporter.py:74 | `Path(target).name` holds no `/`. |
| Paths.TargetNameOfPlainName | ONE_Exporter.py:74 | For a target with no `/`, other than "" and ".", `Path(target).name` is the target itself. |
| Text.LowerIdempotent | ONE_Exporter.py:72 | Lowercasing a key again changes nothing. |
| FrontMatter.Find | ONE_Exporter.py:20 | A match starts at the beginning of the text with `---`, followed only by whitespace up to the newline that opens the body. Its body runs to the first closing `---` line after that newline (the lazy `(.*?)`), whose trailing whitespace ends with a newline. |
| FrontMatter.FirstClosing | ONE_Exporter.py:20 | The lazy body `(.*?)` stops at the first closing line after the opening: no earlier position closes the block. |
| FrontMatter.Clean | ONE_Exporter.py:62-63 | `_clean_yaml` returns a suffix of its input. With no front matter the input is unchanged; otherwise the text after the closing line is kept. |
| FrontMatter.CleanWithoutDashes | ONE_Exporter.py:62-63 | A text that does not start with `---` is left as it is. |
| FrontMatter.FindsClosingLine | ONE_Exporter.py:20 | A text starting with `---` and a newline, with a later `\n---\n`, has front matter. |
| Links.TargetEnd | ONE_Exporter.py:21 | The target of a link is the longest run of characters other than `\|`, `#` and `]`. |
| Links.LinkText | ONE_Exporter.py:21 | The span of text a link matches is exactly the link's own source text. |
| Links.TokenizeRoundTrip | ONE_Exporter.py:21 | Rendering the segments of any text gives the text back, so the scanner loses and invents nothing. |
| Links.TokenScansBack | ONE_Exporter.py:21 | The text of a well-formed link scans back to that single link. |
| Links.StripTagsNoTag | ONE_Exporter.py:69 | A text with no tag is left unchanged by tag stripping. |
| Links.HeadingMarkerKept | ONE_Exporter.py:23 | Wherever a run of `#` marks is followed by a space, as in a Markdown heading, no character of it lies in a tag, so tag stripping keeps it (the look-behind and `[\w-]+`). |
| Links.StripTagsRemovesTags | ONE_Exporter.py:23 | Tag stripping keeps exactly the characters outside tags, in order: each tag is a `#` not preceded by `#`, with its maximal run of `[\w-]` characters. |
| Links.ListEntry | ONE_Exporter.py:22 | An outline entry has only whitespace before its `-` and a non-empty target. |
| Flatten.RewriteRef | ONE_Exporter.py:70-79 | A link copies a file if and only if it is an embed resolving to an attachment. The copied file is that indexed file. |
| Flatten.RewriteOutcomes | ONE_Exporter.py:70-79 | Every link becomes exactly one of three forms: `alias or target` for a plain link; `![alias or target](name)` for an embed resolving to an attachment; otherwise the placeholder `(Contenido embebido de: target)`. |
| Flatten.PlainRewriteIgnoresIndex | ONE_Exporter.py:79 | A plain link becomes `alias or target` whether or not it resolves. |
| Flatten.ShownHasNoBracket | ONE_Exporter.py:79 | The replacement for a plain link, `alias or target`, holds no `]`. |
| Flatten.ScannedRefsWellFormed | ONE_Exporter.py:21 | Every link the scanner yields has a non-empty target without `\|#]` and, if aliased, a non-empty alias without `]`. |
| Flatten.RewriteSplit | ONE_Exporter.py:80 | Rewriting a concatenation is concatenating the rewrites, for both the text and the copies. |
| Flatten.LinkFreeRewrite | ONE_Exporter.py:80 | A body without links is written unchanged and copies nothing. |
| Flatten.CopiesAreEmbeddedAttachments | ONE_Exporter.py:75-77 | A path is copied if and only if some link of the body is an embed whose rewrite copies it, and every copy is an indexed attachment. |
| Flatten.FlattenWithoutLinks | ONE_Exporter.py:68-80 | A note without links is written as its text with front matter and tags removed, and it copies nothing. |
| Flatten.LinkedNote | ONE_Exporter.py:95-98 | A segment contributes a note if and only if it is a plain link whose target resolves to an `.md` file, and the note is that file. |
| Flatten.LinkedNotesMembers | ONE_Exporter.py:140-145 | A path is among a body's linked notes if and only if some segment links to it. Each one is an indexed `.md` file. |
| Flatten.LinkedNotesInIndex | ONE_Exporter.py:140-145 | Every child of a note is an indexed `.md` file. |
| Flatten.EmbedLinksNothing | ONE_Exporter.py:141 | An embed is never a child or a manual scope note. |
| Flatten.PresentMembers | ONE_Exporter.py:98-99 | Keeping the found lookups keeps exactly the notes that were found. |
| Traversal.Children | ONE_Exporter.py:140-145 | The children of a note are known notes of the index. |
| Traversal.Visit | ONE_Exporter.py:135-148 | The walk only adds to `notes_in_scope`, and only the start note or indexed notes. It terminates on any graph, cycles included, because scope grows on each entry. |
| Traversal.VisitAll | ONE_Exporter.py:147-148 | The loop over children only adds indexed notes to the scope. |
| Traversal.VisitFaithful | ONE_Exporter.py:136-146 | Every record in `structure_map` is of a readable note, lists exactly its resolved `.md` plain links in order, and has depth within `max_depth` when there is a limit. |
| Traversal.VisitConsistent | ONE_Exporter.py:136-146 | The keys of `structure_map` are within `notes_in_scope` and equal to it while no read has failed. Existing records are never overwritten, so each note is entered at most once. |
| Traversal.VisitDepths | ONE_Exporter.py:146-148 | A note first recorded by a call at `depth` has depth at least `depth`. Notes other than the call's own have a greater depth. |
| Traversal.VisitAllStopped | ONE_Exporter.py:139 | After a failed read the rest of the walk does nothing (the exception propagates). |
| Traversal.VisitAllOk | ONE_Exporter.py:147-148 | A loop that ends without failure started without one. |
| Traversal.VisitAllCovers | ONE_Exporter.py:147-148 | Without a depth limit, a loop over children that ends without failure has put every child in scope. |
| Traversal.VisitCloses | ONE_Exporter.py:140-148 | Without a depth limit, every child of a note recorded by the walk is recorded too. |
| Traversal.VisitFails | ONE_Exporter.py:135-148 | Only a failed read aborts the walk: a walk that ends stopped either started stopped or put in scope a note that cannot be read. The depth limit and unresolved links never stop it. |
| Traversal.CollectShape | ONE_Exporter.py:135-148 | For the walk from the start note: `structure_map` keys equal `notes_in_scope` when it succeeds; every record is faithful; only the start note has depth 0. |
| Traversal.CollectClosed | ONE_Exporter.py:135-148 | With `export_depth: infinite`, a successful walk records the start note and is closed under links. |
| Traversal.VisitParent | ONE_Exporter.py:136-148 | A note first recorded by a call is the call's own note, at the call's depth, or a child of a recorded note one level above it. |
| Traversal.CollectParents | ONE_Exporter.py:135-148 | Depth counts links from the start note: the start note is at depth 0, and every other recorded note is a child of a recorded note whose depth is one less. |
| Config.LowerStr | ONE_Exporter.py:234 | `.lower()` succeeds exactly on strings, and then gives the lowercase text. |
| Config.ReadExportConfig | ONE_Exporter.py:227-245 | Without front matter the defaults are returned. A parser failure fails. A mapping gives the configuration built from it, any other YAML value gives the defaults. A returned mode never has an upper-case letter. |
| Config.FromMapping | ONE_Exporter.py:233-244 | It fails exactly when `export_mode` or `export_style` is present and not a string. Otherwise mode and style are the lowercased values, and depth, cover, title, author and date are the values under their keys, or the defaults stem, `Unknown` and today. |
| Config.MappingDefaults | ONE_Exporter.py:228-244 | An empty mapping gives mode `manual`, depth 1, no formats, style `classic`, empty cover, title the note's stem, author `Unknown` and today's date. |
| Config.ModeIgnoresCase | ONE_Exporter.py:234 | `export_mode` values that differ only in letter case give the same configuration. |
| Config.NonStringModeFails | ONE_Exporter.py:234 | A non-string `export_mode` raises. |
| Config.FormatsWrapped | ONE_Exporter.py:236-237 | A list of formats is kept. Any other value is wrapped in a one-element list. |
| Config.MaxDepth | ONE_Exporter.py:105-106 | A depth whose text is `infinite` in any case means no limit (-1). |
| Config.DigitsRoundTrip | ONE_Exporter.py:106 | The decimal text of a natural number is all digits, and it reads back as the number. |
| Config.ParseIntRoundTrip | ONE_Exporter.py:106 | `int(str(i)) == i` for every integer, negative ones included. |
| Config.MaxDepthCases | ONE_Exporter.py:105-106 | `infinite` in any case gives -1. An integer depth, or its decimal text, gives that integer. |
| Config.FindVaultForNote | ONE_Exporter.py:247-251 | It gives none exactly when no configured vault is a proper ancestor of the note. Otherwise it gives a configured ancestor with the longest path string, the first such in configuration order. |
| Config.ChosenVaultIsDeepest | ONE_Exporter.py:247-251 | No configured ancestor of the note has more components than the vault chosen. |
| Guide.HeaderIsFrontMatter | ONE_Exporter.py:82-86 | Every guide begins with a front-matter block that `YAML_PATTERN` finds, whatever follows the header. |
| Guide.GuideAssembles | ONE_Exporter.py:183-191 | If the header holds no `!` and every directive of the body names a plain file of the notes folder, the expansion succeeds, keeps the header in front, and still has front matter; assembly then fails only if the YAML parser does. |
| Guide.Classify | ONE_Exporter.py:117-127 | A line is blank exactly when it strips to nothing, and a heading exactly when its stripped form starts with `#`; the heading text has no surrounding whitespace. Otherwise it is an entry exactly when `LIST_LINE_PATTERN` matches, carrying that match and what its target resolves to. |
| Guide.ClassifyEntries | ONE_Exporter.py:117-122 | A line is classified as a list entry exactly when `LIST_LINE_PATTERN` matches it: an entry line is never blank nor a heading. |
| Guide.PendingIsLastHeading | ONE_Exporter.py:118-125 | `pending_heading` before a line is the last heading since the last list entry, resolved or not. |
| Guide.HeadingUsedOnce | ONE_Exporter.py:124-125 | A heading titles at most one entry. A later entry that sees a pending heading has a heading line of its own after the earlier entry. |
| Guide.BlueprintSections | ONE_Exporter.py:113-131 | Without its page breaks, the manual guide is one section per resolving entry, in order. Each section is titled by the pending heading, else the alias, else the target. Unresolved entries emit nothing. |
| Guide.SectionLevel | ONE_Exporter.py:129-131 | An entry indented by `indent` characters gets `indent // 4 + 1` hash marks and then a space. |
| Guide.BreaksBeforeTopLevel | ONE_Exporter.py:129-130 | The manual guide never starts with a page break, and each page break is followed by a top-level section. |
| Guide.SectionTopLevel | ONE_Exporter.py:129-131 | A section is top level exactly when its entry is indented fewer than four characters. |
| Guide.TopLevelAfterBreak | ONE_Exporter.py:129-131 | Every top-level section after the first line follows a page break. |
| Guide.Emit | ONE_Exporter.py:152-158 | `write_node` only adds to `processed`. It terminates, since it recurses only after adding a new note of the map. |
| Guide.EmitKeeps | ONE_Exporter.py:152-158 | The emission writes only notes of `structure_map`, each at most once, in exactly the order of `processed`. Earlier output is kept. |
| Guide.StructureOrderOk | ONE_Exporter.py:151-159 | The automatic guide lists distinct notes of `structure_map`, starting with the start note when it is recorded and empty otherwise. |
| Guide.StructureOrderParented | ONE_Exporter.py:152-158 | Every note after the first is a child of a note written before it. |
| Guide.StructureOrderDepthFirst | ONE_Exporter.py:152-158 | The guide order is the depth-first pre-order from the start note: it starts there, each later note is the first unwritten recorded child of the latest written note that still has one, and at the end no written note has one. |
| Guide.EmitCloses | ONE_Exporter.py:152-158 | `write_node(n)` leaves `n` processed, and each note it processes has all its recorded children processed when it returns. |
| Guide.StructureComplete | ONE_Exporter.py:150-158 | Every note the walk from the start note recorded is written to the automatic guide. |
| Guide.NodeLineLevel | ONE_Exporter.py:157 | A note recorded at `depth` is written with `depth + 1` hash marks and titled by its stem. |
| Guide.StructureLevels | ONE_Exporter.py:156-157 | When the start note is the only depth-0 note, the guide has one line per written note, each that note's heading line, with no page breaks. |
| Guide.NoBreakBelowStart | ONE_Exporter.py:156 | A page break is emitted only before a depth-0 note after other lines, so none is emitted when only the first note has depth 0. |
| Guide.AutomaticGuideHasNoBreak | ONE_Exporter.py:150-159 | The guide built from the walk of the start note contains no page break. |
| Includes.Directive | ONE_Exporter.py:189 | A directive match is a prefix `!include["name"]` with a non-empty name holding no quote. |
| Includes.DirectiveOfInclude | ONE_Exporter.py:189 | The directive text of a name matches as that name. |
| Includes.Lookup | ONE_Exporter.py:185-188 | A plain file name (one path component, not `.` or `..`) gives the note written under that name, or the `INCLUDE FAILED` comment when there is none, and never raises. Only a path-like name is left to the file system and can raise. |
| Includes.ExpandRoundTrip | ONE_Exporter.py:185-189 | Replacing each directive by its own text changes nothing, so the expansion only touches directives. |
| Includes.ExpandDirective | ONE_Exporter.py:185-189 | A directive is replaced by the fetched text and the rest is expanded after it. If fetching raises, the whole substitution fails with that error. |
| Includes.ExpandPlainPrefix | ONE_Exporter.py:189 | Text without `!` passes through the expansion unchanged, in front of the expansion of what follows. |
| Includes.ExpandFails | ONE_Exporter.py:185-189 | The substitution fails exactly when the replacement raises for one of the directive names the scan meets. |
| Includes.PlainNamesExpand | ONE_Exporter.py:185-189 | A text whose directives all name plain files of the notes folder expands without failing. |
| Includes.AssembleFull | ONE_Exporter.py:183-191 | The full text is the expansion of the guide. A failed expansion fails with its error, and an expansion without front matter fails. Falsy YAML becomes `{}`. |
| Includes.AssembleKeepsHeader | ONE_Exporter.py:183-191 | A front-matter header without `!` survives expansion in place. Assembly then fails only if reading a path-like directive name raises, or if the YAML parser fails. |
| Exporter.BlueprintLine | ONE_Exporter.py:116-131 | One turn of the outline loop updates `pending_heading` and `final_moc_lines` exactly as `Guide.Step` does. |
| Exporter.BlueprintLines | ONE_Exporter.py:114-131 | The outline loop produces `Blueprint` of the classified lines. |
| Exporter.WriteNode | ONE_Exporter.py:152-158 | `write_node` with its `processed` set produces `Emit`. The lines written are the heading lines of the emitted order. |
| Exporter.WriteChildren | ONE_Exporter.py:158 | The loop over a node's children produces `EmitAll`. |
| Exporter.WriteChild | ONE_Exporter.py:158 | One turn of that loop advances the emission by one child and only adds to `processed`. |
| Exporter.RewriteSegments | ONE_Exporter.py:80 | The substitution loop yields the texts and copies of `Rewrites`. |
| Exporter.ScanLinks | ONE_Exporter.py:94-99 | The `finditer` loop collects exactly the resolved `.md` plain links of the body with its front matter removed. |
| Exporter.OneExporter.constructor | ONE_Exporter.py:28-39 | The index is built from the vault once; all state starts empty. |
| Exporter.OneExporter.FlattenNote | ONE_Exporter.py:65-80 | A processed note is skipped without reading or writing. Otherwise it is marked processed; if unreadable the run fails; else its flattened text is written under its name and its attachment embeds are appended to the copy log. |
| Exporter.OneExporter.RewriteBody | ONE_Exporter.py:68-80 | The written text and the copies are those of flattening the note. |
| Exporter.OneExporter.FlattenScope | ONE_Exporter.py:100-101 | On success every scope note is processed, and each newly processed note's name holds the flattened text of a scope note of that name. Files of other names are untouched. The copy log keeps its old entries and grows by exactly the copies of the notes flattened, each once, in some order; on success these are all the newly processed scope notes. Every copy is an indexed attachment. A failure means a scope note could not be read. |
| Exporter.CopiesOfFrom | ONE_Exporter.py:75-77 | Every copy made while flattening a list of notes is an attachment embedded by one of its readable notes. |
| Exporter.CopiesOfAll | ONE_Exporter.py:75-77 | Every attachment that a readable note of the list embeds is copied while flattening the list. |
| Exporter.OneExporter.TraverseAndCollect | ONE_Exporter.py:135-148 | The new `notes_in_scope`, `structure_map` and success flag are exactly those of `Visit`. |
| Exporter.OneExporter.TraverseChildren | ONE_Exporter.py:147-148 | The loop over the children is exactly `VisitAll` and stops at the first failure. |
| Exporter.OneExporter.GenerateMocFromBlueprint | ONE_Exporter.py:113-133 | The guide written is the header followed by the blueprint lines joined by newlines. Nothing else changes. |
| Exporter.OneExporter.GenerateMocFromStructure | ONE_Exporter.py:150-161 | The guide written is the header followed by the structure lines from the start note joined by newlines. Nothing else changes. |
| Exporter.OneExporter.BuildPackage | ONE_Exporter.py:88-111 | A run fails only when manual mode cannot read the outline note, when automatic mode's depth setting is neither a number nor `infinite`, or when a note put in scope cannot be read; unresolved links never stop it. On success in manual mode: the scope gains the outline's resolved `.md` plain links, all are flattened, and the guide follows the outline. In automatic mode: the depth setting is a number or `infinite`, the scope and structure map are those of the walk, all are flattened, and the guide follows the structure map. In both modes every newly processed note not named `_MOC_Guide.md` has its flattened text in the notes folder, and every attachment it embeds was copied. Whether or not it succeeds: manual mode leaves the structure map alone; scope and processed notes only grow; files under names that are neither a scope note's nor the guide's are untouched; the copy log keeps its old entries and grows by exactly the copies of the notes flattened. |

## Left out

- `main()`, the tkinter dialogs and `config_tool.py` are not part of this model. They are GUI and settings persistence.
- `convert_package`, `_build_pandoc_command` and `_run_pandoc_command` are not modelled. They launch pandoc and check template files.
- `_create_export_structure` and the time-stamped folder name are not modelled. They depend on the clock and directory creation.
- VaultIndex.BuildVaultIndex: a folder that `os.walk` cannot list is skipped silently by the source (no `onerror` handler), so its files are missing from the index and no error is raised. The model's `Folder` tree always lists, so listing errors are absent from it.
- Real file I/O is modelled as maps: `read_text`, `write_text` and `shutil.copy`. Write or copy errors and `path.exists()` races are not modelled.
- `unquote` and `yaml.safe_load` are parameters. No property of percent-decoding or YAML parsing is assumed.
- `datetime.now()` is the `today` parameter. Logging is dropped.
- Text.Lower: covers ASCII and Latin-1 letters only. Python's full Unicode lowercasing (multi-character results, other scripts) is not modelled.
- `\w` in `TAG_PATTERN` is taken as ASCII letters, digits and underscore. Python also matches Unicode letters there.
- Paths are absolute POSIX paths. Windows drive letters and separators are not modelled.
- `Path.resolve()` in `find_vault_for_note` is not modelled: symbolic links and `..` are not followed, and the paths are taken as already resolved.
- Config.ParseInt: accepts surrounding whitespace, an optional sign and ASCII digits. Underscores between digits and non-ASCII digits, which `int()` also accepts, are rejected.
- Config.Show: `str()` of floats, lists, mappings and dates is carried as given text rather than computed.
- The Python recursion limit is not modelled. Deep link chains could exhaust it in `_traverse_and_collect` or `write_node`.
- Guide.Header: its own contract only states that the header starts with the opening dashes and the title field. The property the guide relies on is `Guide.HeaderIsFrontMatter`.
- Traversal.Visit: its own contract only bounds the scope. Its faithfulness, consistency and depth properties are the lemmas `VisitFaithful`, `VisitConsistent` and `VisitDepths`.
- Exporter.OneExporter.FlattenScope: when two scope notes share a file name, the file holds one of the two texts (the later write wins). The contract states only that it is some scope note's text of that name, because set iteration order is not modelled.
- Exporter.OneExporter.BuildPackage: a failed run stops at the first exception. For the partial state it leaves, the contract gives only the frame (what grows, what is kept, what the copy log gained), not which notes were written before the failure.
- Exporter.OneExporter.BuildPackage: a scope note whose file name is `_MOC_Guide.md` is overwritten by the guide, so the contract claims the notes folder only for the other names.
- YAML's `.inf`, `-.inf` and `.nan` are a `Yaml` constructor of their own, `YNonFinite`, carrying their `str()` text rather than a real number. They are truthy, and `int()` of them fails.
- Includes.Lookup: a directive name that is not a plain file name (`./a.md`, `a.md/`, `../Assets/p.png`, an absolute path, `.`, `..`) is read through the parameter `other`. Pathlib's normalisation of such names and the file system outside the notes folder are not modelled, so `other` may give any text or raise.
- `copied_assets` is declared but never read, so no de-duplication of copies is modelled.
- The loops of `_flatten_and_copy_note_content`, `_generate_moc_from_blueprint`, `_traverse_and_collect` and `write_node` are each split into a method per loop and per loop turn. For loops that do not touch the exporter's fields, the methods live at module level. The behaviour is the same; only the proof is divided.
