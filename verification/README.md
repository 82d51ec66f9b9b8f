# Docs content pipeline and code playground, in Dafny

A model of the content side of the course documentation site: the scripts that bring the course's
Markdown chapters into the Nextra content tree, the route checker that walks the `_meta.json`
navigation files, and the React code playground embedded in the pages.

- `sync_naming.dfy`, `mdx_sanitizer.dfy`, `sync_from_source.dfy`: the source-repository sync
  (`apps/docs/sync_from_source.py`). It normalises chapter directory names, turns numbered file
  names into order, slug and title, and cleans Markdown for MDX. It adds YAML frontmatter, records
  the sync counters, and builds each chapter's `_meta.json` and the root `_meta.json`.
- `sync_content.dfy`: the repair sync (`apps/docs/sync_content.py`). It finds `_meta.json` entries
  with no page, looks for a source file through the chapter and slug tables, writes the converted
  page, and optionally removes entries it cannot fill.
- `migrate_vitepress.dfy`, `jsx_tags.dfy`, `migrate_converter.dfy`: the VitePress-to-Nextra
  migration (`scripts/migrate-content.py`). It covers frontmatter matching and simplification,
  the Vue/HTML-to-JSX substitutions, titles from headings and file names, and the generated
  `_meta.json` files.
- `migrate_content.dfy`: moving `content/docs` up to the content root
  (`apps/docs/migrate_content.py`). It covers validation, collection, link repair, the new root
  `_meta.json` and the clean-up decision.
- `verify_routes.dfy`: route collection and checking (`apps/docs/verify-routes.js`). It covers
  the recursive scan, de-duplication by URL, and batched checks over a probe function.
- `code_playground.dfy`: the playground component
  (`apps/docs/src/components/mdx/code-playground.tsx`). Its state is a class. It models the
  console capture, the output text, the error panel and the editor height.
- Shared helpers: `text.dfy` (Python and JavaScript string operations), `rewrite.dfy` (left-to-right
  `re.sub` over position matchers), `markdown.dfy` (heading capture, `Path.stem`),
  `meta.dfy` (JSON objects as ordered entry lists), `sorting.dfy` (Python's stable `sorted`),
  and `option.dfy`.

The filesystem is represented by values passed in: directory listings, maps from paths to text,
and flags for existence. The state the scripts keep on `self` (counters, recorded lists,
written files) is held in classes whose methods are proved against specification functions.

## Model

| member | source | states |
|---|---|---|
| SyncNaming.ChapterDigits | apps/docs/sync_from_source.py:102 | a match of `^chapter(\d+)$` (any case) captures a nonempty run of digits |
| SyncNaming.NormalizeChapterName | apps/docs/sync_from_source.py:100-105 | a matching name becomes `chapter-` followed by its digits with `0`s in front up to width 2: the length is 8 plus the larger of 2 and the digit count, every character between `chapter-` and the digits is `0`, and the digits end the name; any other name is returned unchanged |
| SyncNaming.NormalizeIdempotent | apps/docs/sync_from_source.py:100-105 | normalising a normalised name changes nothing |
| SyncNaming.EndAnchored | apps/docs/sync_from_source.py:118 | `$` without MULTILINE accepts the text or the text less one final newline |
| SyncNaming.ParseNumbered | apps/docs/sync_from_source.py:118-120 | a stem matching `^(\d+)\.(\d+)-(.+)$` yields two nonempty digit groups and a nonempty one-line title that reassemble the stem |
| SyncNaming.ExtractFileInfo | apps/docs/sync_from_source.py:107-128 | a `readme` stem (any case) gives `(0, "index", "章节概览")`; a stem `X.Y-title` gives order `X*100+Y`, the title and its slug; any other stem gives order 999, the stem and its slug |
| SyncNaming.OrderFollowsNumbering | apps/docs/sync_from_source.py:120-121 | while minor numbers stay below 100, the order compares major numbers first and minor numbers second |
| SyncNaming.FirstSectionInfo | apps/docs/sync_from_source.py:108-110 | the documented example `1.1-什么是智能体.md` yields order 101, not the 11 the docstring gives, with slug `what-is-agent` |
| SyncNaming.FirstSectionNumbering | apps/docs/sync_from_source.py:118-120 | `1.1-什么是智能体` splits into major `1`, minor `1` and its title |
| SyncNaming.FirstSectionSlug | apps/docs/sync_from_source.py:133-134 | the table maps `什么是智能体` to `what-is-agent` |
| SyncNaming.GenerateSlug | apps/docs/sync_from_source.py:130-210 | a title in the table gets its table slug; any other title gets a slug-shaped result |
| SyncNaming.AutoSlug | apps/docs/sync_from_source.py:204-210 | the automatic slug is nonempty, lower-case, made of word/CJK characters and single dashes, with no dash at either end |
| SyncNaming.PageShaped | apps/docs/sync_from_source.py:210 | the fallback `page` has that shape |
| SyncNaming.AutoSlugShape | apps/docs/sync_from_source.py:205-208 | after lowering, dashing, collapsing and stripping, no `--` run is left, only slug characters and dashes remain, and neither end is a dash |
| SyncNaming.DashedChars | apps/docs/sync_from_source.py:206 | replacing every run of other characters by `-` leaves only lower-case slug characters and dashes |
| SyncNaming.TrimKeepsShape | apps/docs/sync_from_source.py:208 | `strip('-')` keeps that alphabet and the absence of `--`, and leaves no dash at either end |
| SyncNaming.CollapseNoDoubleDash | apps/docs/sync_from_source.py:207 | `re.sub(r'-+', '-', …)` leaves no two dashes in a row and keeps a leading non-dash character |
| MdxSanitizer.Placeholder | apps/docs/sync_from_source.py:246 | a saved block's placeholder starts with `__CODE_BLOCK_` and ends with `__` |
| MdxSanitizer.FenceAt | apps/docs/sync_from_source.py:249 | a fenced block match spans at least the six backticks and stays inside the text |
| MdxSanitizer.InlineCodeAt | apps/docs/sync_from_source.py:251 | an inline code match spans at least two backticks and one character and stays inside the text |
| MdxSanitizer.Protect | apps/docs/sync_from_source.py:243-251 | replacing code by placeholders only appends to the saved blocks |
| MdxSanitizer.ProtectNone | apps/docs/sync_from_source.py:249-251 | where no code matches, the text is kept and nothing is saved |
| MdxSanitizer.AttrNameEnd | apps/docs/sync_from_source.py:271 | an attribute start `(\w+)="` at `i` ends with `="` after a nonempty name |
| MdxSanitizer.ValueFrom | apps/docs/sync_from_source.py:278-299 | a value holds no `"`, and it stops at a quote followed by space, `/`, `>`, tab, newline or the end, or at the end |
| MdxSanitizer.NextAt | apps/docs/sync_from_source.py:274-304 | each step of the scan moves forward, at most one past the end |
| MdxSanitizer.AttrPiecesWellFormed | apps/docs/sync_from_source.py:266-306 | every attribute `fix_attributes` rebuilds has a nonempty word-character name and a value without `"` |
| MdxSanitizer.FixAttributesNoQuotes | apps/docs/sync_from_source.py:266-306 | text without `"` holds no attribute and comes back unchanged |
| MdxSanitizer.ScanValue | apps/docs/sync_from_source.py:278-299 | the inner `while` loop collects exactly the value `ValueFrom` describes and stops where it does |
| MdxSanitizer.ReadPiece | apps/docs/sync_from_source.py:270-304 | one outer step writes the attribute or character found at `i` and moves to the same place as the specification |
| MdxSanitizer.FixAttributesScan | apps/docs/sync_from_source.py:266-306 | the index-walking loop builds exactly the rendering of the pieces |
| MdxSanitizer.FixHtmlTag | apps/docs/sync_from_source.py:258-328 | placeholders and closing tags are kept; any other tag comes out as `<`…`>` and ends in ` />` exactly when it is an `img`, `br` or `hr` tag or its inside ends in `/` |
| MdxSanitizer.FixHtmlTagNoQuotes | apps/docs/sync_from_source.py:309-328 | a tag without quotes keeps its inside and only its ending is normalised |
| MdxSanitizer.StrayQuoteRendered | apps/docs/sync_from_source.py:282-290 | `t="x"y"` is rebuilt as `t="xy"`: a quote not followed by an ending character is dropped |
| MdxSanitizer.StrayQuotePieces | apps/docs/sync_from_source.py:266-306 | that tag's inside is one attribute `t` with value `xy` |
| MdxSanitizer.StrayQuoteValue | apps/docs/sync_from_source.py:278-299 | that value is `xy` and the scan stops at the final quote |
| MdxSanitizer.FixHtmlTagClosedBr | apps/docs/sync_from_source.py:313-324 | a `<br />` reaching the tag repair keeps its inside and gains a space: `<br  />` |
| MdxSanitizer.SanitizePlainText | apps/docs/sync_from_source.py:240-343 | text with no `<` and no backtick comes through the whole clean-up unchanged |
| MdxSanitizer.NoBrOccurs | apps/docs/sync_from_source.py:341 | text with no `<` holds no `<br>` |
| MdxSanitizer.NoTagStage | apps/docs/sync_from_source.py:254-341 | each stage after the code protection leaves text with no `<` unchanged |
| MdxSanitizer.Description | apps/docs/sync_from_source.py:357-358 | the description is the first `# ` heading, which is nonempty, on one line and does not start with a space; the title when there is none |
| MdxSanitizer.WithFrontmatter | apps/docs/sync_from_source.py:352-369 | the page starts with `---` and ends with the cleaned text; text starting with `---` is returned as it is, and any other text gets the title/description block in front |
| MdxSanitizer.EscapeChars | apps/docs/sync_from_source.py:361 | escaping never shortens the text |
| MdxSanitizer.EscapeQuotesIsEscapeChars | apps/docs/sync_from_source.py:361 | `replace('"', '\\"')` puts a backslash before exactly the quotes |
| MdxSanitizer.EscapeCharsReadBack | apps/docs/sync_from_source.py:361-368 | a one-line value with every quote and backslash escaped reads back from the YAML double-quoted string as itself |
| MdxSanitizer.DescriptionReadsBack | apps/docs/sync_from_source.py:361-368 | a one-line description with no backslash reads back whole |
| MdxSanitizer.EscapeCharsNone | apps/docs/sync_from_source.py:361 | text with nothing to escape is kept |
| MdxSanitizer.EscapeQuotesNoQuote | apps/docs/sync_from_source.py:361 | a description without quotes is written as it is |
| MdxSanitizer.PlainRead | apps/docs/sync_from_source.py:365 | reading a plain character adds it to the value |
| MdxSanitizer.NewlineEscapeRead | apps/docs/sync_from_source.py:365 | YAML reads `\n` inside double quotes as a line break |
| MdxSanitizer.DriveNewlineRead | apps/docs/sync_from_source.py:365 | YAML reads `C:\new` as `C:`, a line break and `ew` |
| MdxSanitizer.DescriptionMisread | apps/docs/sync_from_source.py:361-365 | a heading `C:\new` is written unescaped and read back with a line break instead |
| MdxSanitizer.FrontmatterReadsBack | apps/docs/sync_from_source.py:361-365 | with backslashes escaped too, every one-line value reads back as itself |
| MdxSanitizer.ConvertMdToMdxChecked | apps/docs/sync_from_source.py:345-369 | the corrected conversion keeps the shape of the original (starts with `---`, ends with the cleaned text, kept when already fronted) with a correctly escaped block |
| SyncFromSource.TargetName | apps/docs/sync_from_source.py:383 | the target is `index.mdx` exactly for the slug `index`; otherwise its stem is the slug and its suffix `.mdx` |
| SyncFromSource.Mappings | apps/docs/sync_from_source.py:377-392 | one mapping per listed `.md` file |
| SyncFromSource.MappingsAt | apps/docs/sync_from_source.py:377-392 | mapping `i` is built from file `i` |
| SyncFromSource.MappingForWellMapped | apps/docs/sync_from_source.py:379-384 | each mapping carries the order its file name gives and goes to `index.mdx` exactly when its slug is `index` |
| SyncFromSource.MappingFromTarget | apps/docs/sync_from_source.py:383-384 | the target path is the chapter's `index.mdx` exactly when the slug is `index` |
| SyncFromSource.ScannedChapterShape | apps/docs/sync_from_source.py:371-395 | the scanned pages are sorted by order, are a permutation of the mappings, keep listing order among equal orders (a stable sort), and are each well mapped |
| SyncFromSource.ChapterMeta | apps/docs/sync_from_source.py:397-402 | the chapter meta has distinct keys, and its keys are exactly the pages' slugs |
| SyncFromSource.ChapterMetaInOrder | apps/docs/sync_from_source.py:397-402 | with distinct slugs the meta lists every page once, in scanned order, under its title |
| SyncFromSource.Tally | apps/docs/sync_from_source.py:457-476 | exactly one counter goes up by one, the one for the outcome, and the scanned count is kept |
| SyncFromSource.SyncFileOutcome | apps/docs/sync_from_source.py:446-477 | as written: skipped exactly when an existing target is no older than its source and the sync is not full; an error exactly when not skipped and the conversion fails |
| SyncFromSource.CreatedOnlyInDryRun | apps/docs/sync_from_source.py:462-473 | as written, a page counts as created only in a dry run on a missing target |
| SyncFromSource.NewPageCountedAsUpdated | apps/docs/sync_from_source.py:466-471 | a page written for the first time outside a dry run counts as updated |
| SyncFromSource.SyncFileOutcomeChecked | apps/docs/sync_from_source.py:446-477 | corrected: skipped and error as before; created exactly for a new target, updated exactly for an existing one that is rewritten |
| SyncFromSource.RootPagesAfter | apps/docs/sync_from_source.py:215-235 | recording root pages keeps the meta's keys distinct |
| SyncFromSource.RootPagesKeys | apps/docs/sync_from_source.py:215-235 | a key is in the meta after the loop exactly when it was before or a published page has that slug |
| SyncFromSource.PublishedCount | apps/docs/sync_from_source.py:234-235 | at most one recorded page per file |
| SyncFromSource.FailedCount | apps/docs/sync_from_source.py:236-237 | the pages recorded and the pages failing are together at most the files listed |
| SyncFromSource.ChapterKey | apps/docs/sync_from_source.py:489 | the key is `chapter-` followed by the two decimal digits of the number |
| SyncFromSource.ChapterKeyPadded | apps/docs/sync_from_source.py:489 | the key is `"chapter-" + str(i).zfill(2)` |
| SyncFromSource.NormalizedChapterKey | apps/docs/sync_from_source.py:100-105 | normalising the directory name `chapter<n>` gives exactly the key `chapter-{str(n).zfill(2)}` that the root meta (line 489) uses for chapter `n` |
| SyncFromSource.ChapterKeyInjective | apps/docs/sync_from_source.py:488-489 | two chapter numbers give the same key only when they are equal |
| SyncFromSource.ChapterEntries | apps/docs/sync_from_source.py:487-492 | the chapter entries have distinct keys, each a `chapter-NN` key of a numbered chapter in range whose directory holds a page |
| SyncFromSource.ExtraEntries | apps/docs/sync_from_source.py:494-498 | the extra entries have distinct keys, each `learning-map` or `resources` and each an existing directory |
| SyncFromSource.RootMeta | apps/docs/sync_from_source.py:479-498 | the root meta is never empty and starts with the `index` entry |
| SyncFromSource.SortedRootPagesFresh | apps/docs/sync_from_source.py:481-485 | the index followed by the root pages sorted by slug has distinct keys |
| SyncFromSource.RootMetaOrder | apps/docs/sync_from_source.py:479-498 | the root meta is the index, the root pages in slug order, the published chapters in number order, then the extra directories |
| SyncFromSource.PutChapters | apps/docs/sync_from_source.py:487-492 | the `for i in range(1, 17)` loop adds exactly the chapter entries |
| SyncFromSource.PutExtras | apps/docs/sync_from_source.py:494-498 | the extras loop adds exactly the extra entries |
| SyncFromSource.ContentSync.constructor | apps/docs/sync_from_source.py:51-93 | a fresh sync has zero counters and no recorded root pages |
| SyncFromSource.ContentSync.ScanSourceChapter | apps/docs/sync_from_source.py:371-395 | returns the scanned chapter and adds one to `scanned` per file listed, changing nothing else |
| SyncFromSource.ContentSync.GenerateChapterMeta | apps/docs/sync_from_source.py:397-402 | the loop builds exactly the chapter meta |
| SyncFromSource.ContentSync.SyncFile | apps/docs/sync_from_source.py:446-477 | as written: counts the as-written outcome; writes the target only outside a dry run when the page is not skipped and its conversion succeeds |
| SyncFromSource.ContentSync.SyncFileChecked | apps/docs/sync_from_source.py:446-477 | corrected: the same writes, counted by the corrected outcome |
| SyncFromSource.ContentSync.SyncRootPage | apps/docs/sync_from_source.py:215-237 | one root page is counted as scanned; the index is skipped; any other page is recorded and counted as updated, or counted as an error |
| SyncFromSource.ContentSync.SyncRootPagesInOrder | apps/docs/sync_from_source.py:215-237 | the loop leaves the meta, the counters and the written pages equal to their specifications over the sorted names |
| SyncFromSource.ContentSync.SyncRootPages | apps/docs/sync_from_source.py:212-238 | the root pages are handled in name order, with the same results |
| SyncFromSource.ContentSync.GenerateRootMeta | apps/docs/sync_from_source.py:479-498 | returns exactly the root meta of the recorded root pages |
| SyncContent.SlugPatternsEntry | apps/docs/sync_content.py:73-130 | every slug in the patterns table has at least one source stem |
| SyncContent.Patterns | apps/docs/sync_content.py:148 | the patterns tried for a slug are never empty |
| SyncContent.PatternsDefault | apps/docs/sync_content.py:148 | a slug the table does not name is tried as its own only pattern |
| SyncContent.AfterNumber | apps/docs/sync_content.py:162-164 | what follows a `N.N-` number is a proper suffix of the stem |
| SyncContent.FirstAccepted | apps/docs/sync_content.py:150-167 | the index found is accepted and no earlier file is; none is found only when no file is accepted |
| SyncContent.SourceFileFirst | apps/docs/sync_content.py:137-169 | no file for a chapter without a source directory; a file found is the first listed file of that directory that is not a README and that some pattern overlaps |
| SyncContent.AfterNumberOverlaps | apps/docs/sync_content.py:156-167 | the numeric-prefix fallback only accepts stems the substring test already accepted |
| SyncContent.AcceptsByOverlap | apps/docs/sync_content.py:150-167 | a stem is accepted exactly when it is not a README and some pattern overlaps it |
| SyncContent.StemMatches | apps/docs/sync_content.py:151-167 | the inner loops for one file accept exactly the stems `Accepts` describes |
| SyncContent.FindSourceFile | apps/docs/sync_content.py:137-169 | the lookup returns exactly the specified source file |
| SyncContent.ConvertMdToMdx | apps/docs/sync_content.py:171-192 | a page with a frontmatter block is kept; any other page is kept whole after a new block whose description is the first heading or the title; the result always has a frontmatter block |
| SyncContent.PrefixFrontmatter | apps/docs/sync_content.py:176-190 | the block this script writes is always recognised as a frontmatter block |
| SyncContent.ConvertIdempotent | apps/docs/sync_content.py:171-192 | converting a converted page changes nothing |
| SyncContent.MissingIn | apps/docs/sync_content.py:221-239 | at most one reported page per entry |
| SyncContent.MissingInMembers | apps/docs/sync_content.py:221-239 | a page is reported for a `_meta.json` exactly when it declares it, its title is not an object, its slug is not `index`, no such directory exists and neither `.mdx` nor `.md` file exists |
| SyncContent.MissingMembers | apps/docs/sync_content.py:214-241 | a page is reported exactly when some `_meta.json` of its directory declares it and it passes those tests |
| SyncContent.CheckMeta | apps/docs/sync_content.py:221-239 | the entry loop collects exactly the missing pages of one `_meta.json`, in order |
| SyncContent.CheckMissingFiles | apps/docs/sync_content.py:214-241 | the loops collect exactly the missing pages, in scan order |
| SyncContent.Unfound | apps/docs/sync_content.py:247-249 | at most one unfound record per missing page |
| SyncContent.Synced | apps/docs/sync_content.py:251-260 | at most one synced target per missing page |
| SyncContent.SyncedOrUnfound | apps/docs/sync_content.py:308-316 | every missing page ends up either synced or unfound, never both |
| SyncContent.AddSlug | apps/docs/sync_content.py:314-316 | the slug is appended to its chapter's list; a new chapter goes last with just that slug; no other chapter is added or removed |
| SyncContent.AddSlugOther | apps/docs/sync_content.py:314-316 | the lists of the other chapters are unchanged |
| SyncContent.Grouped | apps/docs/sync_content.py:308-316 | `unfound_by_chapter` built pair by pair never holds a chapter twice |
| SyncContent.FixMetas | apps/docs/sync_content.py:263-281 | repairing the `_meta.json` files of the groups in turn creates and deletes no file, changes nothing in a dry run, and records only files that exist |
| Text.IntToString | apps/docs/sync_content.py:186-187 | an integer's text is nonempty and on one line, and its digits read back to the integer, after a `-` exactly when it is negative |
| SyncContent.GroupedSpec | apps/docs/sync_content.py:308-316 | `unfound_by_chapter` has a list for exactly the chapters of the unfound pages, each holding that chapter's slugs in order |
| SyncContent.GroupedStep | apps/docs/sync_content.py:310-316 | one more missing page joins its chapter's list exactly when it has no source file |
| SyncContent.SyncWritesKeys | apps/docs/sync_content.py:243-261 | syncing writes exactly the targets recorded as synced and leaves every other page's text alone |
| SyncContent.SyncWritesStep | apps/docs/sync_content.py:243-261 | one more missing page writes its converted text exactly when it has a source file |
| SyncContent.FixMetasShrink | apps/docs/sync_content.py:263-281 | outside a dry run, a `_meta.json` not recorded as fixed is left as it was |
| SyncContent.FixMetasUntouched | apps/docs/sync_content.py:320-325 | a `_meta.json` that no group's chapter names is left as it was and never recorded as fixed |
| SyncContent.FixMetasRepairs | apps/docs/sync_content.py:320-325 | with distinct group chapters, on a real run, the `_meta.json` of each group's chapter becomes its old entries less that group's slugs, in order, and it is recorded as fixed exactly when that removed an entry |
| SyncContent.FixMetasUnfound | apps/docs/sync_content.py:320-325 | with the groups built from the unfound pages, a chapter's `_meta.json` loses exactly the slugs of its unfound pages, and it is recorded as fixed exactly when one of them was listed |
| SyncContent.TitleText | apps/docs/sync_content.py:186-187 | the title is written as `str()` writes it: a string as it is, `True`/`False`, an integer whose digits read back to it with a sign exactly when negative, `None`; a non-string title other than a float is nonempty and on one line |
| SyncContent.RemoveSlugs | apps/docs/sync_content.py:268-270 | the deletions leave the object without exactly the listed slugs, in its own order |
| SyncContent.ContentSyncer.constructor | apps/docs/sync_content.py:32-71 | a new syncer has empty records |
| SyncContent.ContentSyncer.SyncFile | apps/docs/sync_content.py:243-261 | succeeds exactly when a source file is found; records the page as unfound or its target as synced; writes the converted page only outside a dry run |
| SyncContent.ContentSyncer.FixMetaFile | apps/docs/sync_content.py:263-281 | the listed slugs are removed; the file is written outside a dry run and recorded only when some entry went |
| SyncContent.ContentSyncer.SyncAll | apps/docs/sync_content.py:308-316 | the loop records exactly the unfound and synced pages of the missing list, writes their converted pages (none in a dry run) and returns the unfound slugs grouped by chapter |
| SyncContent.ContentSyncer.FixAll | apps/docs/sync_content.py:320-325 | the `_meta.json` files and the fixed list are those `FixMetas` gives for the groups, so by `FixMetasRepairs` each chapter group's `_meta.json`, when it exists, loses that group's slugs (rewritten only outside a dry run, recorded when an entry went); pages and sync records are untouched |
| SyncContent.ContentSyncer.Run | apps/docs/sync_content.py:283-344 | the unfound and synced records grow by the specified lists and the pages by the synced pages' text; with `fix_meta` the `_meta.json` files are repaired by the grouped unfound slugs, without it none changes; the run succeeds exactly when nothing was missing or nothing was ever unfound |
| MigrateVitePress.NumberPrefixEnd | scripts/migrate-content.py:233 | the number prefix `^\d+(\.\d+)?-?` lies inside the name and starts with a digit when present |
| MigrateVitePress.StripNoSeparator | scripts/migrate-content.py:235-236 | trimming adds no `-` or `_` |
| MigrateVitePress.Despace | scripts/migrate-content.py:235 | the separators become spaces and the length is kept |
| MigrateVitePress.FilenameToTitle | scripts/migrate-content.py:229-236 | the title is never empty, has no space at either end and holds no `-` or `_` |
| MigrateVitePress.TrimmedStem | scripts/migrate-content.py:231-236 | the trimmed stem has no space at either end and no separator |
| MigrateVitePress.NumberPrefixOf | scripts/migrate-content.py:233 | the prefix of `<n>.<m>-<rest>` is exactly `<n>.<m>-` |
| MigrateVitePress.NumberedTitle | scripts/migrate-content.py:229-236 | a page named `<n>.<m>-<title>.md` gets the same title as `<title>.md` |
| MigrateVitePress.ExtractTitle | scripts/migrate-content.py:221-227 | the title is never empty and has no space at either end; without a heading it is the file-name title |
| MigrateVitePress.StripKeepsFirst | scripts/migrate-content.py:226 | a heading starting with a non-space character is not stripped to nothing |
| MigrateVitePress.LastNewline | scripts/migrate-content.py:96 | the newline found is the last one in the range; none when the range holds none |
| MigrateVitePress.CloseEnd | scripts/migrate-content.py:96 | a closing `\n---\s*\n` match starts with `\n---`, is followed only by whitespace, and ends just after a newline |
| MigrateVitePress.LazyClose | scripts/migrate-content.py:96 | the lazy `(.*?)` stops at a closing line at or after the start of the body |
| MigrateVitePress.OpenBefore | scripts/migrate-content.py:96 | every block the greedy `\s*` backtracking finds is a frontmatter block |
| MigrateVitePress.FrontmatterMatch | scripts/migrate-content.py:96-97 | a match is a frontmatter block: `---`, whitespace, a newline, the body, and a closing `---` line |
| MigrateVitePress.ParseLine | scripts/migrate-content.py:118-121 | a line sets a field only when it holds `:` and does not start with a space |
| MigrateVitePress.KeptFieldsDistinct | scripts/migrate-content.py:114-123 | the result dictionary holds only `title` and `description`, each once |
| MigrateVitePress.KeptFieldsValues | scripts/migrate-content.py:117-123 | each kept field has the value of the last line that sets it |
| MigrateVitePress.KeptFieldsKeys | scripts/migrate-content.py:117-123 | a kept key is present exactly when some line sets it |
| MigrateVitePress.FieldLines | scripts/migrate-content.py:133 | one `key: value` line per field, in order |
| MigrateVitePress.JoinTerminated | scripts/migrate-content.py:133 | joining with newlines and adding one ends every line with a newline |
| MigrateVitePress.TerminatedHolds | scripts/migrate-content.py:133 | every field line is in the output, newline included |
| MigrateVitePress.SimplifiedFields | scripts/migrate-content.py:111-133 | the simplified frontmatter keeps only `title` and `description`, each once, and always has a `title` |
| MigrateVitePress.SimplifiedTitle | scripts/migrate-content.py:122-131 | its title is the last `title:` line's value, else the one made from the file name |
| MigrateVitePress.RenderTerminated | scripts/migrate-content.py:133 | every field is written on a line of its own |
| MigrateVitePress.SimplifiedTitleLine | scripts/migrate-content.py:111-133 | the output holds the `title: <title>` line |
| MigrateVitePress.SimplifyFrontmatter | scripts/migrate-content.py:111-133 | the line loop returns exactly the rendering of the simplified fields |
| MigrateVitePress.WithBlock | scripts/migrate-content.py:105-109 | the block opens with `---`, is followed by a blank line, and the rest is kept whole |
| MigrateVitePress.ConvertFrontmatter | scripts/migrate-content.py:93-109 | every result opens a frontmatter block |
| MigrateVitePress.ConvertKeepsBody | scripts/migrate-content.py:99-105 | with a block, the text after it is kept and the block becomes its simplified form |
| MigrateVitePress.ConvertAddsTitle | scripts/migrate-content.py:106-109 | without a block, the whole text is kept behind a block holding the extracted title |
| MigrateVitePress.ConvertContentAsWritten | scripts/migrate-content.py:74-91 | as written (with the `<img>` rewrite that may double the slash): every converted page opens a frontmatter block |
| MigrateVitePress.ConvertContent | scripts/migrate-content.py:74-91 | corrected (with the single-slash `<img>` rewrite): every converted page opens a frontmatter block |
| MigrateVitePress.ConvertContentHead | scripts/migrate-content.py:74-91 | with any `<img>` rewrite whose replacements start with `<`, a converted page still opens a frontmatter block |
| MigrateVitePress.DashesKept | scripts/migrate-content.py:79-89 | with any `<img>` rewrite whose replacements start with `<`, the tag rewrites leave the opening `---` line in place |
| MigrateVitePress.StemTitle | scripts/migrate-content.py:283 | the length is kept and no `-` is left |
| MigrateVitePress.TitleField | scripts/migrate-content.py:274 | a `title:` field value is nonempty and on one line |
| MigrateVitePress.FieldTitle | scripts/migrate-content.py:276 | the stripped title has no quote at either end |
| MigrateVitePress.HeadingTitle | scripts/migrate-content.py:278-280 | a heading title is nonempty, on one line and without spaces at its ends; none exactly when there is no heading |
| MigrateVitePress.GetFileTitle | scripts/migrate-content.py:269-283 | an unreadable file gets the stem title; with a `title:` field, a slice of the field's value on one line with no quote at either end; else, with a heading, a nonempty slice of it on one line with no space at either end; else the stem title |
| MigrateVitePress.TitleFieldOfHead | scripts/migrate-content.py:274 | a page that opens with a `title:` line gives that line's value |
| MigrateVitePress.AddedTitleReadBack | scripts/migrate-content.py:269-276 | the `title:` line added to a page without frontmatter is read back by `get_file_title` when it has no quote at either end |
| MigrateVitePress.MetaItems | scripts/migrate-content.py:251-260 | the `items` dictionary has distinct keys |
| MigrateVitePress.MetaItemsKeys | scripts/migrate-content.py:252-260 | its keys are exactly those of the `.mdx` pages and directories not starting with `_` |
| MigrateVitePress.MetaItemsTitle | scripts/migrate-content.py:252-260 | a listed entry is stored with its own title when no later entry has its key |
| MigrateVitePress.GenerateMetaForDir | scripts/migrate-content.py:244-267 | nothing when `_meta.json` exists or nothing is listed; otherwise the items of the entries in name order |
| MigrateVitePress.MetaWritten | scripts/migrate-content.py:262 | a `_meta.json` is written exactly when some entry is listed |
| JsxTags.TagOpen | scripts/migrate-content.py:139-196 | `<name\s+` matches at a `<` and needs at least one space |
| JsxTags.QuotedAttr | scripts/migrate-content.py:139-196 | a quoted attribute's value is nonempty, made of allowed characters, and ends at a quote |
| JsxTags.CloseWith | scripts/migrate-content.py:139-177 | `\s*` then the closing text ends after the start |
| JsxTags.ImageLinkParts | scripts/migrate-content.py:186 | a local image link is `![`, the alternative text, `](/images/`, the path and `)` |
| JsxTags.ImgTagAt | scripts/migrate-content.py:193 | an `<img>` match ends at `>`, and its `src` is nonempty and holds no quote |
| JsxTags.LiteralAt | scripts/migrate-content.py:144-204 | a literal pattern matches at its own first character and spans its length |
| JsxTags.ImgSlashDoubled | scripts/migrate-content.py:192-196 | a tag already ending in `/>` is rewritten to end in `/ />` |
| JsxTags.ImgAtChecked | scripts/migrate-content.py:192-196 | corrected: the tag always ends in a single ` />` |
| JsxTags.Unclosed | scripts/migrate-content.py:193-194 | the attributes lose a trailing slash and are kept when they have none |
| JsxTags.ImgAtCheckedAgrees | scripts/migrate-content.py:192-196 | on tags not already self-closing the corrected rewrite equals the written one |
| JsxTags.LtLead | scripts/migrate-content.py:135-204 | every Vue and HTML substitution starts at a `<` |
| JsxTags.ImgLead | scripts/migrate-content.py:192-196 | both `<img>` rewrites start at a `<` |
| JsxTags.OthersLead | scripts/migrate-content.py:185-207 | the image-link and `class=` rewrites start at `!` or `c` |
| JsxTags.StageKeepsPrefix | scripts/migrate-content.py:135-213 | one substitution keeps text before its first lead character |
| JsxTags.VueKeepsPrefix | scripts/migrate-content.py:135-179 | `convert_vue_to_jsx` keeps text before the first `<`, `!` or `c` |
| JsxTags.ConvertTagsKeepsPrefix | scripts/migrate-content.py:79-89 | the tag rewrites keep text before the first `<`, `!` or `c` |
| JsxTags.StepsInert | scripts/migrate-content.py:154-158 | the `<Steps>` substitution changes nothing |
| JsxTags.ImageLinksInert | scripts/migrate-content.py:185-189 | the local image link substitution puts back exactly what it matched |
| JsxTags.VuePlain | scripts/migrate-content.py:135-179 | text with no `<` passes `convert_vue_to_jsx` unchanged |
| JsxTags.ClassPlain | scripts/migrate-content.py:207 | text with no `class=` is unchanged by that rewrite |
| JsxTags.ConvertTagsPlain | scripts/migrate-content.py:79-89 | text with no `<` and no `class=` passes every tag rewrite unchanged |
| MigrateConverter.TargetPath | scripts/migrate-content.py:58-59 | the target path ends in `.mdx` |
| MigrateConverter.WrittenBy | scripts/migrate-content.py:55-72 | a file that reads writes one page; one that fails writes none |
| MigrateConverter.FailureOf | scripts/migrate-content.py:44-46 | a failing file is recorded once |
| MigrateConverter.ConvertedStep | scripts/migrate-content.py:40-46 | one more file extends both records by its own outcome |
| MigrateConverter.ConvertedOrFailed | scripts/migrate-content.py:40-46 | every file either converts or is recorded as failed |
| MigrateConverter.ConvertedPages | scripts/migrate-content.py:55-91 | with `convert_content` as written, every written page opens with a frontmatter block and goes to an `.mdx` path |
| MigrateConverter.Converter.constructor | scripts/migrate-content.py:26-30 | a new converter uses `convert_content` as written and has counted and recorded nothing |
| MigrateConverter.Converter.ConvertFile | scripts/migrate-content.py:41-46 | one file is converted as written and written and counted, or recorded as failed |
| MigrateConverter.Converter.ConvertAll | scripts/migrate-content.py:32-46 | the written pages (converted as written) and the failures are exactly those of the files in walk order, and the count matches the pages written |
| MigrateContent.Validate | apps/docs/migrate_content.py:41-60 | the migration may start exactly when both directories exist and no name in `content/docs` is taken in `content` by anything but `docs` |
| MigrateContent.WithoutMeta | apps/docs/migrate_content.py:79-82 | every entry but `_meta.json` is kept |
| MigrateContent.CollectItemsToMigrate | apps/docs/migrate_content.py:76-83 | the loop and sort give the entries other than `_meta.json`, in name order |
| MigrateContent.CollectedItems | apps/docs/migrate_content.py:76-83 | the items collected are sorted by name and are exactly the entries other than `_meta.json` |
| MigrateContent.UpdateLinks | apps/docs/migrate_content.py:97-99 | replacing `](/docs/docs/` by `](/docs/` never lengthens the text |
| MigrateContent.LinksChange | apps/docs/migrate_content.py:85-111 | a file is reported as updated exactly when it can be read and holds a nested `/docs/docs/` link |
| MigrateContent.Lookup | apps/docs/migrate_content.py:189 | a key is found exactly when the table holds it, with its value |
| MigrateContent.ChapterDirs | apps/docs/migrate_content.py:152-162 | the chapter directories are exactly the listed directories whose names start with `chapter-` |
| MigrateContent.ChapterEntries | apps/docs/migrate_content.py:188-189 | one entry per chapter, titled from the table or by its own name |
| MigrateContent.RootMetaOrder | apps/docs/migrate_content.py:184-195 | with distinct chapter names the meta is `index`, the chapters in order with their titles, then the extra pages asked for |
| MigrateContent.RootMetaKeys | apps/docs/migrate_content.py:184-195 | the meta's keys are `index`, the chapters, and the extra pages asked for |
| MigrateContent.ExtraPagesListed | apps/docs/migrate_content.py:152-195 | `learning-map` and `resources` are listed exactly when asked for; no chapter directory can stand in for them |
| MigrateContent.SortedChapters | apps/docs/migrate_content.py:152-162 | the sorted chapter list holds exactly the chapter directories |
| MigrateContent.SortedDistinct | apps/docs/migrate_content.py:152-155 | sorting the names of one directory keeps them distinct |
| MigrateContent.GenerateRootMeta | apps/docs/migrate_content.py:137-195 | the meta is built from the content root's chapters, or `content/docs`'s in a dry run, with the extra pages the old meta names or `content/docs` holds |
| MigrateContent.NonMetaNames | apps/docs/migrate_content.py:214-215 | every name but `_meta.json` is kept |
| MigrateContent.CleanupRemoves | apps/docs/migrate_content.py:211-228 | `content/docs` is removed exactly when it holds nothing but `_meta.json` |
| MigrateContent.UpdatedPaths | apps/docs/migrate_content.py:128-135 | at most one report per page |
| MigrateContent.Names | apps/docs/migrate_content.py:125 | the migrated names are the items' names, in order |
| MigrateContent.PathsOf | apps/docs/migrate_content.py:131-135 | the paths of the written files, in order |
| MigrateContent.PagesVisited | apps/docs/migrate_content.py:127-135 | as written: a dry run visits the pages of every directory item and every `.mdx` file item; a real run visits only `.mdx` file items, since the moved directory's old path is no longer a directory |
| MigrateContent.NestedPageMissed | apps/docs/migrate_content.py:118-131 | a real run leaves a page with a `/docs/docs/` link inside a moved `chapter-01` directory unchecked, though the page needs its link rewritten |
| MigrateContent.MovedPagesRepaired | apps/docs/migrate_content.py:127-131 | corrected: every page of a moved item whose links change is rewritten and reported as updated in a real run |
| MigrateContent.DryRunWritesNothing | apps/docs/migrate_content.py:102-106 | a dry run writes no file back |
| MigrateContent.UpdatedAreWritten | apps/docs/migrate_content.py:101-107 | in a real run, the files reported as updated are exactly the files written back, in order |
| MigrateContent.WrittenWereNested | apps/docs/migrate_content.py:97-107 | every file written back held a nested link and its text changed |
| MigrateContent.Listing | apps/docs/migrate_content.py:153 | a listing pairs each name with whether it is a directory |
| MigrateContent.OnlyMeta | apps/docs/migrate_content.py:215 | the entries left are exactly the `_meta.json` ones |
| MigrateContent.DocsAfter | apps/docs/migrate_content.py:118-122 | after the move `content/docs` holds everything in a dry run and only `_meta.json` otherwise |
| MigrateContent.RealRunEmptiesDocs | apps/docs/migrate_content.py:211-226 | after a real move the cleanup always removes `content/docs` |
| MigrateContent.ExtraPageFoundAsWritten | apps/docs/migrate_content.py:192-195 | as written, an extra page is found under `content/docs` only in a dry run |
| MigrateContent.MovedPageMissed | apps/docs/migrate_content.py:192-195 | a moved `learning-map` directory is seen by the dry-run preview but not by the real run |
| MigrateContent.ExtraPageFound | apps/docs/migrate_content.py:192-195 | corrected: found exactly when `content/docs` held it before the move |
| MigrateContent.MovedPageListed | apps/docs/migrate_content.py:192-195 | with the corrected check a moved `learning-map` is listed in the root meta whatever the run |
| MigrateContent.ContentMigrator.constructor | apps/docs/migrate_content.py:26-35 | a new migrator has empty records |
| MigrateContent.ContentMigrator.UpdatePage | apps/docs/migrate_content.py:85-111 | one page adds its path to the updated files exactly when its links change; it is written back only outside a dry run |
| MigrateContent.ContentMigrator.MigrateItem | apps/docs/migrate_content.py:115-135 | as written: one item is recorded as migrated and the pages it visits are checked in turn (a directory's pages only in a dry run) |
| MigrateContent.ContentMigrator.MigrateItems | apps/docs/migrate_content.py:113-135 | as written: the records grow by exactly the items' names and the updated paths and written files of the pages each visits |
| MigrateContent.ContentMigrator.Run | apps/docs/migrate_content.py:230-272 | as written (pages of moved directories go unchecked in a real run; the extra pages are looked for after the move): a failed validation changes nothing; otherwise the items are migrated, the root meta is built and the cleanup removes `content/docs` always in a real run and exactly when nothing but `_meta.json` is there in a dry run |
| VerifyRoutes.FindSubdir | apps/docs/verify-routes.js:29-33 | the subdirectory found has the slug's name; none is found only when no subdirectory has it |
| VerifyRoutes.RoutePath | apps/docs/verify-routes.js:30 | the route path extends the prefix, and is `/slug` at the root |
| VerifyRoutes.ScanUnder | apps/docs/verify-routes.js:19-59 | every route scanned lies under `/docs` plus the prefix and has a title that is not an object |
| VerifyRoutes.EntriesUnder | apps/docs/verify-routes.js:26-54 | the same for the routes of the first entries of a meta |
| VerifyRoutes.EntryUnder | apps/docs/verify-routes.js:27-53 | the same for the routes of one entry |
| VerifyRoutes.EntriesContain | apps/docs/verify-routes.js:26-54 | the routes of each entry are among the routes of the meta, in the loop's order |
| VerifyRoutes.PageListed | apps/docs/verify-routes.js:41-52 | an entry with a plain title and no such directory gives a page route exactly when a `.mdx` or `.md` file backs it or it is `index` (whose URL is the directory's own), and that route is scanned |
| VerifyRoutes.DirListed | apps/docs/verify-routes.js:33-40 | an entry naming a subdirectory gives a directory route, and every route of the subdirectory is scanned too |
| VerifyRoutes.RouteCollector.constructor | apps/docs/verify-routes.js:17 | the route list starts empty |
| VerifyRoutes.RouteCollector.ScanDir | apps/docs/verify-routes.js:19-59 | `scanDir` appends exactly the scanned routes of the directory |
| VerifyRoutes.RouteCollector.AddEntry | apps/docs/verify-routes.js:26-53 | one loop iteration appends exactly the routes of its entry |
| VerifyRoutes.UrlSet | apps/docs/verify-routes.js:65-69 | a URL is in the set exactly when some route has it |
| VerifyRoutes.FirstOccurrencesSpec | apps/docs/verify-routes.js:64-70 | removing duplicates keeps every URL, keeps each URL once, and keeps the first route with each URL |
| VerifyRoutes.UrlSetSnoc | apps/docs/verify-routes.js:68 | adding a route adds its URL to the seen set |
| VerifyRoutes.FirstExtends | apps/docs/verify-routes.js:66-69 | a first occurrence stays first when more routes follow |
| VerifyRoutes.Dedup | apps/docs/verify-routes.js:65-70 | the `seen`-set filter returns exactly the first occurrences |
| VerifyRoutes.CollectRoutes | apps/docs/verify-routes.js:16-71 | the routes are the first occurrences of the routes scanned from the content root |
| VerifyRoutes.CheckUrl | apps/docs/verify-routes.js:74-93 | the check carries its URL; it is ok exactly when the answer is 200; status 0 when the request fails |
| VerifyRoutes.FindTitleFirst | apps/docs/verify-routes.js:115-121 | a title is found exactly when some route has the URL, and it is that of the first such route |
| VerifyRoutes.PartitionCount | apps/docs/verify-routes.js:114-123 | every checked route lands in exactly one of `passed` and `failed` |
| VerifyRoutes.PassedSpec | apps/docs/verify-routes.js:116-118 | `passed` holds exactly the ok checks of the routes |
| VerifyRoutes.FailedSpec | apps/docs/verify-routes.js:119-122 | `failed` holds exactly the failed checks, each with the title found for its URL |
| VerifyRoutes.NoneFailed | apps/docs/verify-routes.js:114-123 | nothing fails when every route answers 200 |
| VerifyRoutes.AllPassed | apps/docs/verify-routes.js:141 | `failed` is empty exactly when every route answers 200 |
| VerifyRoutes.FailureTitle | apps/docs/verify-routes.js:115 | with distinct URLs a failure carries its own route's title |
| VerifyRoutes.BatchesCover | apps/docs/verify-routes.js:109-111 | the batches hold one to five routes each and, end to end, are all the routes |
| VerifyRoutes.VerifyAll | apps/docs/verify-routes.js:96-142 | `passed` and `failed` are exactly the specified lists, and the result is true exactly when every route answers 200 |
| VerifyRoutes.CheckBatch | apps/docs/verify-routes.js:111-123 | one batch extends `passed` and `failed` by its routes' results, in batch order |
| CodePlayground.FormatLine | apps/docs/src/components/mdx/code-playground.tsx:37-41 | one argument prints as itself; no argument prints as an empty line |
| CodePlayground.OutputLines | apps/docs/src/components/mdx/code-playground.tsx:52-55 | the logged lines come first, in call order, followed by the result's line unless the result is `undefined` |
| CodePlayground.OutputText | apps/docs/src/components/mdx/code-playground.tsx:56 | the output text is never empty |
| CodePlayground.JoinSnoc | apps/docs/src/components/mdx/code-playground.tsx:56 | one more line follows a line break |
| CodePlayground.ResultShown | apps/docs/src/components/mdx/code-playground.tsx:52-56 | a returned value other than `undefined` is the last line of the output |
| CodePlayground.JoinEmpty | apps/docs/src/components/mdx/code-playground.tsx:56 | the lines join to nothing exactly when there are none or one empty line |
| CodePlayground.NoOutput | apps/docs/src/components/mdx/code-playground.tsx:56 | with no result and no log line, or one empty one, the panel says `(no output)` |
| CodePlayground.SplitJoin | apps/docs/src/components/mdx/code-playground.tsx:56 | joining lines free of line breaks and splitting at line breaks gives the lines back |
| CodePlayground.OutputSplits | apps/docs/src/components/mdx/code-playground.tsx:35-56 | when no printed value spans several lines, the output splits back into one line per log call and the result line |
| CodePlayground.EditorRows | apps/docs/src/components/mdx/code-playground.tsx:102 | the editor has as many rows as the snippet has lines, clamped to 5..15 |
| CodePlayground.PanelText | apps/docs/src/components/mdx/code-playground.tsx:178 | the panel text is nonempty exactly when the panel is shown; it is the error when that is a non-empty string, the output otherwise |
| CodePlayground.ThrowLeavesCapture | apps/docs/src/components/mdx/code-playground.tsx:36-61 | after a run that throws, in any playground of the page, the page's own `console.log` is never installed again, whatever runs follow |
| CodePlayground.StaysCaptured | apps/docs/src/components/mdx/code-playground.tsx:36-49 | a run started with a capturing `console.log` saves it and puts it back, so the original never returns |
| CodePlayground.ThrowExample | apps/docs/src/components/mdx/code-playground.tsx:36-61 | a throwing run followed by a returning one leaves the first run's capturing function installed |
| CodePlayground.ConsoleRestored | apps/docs/src/components/mdx/code-playground.tsx:36-61 | with the restore in a `finally`, `console.log` is what it was before, after any sequence of runs |
| CodePlayground.Console.constructor | apps/docs/src/components/mdx/code-playground.tsx:36 | the page starts with its own `console.log` installed and no capturing function yet |
| CodePlayground.Playground.constructor | apps/docs/src/components/mdx/code-playground.tsx:20-23 | the editor starts with the trimmed snippet, an empty panel and no run going, on the page's shared console |
| CodePlayground.Playground.Edit | apps/docs/src/components/mdx/code-playground.tsx:95 | an edit replaces the code only when the snippet is editable; nothing else changes |
| CodePlayground.Playground.Reset | apps/docs/src/components/mdx/code-playground.tsx:64-68 | the code goes back to the trimmed original and the panel is cleared |
| CodePlayground.Playground.BeginRun | apps/docs/src/components/mdx/code-playground.tsx:26-28 | a run starts with the panel cleared and the running flag set |
| CodePlayground.Playground.InstallCapture | apps/docs/src/components/mdx/code-playground.tsx:35-41 | the current `console.log` of the page is saved and returned, and this run's new capturing function replaces it |
| CodePlayground.Playground.CaptureLogs | apps/docs/src/components/mdx/code-playground.tsx:37-41 | each `console.log` call pushes exactly one formatted line, in call order |
| CodePlayground.Playground.FinishRunAsWritten | apps/docs/src/components/mdx/code-playground.tsx:33-61 | as written: the output is set after a return, the error after a throw or an unprintable result, and the saved `console.log` is put back unless the snippet threw (a result that cannot be printed throws after the restore) |
| CodePlayground.Playground.FinishRun | apps/docs/src/components/mdx/code-playground.tsx:33-61 | corrected: the same panel updates, and the saved `console.log` is always put back |
| CodePlayground.Playground.RunCode | apps/docs/src/components/mdx/code-playground.tsx:25-62 | as written: after a return the panel shows the output and `console.log` is as before; after a throw it shows the error text (and is shown exactly when that text is non-empty) with no output, and the run's capturing function is left installed on the page; after a result that cannot be printed it shows that error with no output, and `console.log` is as before |
| CodePlayground.Playground.RunCodeChecked | apps/docs/src/components/mdx/code-playground.tsx:25-62 | corrected: the same panel updates, and `console.log` is as before after any outcome |
| CodePlayground.OverlappingRuns | apps/docs/src/components/mdx/code-playground.tsx:25-61 | as written, when two playgrounds' runs overlap and finish in the order they started, the second puts back the first's capturing function unless its own snippet throws, so the page's `console.log` is stale even when both return |
| CodePlayground.OverlappingRunsChecked | apps/docs/src/components/mdx/code-playground.tsx:25-61 | with the restore in a `finally`, the same overlap still leaves the first run's capturing function installed |
| CodePlayground.Lines | apps/docs/src/components/mdx/code-playground.tsx:38-40 | one formatted line per call, in order |
| Markdown.FindCapture | apps/docs/sync_from_source.py:357 | `re.search` returns the capture at the first position where it succeeds: nonempty, on one line, not starting with a space; none when it succeeds nowhere |
| Markdown.FirstHeading | apps/docs/sync_from_source.py:357 | the first `# ` heading's text is nonempty, on one line and does not start with a space |
| Markdown.Suffix | apps/docs/sync_from_source.py:221 | the stem followed by the suffix is the name |
| Markdown.StemOfExtension | apps/docs/sync_from_source.py:221 | the stem of `<name>.<ext>` is the name and its suffix `.<ext>` |
| Meta.Put | apps/docs/sync_from_source.py:401 | `d[k] = v`: an existing key keeps its place and takes the new value, a new key goes last, and keys stay distinct |
| Meta.PutKeys | apps/docs/sync_from_source.py:401 | the keys after `d[k] = v` are the old ones and `k` |
| Meta.Without | apps/docs/sync_content.py:268-270 | the entries left are exactly those whose key was not deleted, in order |
| Meta.WithoutShorter | apps/docs/sync_content.py:272 | the object is shorter after the deletions exactly when some deleted key was in it |
| Meta.WithoutWithout | apps/docs/sync_content.py:268-270 | deleting two key sets in turn deletes their union |
| Meta.PutAllKeys | apps/docs/sync_from_source.py:484-498 | after a run of assignments the keys are the old ones and those assigned |
| Meta.PutAllFresh | apps/docs/sync_from_source.py:484-498 | assigning keys that are all new appends them in order |
| Meta.PutEach | apps/docs/sync_from_source.py:484-498 | the assignment loop gives exactly the entries put in turn |
| Sorting.SortByName | apps/docs/sync_from_source.py:215 | `sorted` returns a permutation of its input in ascending name order |
| Sorting.InsertByOrderStable | apps/docs/sync_from_source.py:393 | inserting after every element with a key no greater keeps equal keys in arrival order |
| Sorting.SortByOrder | apps/docs/sync_from_source.py:393 | `list.sort(key=...)` is sorted, a permutation, and stable |
| Text.Lower | apps/docs/sync_from_source.py:218 | `lower()` lowers each ASCII letter and keeps the length |
| Text.Strip | apps/docs/src/components/mdx/code-playground.tsx:20 | `trim()` keeps one run of consecutive characters of the input, with no space at either end, and every character dropped before or after it is a space |
| Text.ReplaceChar | apps/docs/sync_from_source.py:497 | `replace` with one-character arguments changes exactly the matching characters |
| Text.TitleCase | apps/docs/sync_from_source.py:497 | `title()` upper-cases a letter that starts a word and lower-cases the others, keeping the length |
| Text.NatToString | apps/docs/sync_from_source.py:489 | `str(n)` is a nonempty string of digits |
| Text.ZFill | apps/docs/sync_from_source.py:489 | `zfill(w)` pads with zeros on the left up to width `w` and keeps the string at its end |
| Text.Split | apps/docs/src/components/mdx/code-playground.tsx:102 | `split` always gives at least one part |
| Rewrite.ReplaceAllChanges | apps/docs/migrate_content.py:97-101 | replacing `](/docs/docs/` changes the text exactly when it occurs |

## Left out

- Reading, writing, moving and deleting files, directory walks (`glob`, `rglob`, `iterdir`), `mkdir`, `shutil`: the model takes listings, page texts and existence flags as values and records what would be written.
- `sync_from_source.py` `sync_chapter`, `sync_index`, `run` and `main` (lines 404-444, 511-579): they only sequence the modelled steps, clear directories and print. `scan_source_chapter`, `sync_file`, `generate_chapter_meta`, `sync_root_pages` and `generate_root_meta` are modelled one by one.
- `sync_content.py` `scan_meta_files` (lines 194-212): the `_meta.json` files arrive already parsed, in scan order. Unreadable JSON is not modelled.
- `scripts/migrate-content.py` `generate_meta_files` (lines 238-242) and `main`: the walk over every target directory is not modelled; `generate_meta_for_dir` is modelled for one directory.
- `migrate_content.py` `create_backup` (lines 62-74): it needs the clock and a directory copy, and changes no modelled state. An old `_meta.json` that is not a JSON object is not modelled; the old meta is given by its keys.
- `verify-routes.js` `main` and the HTTP client: each request's outcome comes from a `probe` function from URL to status. A status of 0 for a failed request and `ok` for 200 are modelled. `Promise.all` concurrency is not modelled; the results are taken in batch order, as the loop consumes them.
- `verify-routes.js`: `path.join` normalisation of slugs holding `..` or `/` is not modelled. A `_meta.json` that fails to parse is modelled as a directory without meta.
- `code-playground.tsx`: evaluating the snippet (`AsyncFunction`), `JSON.stringify`, the 300 ms delay, React's render batching, the styling (`clsx`, `motion`) and the language label are not modelled. A run's outcome (the log calls and the result, or the thrown value) is a parameter, and an object value carries its JSON text.
- Logging and printing in every script, including the dry-run previews, the reports and the warnings.
- Unicode: `\w`, `\s`, `str.lower()` and `str.title()` follow the ASCII rules, extended by a fixed set of non-ASCII whitespace and punctuation blocks. Full Unicode case mapping and categories are not modelled.
- Unicode digits: `\d` and `int()` are modelled by `Text.IsDigit`, which takes `0`-`9` only. Python also accepts any Unicode decimal digit, so a name like `chapter１` (full-width one) or `１.１-标题.md` is normalised or numbered by the scripts but left as it is by `SyncNaming.ChapterDigits`, `SyncNaming.ParseNumbered`, `MigrateVitePress.NumberPrefixEnd` and `SyncContent.AfterNumber`.
- Unicode spaces: `Text.Strip` drops ASCII whitespace and U+3000 only. Python's `str.strip()` also drops U+0085, U+00A0, U+001C-U+001F, U+2000-U+200A, U+2028 and U+2029. JavaScript's `trim()` drops U+00A0, U+FEFF, U+2000-U+200A, U+2028 and U+2029. So a title or snippet that starts with a no-break space keeps it in the model.
- Regular expressions are modelled one pattern at a time as position matchers. A heading whose `\s+` run reaches the end of the text is treated as no match; Python would backtrack and capture whitespace there.
- MdxSanitizer.SanitizePlainText: the identity is stated only for text with no `<` and no backtick. Restoring code placeholders by plain text replacement can restore the wrong block when a code span itself holds `__CODE_BLOCK_<n>`.
- MdxSanitizer.EscapeCharsReadBack: YAML escapes other than the one-character ones (`\x`, `\u`, `\U` with hex digits) are read as failures rather than decoded.
- MigrateVitePress.SimplifyFrontmatter: `current_key` (`scripts/migrate-content.py:116-127`) is set but never changes the result, so it is not kept.
- VerifyRoutes.FirstOccurrencesSpec: it states which routes are kept. That the kept routes keep their relative order holds by construction (`FirstOccurrences` is a filter) and is not stated as a separate lemma.
- SyncContent.TitleText: a float title keeps its JSON text, where Python's `str()` writes its `repr` (`1e2` becomes `100.0`); an array or object title is written as an empty one, where Python writes its contents (`['a']`).
- VerifyRoutes.RouteCollector.ScanDir: `Object.entries` lists integer-like keys of a `_meta.json` first, in ascending numeric order; the model takes the entries in file order, so for such keys the order of the routes (and so of the batches and reports) can differ.
- MigrateVitePress.TitleField: a `title:` line that ends the text with only whitespace after the colon is treated as no match; Python's `\s*` would backtrack and capture the last whitespace character.
- MigrateVitePress.GetFileTitle: shares the `title:` corner of `TitleField` and the heading corner of `Markdown.FindCapture`. It states that the title is a slice of the captured text with no quote or space at either end, not that exactly the surrounding spaces and quotes were removed.
- Markdown.FindCapture: a `\s+` (or `\s*`) run that reaches the end of the text is treated as no match at that position.
- CodePlayground.Playground.RunCode: this is the code as written; `CodePlayground.Playground.RunCodeChecked` is the corrected version with the restore in `finally`. Its contract describes a run with no other run in between; `CodePlayground.OverlappingRuns` covers two overlapping runs. While runs overlap, the source pushes every `console.log` call to the `logs` of whichever run's capturing function is installed; the model credits each call to the run whose snippet made it.
- CodePlayground.OverlappingRunsChecked: the `finally` restore does not repair overlapping runs, and the model has no corrected version for them; it would need a capture shared between runs.
- MigrateContent.ContentMigrator.Run: this is the code as written, for both the pages visited and the extra-page check. The corrected versions are `MigrateContent.PagesOf` with `MigrateContent.MovedPagesRepaired`, and `MigrateContent.ExtraPageFound` with `MigrateContent.MovedPageListed`.
- MigrateConverter.Converter.constructor: it binds `convert_content` as written (`MigrateVitePress.ConvertContentAsWritten`). The corrected `MigrateVitePress.ConvertContent` is stated separately.

## Findings

| source | as written | input that shows it | evidently intended | confidence | as-written member | corrected member |
|---|---|---|---|---|---|---|
| apps/docs/sync_from_source.py:361-365 | only `"` is escaped in the YAML double-quoted `description` | a first heading `# C:\new` is read back as `C:`, a line break and `ew` | the description reads back as the heading's text | not executed | MdxSanitizer.DescriptionMisread | MdxSanitizer.FrontmatterReadsBack |
| apps/docs/sync_from_source.py:462-473 | the target's existence is checked after the page is written | a page whose target does not exist yet, outside a dry run, is counted as `updated` | new pages are counted as `created` | not executed | SyncFromSource.NewPageCountedAsUpdated | SyncFromSource.SyncFileOutcomeChecked |
| scripts/migrate-content.py:192-196 | `<img ...>` is rewritten to end in ` />` even when it already ends in `/>` | `<img src="a.png" />` becomes `<img src="a.png" / />` | a single self-closing slash | not executed | JsxTags.ImgSlashDoubled | JsxTags.ImgAtChecked |
| apps/docs/migrate_content.py:192-195 | `learning-map` and `resources` are looked for under `content/docs` after the move | a `content/docs/learning-map` directory not named in the old meta is listed by the dry-run preview but left out of the real root `_meta.json` | the page is listed whenever it existed before the move | not executed | MigrateContent.MovedPageMissed | MigrateContent.MovedPageListed |
| apps/docs/migrate_content.py:118-131 | `item.is_dir()` is asked of the old path after `shutil.move`, so in a real run a moved directory is taken for a file without the `.mdx` suffix | a real run with a `chapter-01` directory holding `a.mdx` that links to `/docs/docs/y` leaves that link unrewritten and reports no update | every page of a moved directory has its links repaired | not executed | MigrateContent.NestedPageMissed | MigrateContent.MovedPagesRepaired |
| apps/docs/src/components/mdx/code-playground.tsx:36-61 | `console.log` is restored only after the snippet returns, not in `finally` | a snippet that throws leaves the capturing function installed, and every later run keeps it | the page's `console.log` is restored after every run | not executed | CodePlayground.ThrowLeavesCapture | CodePlayground.ConsoleRestored |
