# Rustdoc cache setup and libgenerator, modelled in Dafny

This project models five pieces of sequential logic from a 2014-era Rust tree:

- **Rustdoc HTML renderer setup** (`src/librustdoc/html/mod.rs`), in `rustdoc_html.dfy`.
  `HtmlRenderer::new` builds the initial page `Context`. `render` then does these steps in order:
  - scans the crate's `#[doc(...)]` attributes for `html_favicon_url`, `html_logo_url`, `html_playground_url` and `html_no_source`;
  - translates the analysis's external item kinds into `ItemType`s;
  - builds the `Cache` from the analysis, or empty without one, and pushes the crate name on its stack;
  - records where every extern crate is documented;
  - decides which crate documents each primitive type.

  The mutable parts are classes. `HtmlRenderer` and `Cache` have methods with loop invariants, each proved against a specification function over the input sequence. The pure parts are functions. Lemmas cover the scan (last value wins, `html_no_source` is final, the playground crate is set once), the extern registration, and the primitive tie-break (local crate first, then the earliest extern that declares the primitive).
- **Front-matter lexer** (`src/libgenerator/frontmatter.rs`), in two files.
  - `frontmatter_spec.dfy` gives every lexer and parser operation as a function on an immutable lexer state.
  - `frontmatter_lexer.dfy` is the `Frontmatter` class, which consumes its input and updates `state` and `current` in place. Each of its methods is proved to agree with the function of the same name, except `CollectUntil`. `CollectUntil` agrees with `Collect` when not peeking; when peeking it never returns.

  The code is modelled as written, quirks included:
  - At end of input, `next_char` panics. This is the outcome `InputExhausted`.
  - A peek at a double quote never returns. Nor does a peek at a text character while a string or key is being collected. This is the outcome `NoReturn`.
  - A peek is not free of side effects. At a dash outside `STag` the look-ahead re-reads that dash and bumps up to three tokens; at `---` it consumes three characters (`PeekAtDashesConsumes`). At a space the peek hands over to `bump`, which consumes the space and the token after it (`SpaceSkipped`).
  - The `-` look-ahead reads three tokens past the first dash. On a `---` line it swallows the line break (`DashLineSwallowsBreak`). So the input `"---\n---"` of the module's own test at `frontmatter.rs:254` is rejected by `parse`, although the test expects it to be accepted. The model follows the code.
- **Template interpolation** (`src/libgenerator/template.rs`), in `template.dfy`.
  - The fixed pattern `<%= name %>`, where `name` matches `[A-Za-z][A-Za-z0-9_]+`, is recognised by a hand-written scanner.
  - `Render` replaces each placeholder left to right. A name missing from the context is the outcome `MissingVariable`; the source panics there through `expect`.
  - A reference definition over literal and variable segments is proved equal to `Render` on every input, through `Segments`, which splits any string into the segments that spell it.
- **Config merge** (`src/libgenerator/generator.rs`), in `generator.dfy`. `Config::from_json` overlays the optional decoded paths onto the defaults, one `match` at a time.
- **Error mapping** (`src/libgenerator/result.rs`), in `generator_result.dfy`. Decoder and I/O errors are mapped to a `GeneratorError`.

`wrappers.dfy` holds the `Option` and `Result` types shared by the modules.

## Model

| member | source | states |
|---|---|---|
| RustdocHtml.ItemTypeOf | src/librustdoc/html/mod.rs:325-336 | each of the eight external kinds becomes the item type of the same name; `KindOf` undoes it, so the translation is total and loses nothing |
| RustdocHtml.ItemTypeOfInjective | src/librustdoc/html/mod.rs:326-335 | no two external kinds are translated to the same item type |
| RustdocHtml.DocAttributes | src/librustdoc/html/mod.rs:287 | the attributes scanned are the root module's doc list, and none without a module or doc list |
| RustdocHtml.ScanFrame | src/librustdoc/html/mod.rs:286-316 | `AfterScan`, the context the scan leaves, differs from the one before only in the favicon, logo, playground URL and source-link flag, and the scan never turns source links on |
| RustdocHtml.PlaygroundAfterScan | src/librustdoc/html/mod.rs:300-305 | a set playground slot is never changed; the slot is only ever set to the crate's name |
| RustdocHtml.TranslatePaths | src/librustdoc/html/mod.rs:322-337 | the translated paths have the analysis's keys and names, each with its kind translated |
| RustdocHtml.NamesOf | src/librustdoc/html/mod.rs:340-341 | `external_paths` has exactly the keys of `paths`, each mapped to that entry's name with the kind dropped |
| RustdocHtml.ExternLoopStep | src/librustdoc/html/mod.rs:366-370 | one round of the extern loop adds exactly that extern's location under its crate number and its root module under its `DefId` |
| RustdocHtml.ExternLocations | src/librustdoc/html/mod.rs:366-367 | every extern crate number gets a location |
| RustdocHtml.ExternRootPaths | src/librustdoc/html/mod.rs:366-370 | every extern crate's root module gets an entry, and every entry is a one-component `Module` path at `CRATE_NODE_ID` |
| RustdocHtml.LastValueIsLastOccurrence | src/librustdoc/html/mod.rs:290-306 | a URL attribute takes effect exactly when one is given, and the value taken is that of its last occurrence |
| RustdocHtml.HasWordIsMembership | src/librustdoc/html/mod.rs:307-310 | source links are switched off exactly when the word `html_no_source` occurs among the attributes |
| RustdocHtml.OtherAttributesIgnored | src/librustdoc/html/mod.rs:311 | appending an attribute the scan does not recognise changes neither the context nor the playground crate |
| RustdocHtml.NoSourceIsFinal | src/librustdoc/html/mod.rs:307-310 | once `html_no_source` occurs, no attribute before or after it turns source links back on |
| RustdocHtml.PlaygroundSetOnce | src/librustdoc/html/mod.rs:300-305 | the first scan that sees `html_playground_url` fixes the playground crate if it was unset; later scans never change it |
| RustdocHtml.ExternLocationsKeys | src/librustdoc/html/mod.rs:366-367 | after the extern loop, `extern_locations` has an entry for exactly the extern crate numbers |
| RustdocHtml.ExternLocationsOfLast | src/librustdoc/html/mod.rs:366-367 | each crate number's location is the one computed for the last extern with that number |
| RustdocHtml.ExternRootPathsKeys | src/librustdoc/html/mod.rs:366-370 | the extern loop adds to `paths` exactly the root modules (node `CRATE_NODE_ID`) of the extern crates |
| RustdocHtml.ExternRootPathsOfLast | src/librustdoc/html/mod.rs:368-369 | each extern crate's root module is registered as a `Module` whose path is the crate's name |
| RustdocHtml.Declare | src/librustdoc/html/mod.rs:377-379 | one primitive loop maps exactly the listed primitives, each to the given crate |
| RustdocHtml.ExternPrimitiveLocations | src/librustdoc/html/mod.rs:376-380 | every primitive some extern declares gets an entry |
| RustdocHtml.PrimitiveLocations | src/librustdoc/html/mod.rs:372-383 | every local primitive maps to `LOCAL_CRATE`, and every primitive some extern declares gets an entry |
| RustdocHtml.ExternPrimitivesStep | src/librustdoc/html/mod.rs:376-380 | visiting one more extern, backwards, puts its primitives over those of the externs after it |
| RustdocHtml.ExternPrimitivesFirstWins | src/librustdoc/html/mod.rs:372-380 | after the reversed extern loop, a primitive has an entry iff some extern declares it, and the entry names the earliest declaring extern |
| RustdocHtml.PrimitiveTieBreak | src/librustdoc/html/mod.rs:372-383 | a local primitive maps to `LOCAL_CRATE`; any other maps to the earliest extern that declares it; a primitive nobody declares has no entry |
| RustdocHtml.Cache.constructor | src/librustdoc/html/mod.rs:319-361 | the crawl's collections, `extern_locations` and `primitive_locations` start empty and `privmod` false; the analysis supplies `public_items`, `paths`, `traits`, `typarams` and `inlined`, which are empty without one; `external_paths` mirrors `paths` |
| RustdocHtml.Cache.RegisterExterns | src/librustdoc/html/mod.rs:366-370 | the extern loop overrides `extern_locations` and `paths` with exactly the extern entries, and changes nothing else (`external_paths` included) |
| RustdocHtml.Cache.DeclarePrimitives | src/librustdoc/html/mod.rs:377-379 | the inner primitive loop overrides `primitive_locations` with the extern's primitives |
| RustdocHtml.Cache.LocatePrimitives | src/librustdoc/html/mod.rs:376-383 | the primitive loops leave `primitive_locations` overridden by `PrimitiveLocations`, whose tie-break `PrimitiveTieBreak` proves |
| RustdocHtml.HtmlRenderer.constructor | src/librustdoc/html/mod.rs:253-271 | a fresh context has empty `current`, `root_path` and `sidebar`, source links on, redirect pages off, and a layout whose only non-empty field is the crate name |
| RustdocHtml.HtmlRenderer.ScanAttributes | src/librustdoc/html/mod.rs:286-316 | the scan leaves the context as `AfterScan` and the playground crate as `PlaygroundAfterScan` of the crate's doc attributes; a crate without a module or doc list changes nothing |
| RustdocHtml.HtmlRenderer.NewCache | src/librustdoc/html/mod.rs:338-362 | the cache is freshly built from the analysis, and its stack is exactly the crate name |
| RustdocHtml.HtmlRenderer.PrepareRender | src/librustdoc/html/mod.rs:286-383 | the steps of `render` in order, with the crawl between the cache and the extern loop taken to write nothing: after them, `paths` is the translated analysis paths overridden by the extern root modules, `external_paths` still holds only the analysis names, the locations are those of the extern and primitive loops, and the analysis data and empty crawl collections (`SeededFrom`) are as the cache was built |
| FrontmatterSpec.New | src/libgenerator/frontmatter.rs:104-112 | a new lexer has consumed nothing, is idle, and its current token is `TBlank` |
| FrontmatterSpec.NextChar | src/libgenerator/frontmatter.rs:160-166 | the next character is returned, and consumed unless peeking; at end of input the call panics |
| FrontmatterSpec.Collect | src/libgenerator/frontmatter.rs:219-239 | the collecting loop keeps the state and only moves forward, and it consumes at least its stop character when it returns |
| FrontmatterSpec.CollectReadsToStop | src/libgenerator/frontmatter.rs:219-239 | the collecting loop returns iff a stop character is ahead; its text is everything before the first one, which is consumed; otherwise it panics at end of input |
| FrontmatterSpec.NextToken | src/libgenerator/frontmatter.rs:168-245 | a token step never moves backwards and consumes when not peeking; from `SIdle`, `STag` or `SDoubleQuote` it stays within them and never yields `TIdentifier`; it never yields `TBegin` or `TEnd`; the state changes to anything but `STag` only if the step consumed a double quote |
| FrontmatterSpec.Bump | src/libgenerator/frontmatter.rs:150-154 | `bump` consumes, and the token it returns is the one it stores as the current token |
| FrontmatterSpec.Peek | src/libgenerator/frontmatter.rs:156-158 | `peek` keeps the invariants of a token step |
| FrontmatterSpec.DashLookahead | src/libgenerator/frontmatter.rs:177-186 | the look-ahead after a first dash yields only `TTag` or `TDash` |
| FrontmatterSpec.NextTokenSingle | src/libgenerator/frontmatter.rs:168-216 | at a colon, single quote, line break or digit, a token step yields that character's token and consumes the character unless peeking |
| FrontmatterSpec.SingleCharacterTokens | src/libgenerator/frontmatter.rs:168-216 | a colon, single quote, line break or digit yields its own token; `bump` consumes exactly that character and stores the token; `peek` yields the same token and changes nothing |
| FrontmatterSpec.DigitValue | src/libgenerator/frontmatter.rs:206-215 | a digit character yields the integer between 0 and 9 that it denotes |
| FrontmatterSpec.SpaceSkipped | src/libgenerator/frontmatter.rs:204 | a space yields no token of its own: the result is that of `bump` after it |
| FrontmatterSpec.PeekAtQuoteDiverges | src/libgenerator/frontmatter.rs:192-202 | peeking at a double quote never returns |
| FrontmatterSpec.QuoteOpensPeek | src/libgenerator/frontmatter.rs:192-202 | a consumed double quote toggles `SDoubleQuote` and peeks: a string found there is returned, any other token becomes `TDoubleQuote`, and a peek that fails fails the step |
| FrontmatterSpec.PeekAtPlain | src/libgenerator/frontmatter.rs:217-242 | peeking at text never returns inside a string and yields `TBlank` in `SIdle`, `SValue`, `SSingleQuote` or `STag`, consuming nothing |
| FrontmatterSpec.QuoteBeforeText | src/libgenerator/frontmatter.rs:192-202 | an opening quote directly before text never returns; a closing quote before text yields `TDoubleQuote` and returns to `SIdle` |
| FrontmatterSpec.NextTokenCollects | src/libgenerator/frontmatter.rs:217-228 | inside a string, a text character starts the collecting loop with that character in the buffer, and its outcome becomes a `TStr` |
| FrontmatterSpec.CollectAfterFirst | src/libgenerator/frontmatter.rs:220-228 | collecting after a first character that is not the stop character yields the text from that character up to the first stop, and consumes the stop |
| FrontmatterSpec.StringCollected | src/libgenerator/frontmatter.rs:219-228 | inside a string, `bump` at text yields the text up to the closing quote and consumes that quote |
| FrontmatterSpec.DashInTag | src/libgenerator/frontmatter.rs:188-190 | in `STag` a dash is a plain `TDash` |
| FrontmatterSpec.DashStartsLookahead | src/libgenerator/frontmatter.rs:172-177 | a dash outside `STag` is consumed, switches to `STag` and hands over to the look-ahead from its first round |
| FrontmatterSpec.DashLookaheadOnDash | src/libgenerator/frontmatter.rs:177-180 | a dash read in the look-ahead is bumped, becomes the current token, and the next round follows |
| FrontmatterSpec.DashLookaheadOnBreak | src/libgenerator/frontmatter.rs:177-186 | a line break read in the look-ahead is consumed, becomes the current token, and ends the look-ahead with `TDash` |
| FrontmatterSpec.DashRunMakesTag | src/libgenerator/frontmatter.rs:177-183 | when the remaining rounds all read dashes, the look-ahead yields `TTag` after consuming exactly those dashes |
| FrontmatterSpec.DashRunThenBreak | src/libgenerator/frontmatter.rs:177-186 | when the remaining rounds read dashes and then a line break, the look-ahead yields `TDash` with the line break consumed and current |
| FrontmatterSpec.FourDashesMakeTag | src/libgenerator/frontmatter.rs:172-186 | four dashes outside `STag` yield one `TTag`, consume four characters and leave `STag` |
| FrontmatterSpec.DashLineSwallowsBreak | src/libgenerator/frontmatter.rs:172-186 | a `---` line outside `STag` yields one `TDash` and consumes the line break with it |
| FrontmatterSpec.PeekAtDashStartsLookahead | src/libgenerator/frontmatter.rs:168-177 | a peek at a dash outside `STag` switches to `STag` and starts the look-ahead at the same, unconsumed dash |
| FrontmatterSpec.PeekAtDashesConsumes | src/libgenerator/frontmatter.rs:168-186 | a peek at `---` outside `STag` yields `TTag`, consumes three characters and leaves `STag` with `TDash` current |
| FrontmatterSpec.TagIsSticky | src/libgenerator/frontmatter.rs:172-202 | from `STag`, a step (consuming or peeking) that leaves `STag` has consumed a double quote; with no double quote ahead it stays in `STag` |
| FrontmatterSpec.BumpPastBreaks | src/libgenerator/frontmatter.rs:129-134 | the first token of `parse_dashes` is never a line break, and it is the current token |
| FrontmatterSpec.ExpectDashes | src/libgenerator/frontmatter.rs:128-139 | the dash loop fails only on a token that is not a dash, names that token, and leaves it as the current token |
| FrontmatterSpec.ParseDashes | src/libgenerator/frontmatter.rs:125-148 | an error names the token found instead, which is the current token; `ExpectedLineBreak` only when a line break is required; success leaves a line break, or else a dash, as the current token |
| FrontmatterSpec.Parse | src/libgenerator/frontmatter.rs:114-123 | `parse` succeeds iff both `parse_dashes` calls succeed, and the first failure is returned unchanged |
| FrontmatterSpec.LeadingBreaksSkipped | src/libgenerator/frontmatter.rs:131-134 | line breaks before the first dash are skipped |
| FrontmatterSpec.LaterBreakRejected | src/libgenerator/frontmatter.rs:132-137 | after the first dash, a line break is rejected as `ExpectedDash(TLineBreak)` |
| FrontmatterSpec.LineBreakReadsOneMore | src/libgenerator/frontmatter.rs:143-147 | without a required line break nothing is read after the dashes; with it, exactly one more token is read, and it decides |
| FrontmatterSpec.ParseStaysReachable | src/libgenerator/frontmatter.rs:50-66 | starting from `new`, parsing never enters `SKey`, `SValue` or `SSingleQuote` |
| FrontmatterLexer.Frontmatter.constructor | src/libgenerator/frontmatter.rs:104-112 | the object starts as `New` describes, with no pairs |
| FrontmatterLexer.Frontmatter.NextChar | src/libgenerator/frontmatter.rs:160-166 | the method's outcome and new state are those of `FrontmatterSpec.NextChar` |
| FrontmatterLexer.Frontmatter.CollectUntil | src/libgenerator/frontmatter.rs:219-239 | the collecting loop agrees with `Collect` when not peeking; when peeking it never returns |
| FrontmatterLexer.Frontmatter.NextToken | src/libgenerator/frontmatter.rs:168-245 | the method's outcome and new state are those of `FrontmatterSpec.NextToken` |
| FrontmatterLexer.Frontmatter.DashLookahead | src/libgenerator/frontmatter.rs:175-186 | the loop's outcome and new state are those of `FrontmatterSpec.DashLookahead` from its first round |
| FrontmatterLexer.Frontmatter.Bump | src/libgenerator/frontmatter.rs:150-154 | the method's outcome and new state are those of `FrontmatterSpec.Bump` |
| FrontmatterLexer.Frontmatter.Peek | src/libgenerator/frontmatter.rs:156-158 | the method's outcome and new state are those of `FrontmatterSpec.Peek` |
| FrontmatterLexer.Frontmatter.ParseDashes | src/libgenerator/frontmatter.rs:125-148 | the method's outcome and new state are those of `FrontmatterSpec.ParseDashes` |
| FrontmatterLexer.Frontmatter.Parse | src/libgenerator/frontmatter.rs:114-123 | the method's outcome and new state are those of `FrontmatterSpec.Parse` |
| Template.NameRun | src/libgenerator/template.rs:52 | the length of the longest prefix made of name characters |
| Template.PlaceholderAt | src/libgenerator/template.rs:52 | a recognised placeholder has a valid name and is a prefix of the text |
| Template.Render | src/libgenerator/template.rs:56-66 | rendering fails only on a valid placeholder name that is missing from the context; `RenderIsExpand` and `ExpandFailsAtFirstMissing` give its full meaning |
| Template.NameRunOfName | src/libgenerator/template.rs:52 | the name run stops exactly at the end of a name |
| Template.PlaceholderRecognised | src/libgenerator/template.rs:52 | every `<%= name %>` with a valid name is recognised, with that name |
| Template.PlaceholderHasOneOpening | src/libgenerator/template.rs:52 | a placeholder contains no `<` after its first character |
| Template.OneLetterNameIsLiteral | src/libgenerator/template.rs:52 | `<%= x %>` is not a placeholder and is copied literally |
| Template.InertWithoutOpening | src/libgenerator/template.rs:52 | text without `<` contains no placeholder |
| Template.NoPlaceholderAcross | src/libgenerator/template.rs:52 | no placeholder starts in text and runs on into a following placeholder |
| Template.LiteralCopied | src/libgenerator/template.rs:58-63 | text outside placeholders is copied unchanged |
| Template.PlaceholderReplaced | src/libgenerator/template.rs:58-63 | a placeholder is replaced by its context value, or fails if the name is missing |
| Template.ComposeStartsWithOpening | src/libgenerator/template.rs:52 | a well-formed segment list that starts with a variable composes to text starting with `<` |
| Template.RenderMatchesExpand | src/libgenerator/template.rs:56-66 | rendering composed segments equals replacing each variable in place, left to right |
| Template.PlaceholderAtPrefix | src/libgenerator/template.rs:52 | a placeholder recognised at the start of a text is recognised with the same name whatever follows |
| Template.SegmentsSpell | src/libgenerator/template.rs:52-66 | every template text is read as well-formed segments (literals holding no placeholder, variables with valid names) that spell exactly that text |
| Template.RenderIsExpand | src/libgenerator/template.rs:56-66 | on every input, rendering replaces each placeholder by its value, left to right, and copies all other text |
| Template.ExpandFailsAtFirstMissing | src/libgenerator/template.rs:58-63 | expansion fails iff some variable is missing from the context, and then it names the first missing one |
| Template.PlaceholderAlone | src/libgenerator/template.rs:56-66 | a lone placeholder whose name is in the context renders to that name's value |
| Template.PlaceholderBeforeText | src/libgenerator/template.rs:56-66 | a placeholder followed by text without `<` renders to the value followed by the same text |
| Template.PlaceholdersAroundText | src/libgenerator/template.rs:56-66 | two placeholders around text without `<` render to the two values around the same text |
| Template.SinglePlaceholder | src/libgenerator/template.rs:77-84 | `"<%= foobar %>"` with `foobar ↦ bar` renders to `"bar"` |
| Template.PlaceholderThenText | src/libgenerator/template.rs:87-94 | `"<%= foobar %> hahaha"` renders to `"bar hahaha"` |
| Template.TwoPlaceholders | src/libgenerator/template.rs:96-105 | `"<%= title %> <%= foobar %>"` renders to `"two bar"` |
| Generator.DefaultConfig | src/libgenerator/generator.rs:77-84 | the default paths are `assets`, `content`, `layouts` and `output` |
| Generator.DefaultConfigJson | src/libgenerator/generator.rs:89-96 | a default `ConfigJson` has no fields set |
| Generator.FromJson | src/libgenerator/generator.rs:48-75 | a decode failure is returned as `decoder_error` of it and no config is produced; otherwise each field is the decoded path if given and the default if not, independently; an all-`None` decode gives exactly the default config |
| Generator.NewGenerator | src/libgenerator/generator.rs:103-111 | a new generator stores the directory, has no layouts, files or filters, and a default `ConfigJson` |
| GeneratorResult.FromIoError | src/libgenerator/result.rs:14-19 | the kind is `IoError` of the same error, and the description is `StaticDescription` of its text |
| GeneratorResult.FromDecoderError | src/libgenerator/result.rs:21-33 | the kind wraps the decoder error unchanged; the description is boxed, carries the string of a missing-field or unknown-variant error, and is empty for parse and expected-type errors |

## Left out

- The crawl (`fold_crate` at `mod.rs:363`) and the search index built after it (`build_index` at `mod.rs:386`) are not part of this model. The crawl fills `impls`, `implementors`, `orphan_methods` and the search index. It also adds this crate's own entries to `paths` (`mod.rs:165-170`, `mod.rs:204-208`) and `traits` (`mod.rs:176-180`), and it uses `stack`, `parent_stack` and `privmod` while it walks (`mod.rs:196-201`). The `Cache` fields exist, but no operation here writes them beyond their initial values.
- RustdocHtml.HtmlRenderer.PrepareRender: its ensures about `paths`, and its `SeededFrom` ensures, describe `render` as if the crawl wrote nothing. In the source the crawl runs between building the cache and the extern loop, and it adds the crate's own entries to `paths` and `traits` and fills the crawl collections.
- `stability_summary::build`, `mkdir`, `write_shared`, `render_sources` and `cx.krate` are left out. They are file I/O and page rendering.
- Freezing the cache in an `Arc` and publishing it in thread-local keys (`mod.rs:390-392`) is concurrency and is left out.
- `extern_location` is a function parameter `locate` of the extern crate. Its other argument, `cx.dst` at `mod.rs:367`, is not in scope in the source.
- `doc_list` is taken as given: a crate's root module carries the items of its `#[doc(...)]` list, if any.
- `markdown::playground_krate` is a thread-local slot. It is modelled as the field `playgroundKrate` of `HtmlRenderer`, which starts unset. So each renderer starts with a fresh slot, unlike the source's per-thread one, which `HtmlRenderer::new` (`mod.rs:253-271`) does not reset and a second renderer on the same thread would find already set.
- RustdocHtml.Cache.constructor: the analysis fields are read with `take().unwrap()`, which panics if an earlier reader took them. The model assumes they are all present.
- `clean::Trait`, `clean::Item`, `Impl`, `Implementor` and `IndexItem` appear only as stand-in records. `item_type.rs`, `clean` and `stability_summary` are not part of this model. `ItemType` has only the eight variants this file uses.
- The HTML text of `layout.rs` is output formatting and is left out; only the `Layout` record (`layout.rs:15-31`) is modelled.
- FrontmatterSpec.NextToken: when a call never returns (`NoReturn`), the lexer state it reports is the state at the first endless re-read. The source's own state after that is unobservable.
- The message texts that `parse_dashes` formats with `Show` are replaced by the `ParseError` datatype, which carries the token the text would print.
- The `pairs` map of `Frontmatter` is never filled by the code shown, so no operation here writes it.
- The regular-expression engine is left out. Only the fixed placeholder pattern of `template.rs:52` is modelled, as a scanner.
- Template.Render: the source's panic message for a missing variable is replaced by the outcome `MissingVariable`.
- Generator.FromJson: a path is kept as the decoded string. `Path::new` (`generator.rs:54-71`) normalises it, dropping trailing and doubled separators and `.` components and resolving `..`, and fails on a NUL byte; neither the normalisation nor that failure is modelled.
- JSON parsing in `Config::from_json` (`json::from_str(...).unwrap()`, `generator.rs:49-51`) is left out. `FromJson` takes the decoder's result as input, and a `Path` is its string.
- `Generator::lookup` walks directories, reads files and prints; it is left out. `page.rs` and `filter.rs` are not part of this model; `Page` and `Filter` are type parameters.
- The futures in `src/libstd/awaitable.rs` and the compiler tests under `src/test` are not part of this model. `json.rs`, `renderer.rs` and `lib.rs` hold no logic of their own, and `src/libgenerator/layout.rs` only a bare struct.
