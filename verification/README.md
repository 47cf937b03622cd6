# Verified kernels of the Azure SDK for Rust

This project models six self-contained parts of the Azure SDK for Rust and proves what they do.
Each part is one or more Dafny modules; loops and objects that the Rust code updates in place are
methods and classes, proved equal to specification functions, and the properties are lemmas about
those functions. Panics, failed assertions and errors are results of the model, not preconditions.

- **Span-trace matcher** (`SpanMatcher`, `GreedyChoice`): the greedy wildcard matcher of the test tracer is
  sound, and accepts exactly the traces that have a valid assignment of recorded to expected spans in which
  wildcard groups are separated from what follows. For which expectations it
  loses no trace that a mock tracer can record is decided exactly.
- **Public-surface walker** (`SurfaceRules`, `SurfaceSteps`, `PublicSurface`): the mutually recursive walk over modules,
  globs and cross-crate re-exports collects exactly the paths that rules over the crates' own fields put on the surface. It keeps no
  visited set, so a rank on the re-export graph is the hypothesis under which it terminates.
- **API extractor and printer** (attributes: `AttributeText`, `AttributeWords`, `AttributeIdempotence`, `AttributePositions`,
  `AttributeRewrites`; types: `TypeSyntax`, `TypeRender`, `TypeErasure`, `TypeTokens`, `TypeReader`, `TypeReading`, `TypeText`,
  `SignatureReading`, `ElisionKeeps`; models: `ApiData`, `ModuleTree`, `DedupKeys`, `Extraction`, `ExtractionContents`,
  `ExtractionReexports`, `ExtractionShape`, `ExtractionSorting`, `ModelLoader`, `ItemOrder`):
  attribute normalization, its exact fixed points and where it is idempotent; elision that commutes with printing, and printed text that
  a reader of Rust's grammar reads back; rebasing and lookup in module trees, what extracted modules and re-exports contain,
  a loader whose caches agree with plain recomputation, invariants of every extraction, and a listing order.
- **AMQP composite types** (`Amqp`, `AmqpLayout`, `AmqpFields`, `AmqpCodec`, `AmqpCanonical`, `OrderedMap`): the list codecs of OASIS
  AMQP 1.0 (Part 1 section 1.4; Part 3 sections 3.2.1, 3.2.4, 3.5.3 and 3.5.4) and the vector-backed map.
- **Macro code generators** (`SafeDebug`, `TracingNew`): patterns, match arms and struct literals get a
  meaning, and the generated code is compared with what the attributes and the input ask for.
- **Byte-level state** (`ByteStream`, `AsciiLowercase`): a stream over a cycling generator, and a
  character index used as a byte index.

Where the code does less than its documentation says, the model follows the code, and a theorem gives
the exact condition together with a failing example:

- full attribute normalization is idempotent exactly at the texts in which whitespace hides no escaped cfg and no pin
  wrapper (`AttributeIdempotence.NormalizeIdempotentIff`, `AttributeIdempotence.NormalizeNotIdempotent`);
- greedy matching can reject a trace that has a valid assignment (`GreedyChoice.GreedyDecidesIff`,
  `SpanMatcher.GreedyRejectsAssignable`);
- the two ways of prefixing paths differ on some globs (`PublicSurface.PrefixLaw`, `PublicSurface.PrefixLawFails`);
- types are printed without parentheses, so a reference or pointer to several bounds does not read as what it is, and a receiver
  loses its lifetime (`SignatureReading.TypeIsReadBack`, `SignatureReading.BareBounds`, `SignatureReading.ReceiverLosesLifetime`);
- the key of an impl does not tell doc comments of a member from its attributes (`DedupKeys.MemberKeyIff`, `DedupKeys.CommentsAndAttributesMix`);
- message headers lose a time to live that is not a whole number of milliseconds below 2^32
  (`AmqpCodec.HeaderRoundTripIff`);
- the ordered map is documented as having distinct keys but does not enforce it (`OrderedMap.MapRefinement`);
- a derived `SafeDebug` prints the wrong tuple fields when a shown field follows a hidden one, and does not
  work when a shown field is called `f` (`SafeDebug.DerivedDebugIsRightIff`);
- the `new` macro replaces a longer path to `Arc::new` by that name, drops a struct base and a semicolon, emits a
  syntax error for an empty literal, and rewrites some other statements of the body
  (`TracingNew.TailGetsTracerIff`, `TracingNew.QualifiedArc`, `TracingNew.UntouchedIff`);
- a stream is not replayed by `reset` unless its pattern is periodic in the bytes drawn (`ByteStream.SecondReadIff`);
- `to_ascii_lowercase` can panic after a non-ASCII character (`AsciiLowercase.ToAsciiLowercase`).

Check everything with `dafny verify dfyconfig.toml`.

## Model

| member | source | states |
|---|---|---|
| `SpanMatcher.CompareAttributes` | sdk/core/azure_core_test/src/tracing.rs:500-525 | Attributes match iff every recorded one agrees with the first expected entry of its key (or that entry is the any-value marker) and every expected key was recorded |
| `SpanMatcher.CompareSpan` | sdk/core/azure_core_test/src/tracing.rs:471-526 | The lookahead comparison matches iff shape, parent and attributes match; it panics exactly on a parent that is not expected or not yet known |
| `SpanMatcher.CheckSpan` | sdk/core/azure_core_test/src/tracing.rs:420-468 | The asserting check completes exactly when the comparison would match and the span has ended: the two matchers agree |
| `SpanMatcher.CheckSpans` | sdk/core/azure_core_test/src/tracing.rs:311-380 | The loop over one tracer's spans accepts exactly when the step function runs to the end with every expectation used |
| `SpanMatcher.RejectedStays` | sdk/core/azure_core_test/src/tracing.rs:331-379 | No later span repairs a rejected prefix |
| `SpanMatcher.ParentsSpec` | sdk/core/azure_core_test/src/tracing.rs:314-345 | The parent map holds, for each expected id, the id of the latest earlier span charged to it, and nothing else |
| `SpanMatcher.RunFollows` | sdk/core/azure_core_test/src/tracing.rs:331-379 | Completeness: on a valid and separated assignment the greedy cursor follows the assignment span by span |
| `SpanMatcher.CursorVisits` | sdk/core/azure_core_test/src/tracing.rs:331-379 | The cursor skips no expectation |
| `SpanMatcher.AcceptedTurn` | sdk/core/azure_core_test/src/tracing.rs:331-379 | Each turn of an accepting run has matched a closed span under the parents known so far, and has seen that its successor is separated |
| `SpanMatcher.AcceptedHasAssignment` | sdk/core/azure_core_test/src/tracing.rs:311-380 | Soundness: acceptance yields a monotone onto assignment, one span per non-wildcard and at least one per wildcard, with matching closed spans and earlier parents |
| `SpanMatcher.AcceptsIff` | sdk/core/azure_core_test/src/tracing.rs:311-380 | A trace is accepted iff such an assignment exists in which the first span after each wildcard group does not match that wildcard |
| `GreedyChoice.GreedyDecidesIff` | sdk/core/azure_core_test/src/tracing.rs:331-379 | Over the traces a mock tracer can record (each span has its own id, parents start first): greedy matching decides whether an assignment exists iff no wildcard can be confused with the expectation after it (same name, kind and status, and the same parent with attributes one span can meet, or a parent only on the second, which trips an unwrap), or no trace can meet the expectations at all |
| `GreedyChoice.ConfusionIsFatal` | sdk/core/azure_core_test/src/tracing.rs:346-372 | For every satisfiable list with such a pair: a recorded trace with a valid assignment that is rejected |
| `GreedyChoice.DecidesWithout` | sdk/core/azure_core_test/src/tracing.rs:331-379 | Without such a pair nothing is lost on any trace with distinct ids |
| `GreedyChoice.ParentsDiffer` | sdk/core/azure_core_test/src/tracing.rs:114-137 | With distinct ids, different expected parents are different recorded spans |
| `GreedyChoice.TraceRecorded` | sdk/core/azure_core_test/src/tracing.rs:114-147 | The trace built for a list has an id of its own for each span, and its parents start earlier |
| `GreedyChoice.SatisfiableIfValid` | sdk/core/azure_core_test/src/tracing.rs:311-380 | A list has an assignable trace only if every parent is expected earlier and every attribute can be met |
| `GreedyChoice.TraceValid` | sdk/core/azure_core_test/src/tracing.rs:311-380 | For every such list, of any length: a trace with one span per expectation is valid |
| `GreedyChoice.SatisfiableIff` | sdk/core/azure_core_test/src/tracing.rs:311-380 | A list can be met by some trace iff every parent is expected earlier and every attribute can be met, and then by a recorded one |
| `GreedyChoice.SeparatedWithout` | sdk/core/azure_core_test/src/tracing.rs:346-364 | Without a confusable pair every valid assignment of a trace with distinct ids is separated |
| `SpanMatcher.GreedyRejectsAssignable` | sdk/core/azure_core_test/src/tracing.rs:346-372 | Without separation: a trace with a valid assignment that greedy matching rejects |
| `SpanMatcher.CheckInstrumentation` | sdk/core/azure_core_test/src/tracing.rs:295-381 | The whole check returns iff tracers agree in number, name, version and namespace and each has a valid separated assignment |
| `SurfaceSteps.FindModuleItems` | eng/tools/check_api_superset/src/main.rs:310-343 | The loop over path segments finds the items of the first module of each name, or fails at the first missing one |
| `SurfaceSteps.FirstModule` | eng/tools/check_api_superset/src/main.rs:323-337 | The module entered is the first listed one of that name; same-named items of other kinds are passed over |
| `SurfaceSteps.LeadsIff` | eng/tools/check_api_superset/src/main.rs:310-343 | Going down a module path is entering, segment by segment, the first module of that name |
| `SurfaceSteps.SplitIff` | eng/tools/check_api_superset/src/main.rs:275-281 | Splitting a glob source gives the only parts that hold no separator, found from the left, and join to it |
| `SurfaceSteps.WordIff` | eng/tools/check_api_superset/src/main.rs:353-384 | An item and its summary have the same word, the one named for each kind; modules, re-exports and impls have none |
| `SurfaceSteps.StepEnds` | eng/tools/check_api_superset/src/main.rs:171-307 | An item ends a route iff it is public in its crate and shows itself under its own name, a named re-export shows its target under the name of the re-export whatever the target is called, or a glob has a summarized non-module target |
| `SurfaceSteps.StepOpens` | eng/tools/check_api_superset/src/main.rs:171-306 | An item opens a module of its crate iff it is public and is that module (under its own name), re-exports it by name (under the new name) or by glob (adding no segment) |
| `SurfaceSteps.StepImports` | eng/tools/check_api_superset/src/main.rs:241-307 | An item imports a module of another crate iff it is public and names or globs a summarized module, or globs a source path that starts in a known crate |
| `SurfaceSteps.ShowsIff` | eng/tools/check_api_superset/src/main.rs:171-307 | For every route: following it finds an entry iff the rules say the route shows it |
| `SurfaceSteps.DerivableIff` | eng/tools/check_api_superset/src/main.rs:171-307 | An entry is derivable iff some route shows it by the rules |
| `PublicSurface.WalkModule` | eng/tools/check_api_superset/src/main.rs:171-217 | Walking a module makes exactly the insertions its routes derive, in order |
| `PublicSurface.CollectItem` | eng/tools/check_api_superset/src/main.rs:220-237 | A local item contributes its leaf or the walk of its module |
| `PublicSurface.CollectExternal` | eng/tools/check_api_superset/src/main.rs:241-264 | An external item contributes its leaf, or the other crate's module walked from the empty prefix and joined |
| `PublicSurface.ResolveGlob` | eng/tools/check_api_superset/src/main.rs:268-307 | A glob contributes the walk of its local or external target |
| `PublicSurface.InsertJoined` | eng/tools/check_api_superset/src/main.rs:254-258 | Copying a sub-map under a joined prefix gives the same map in whatever order the keys come |
| `PublicSurface.EmitsIffDerivable` | eng/tools/check_api_superset/src/main.rs:171-307 | An entry is inserted iff some route of public descent, named re-export, glob or cross-crate step derives it |
| `PublicSurface.RouteIsWalked` | eng/tools/check_api_superset/src/main.rs:171-307 | Completeness: every route that derives a path is walked, for every ranked re-export graph |
| `PublicSurface.EmitsDeriveEach` | eng/tools/check_api_superset/src/main.rs:171-307 | Soundness: the i-th insertion is what the i-th route derives |
| `PublicSurface.InsertHolds` | eng/tools/check_api_superset/src/main.rs:171-237 | A path is a key iff it was one before or was inserted, and its value was put there |
| `PublicSurface.EmitsIffOnSurface` | eng/tools/check_api_superset/src/main.rs:159-307 | The walk inserts an entry iff the rules put it on the surface |
| `PublicSurface.CollectPublicTypes` | eng/tools/check_api_superset/src/main.rs:159-169 | The collected keys are exactly the paths that the rules over the crates' own fields put on the surface, and each value is a kind they show there |
| `PublicSurface.FindMissing` | eng/tools/check_api_superset/src/main.rs:77-136 | A path is reported iff the subset crate offers it, the superset crate does not, and no exemption names it |
| `SurfaceSteps.JoinPathAssociative` | eng/tools/check_api_superset/src/main.rs:345-351 | Joining is associative when the middle part is not empty |
| `PublicSurface.FollowCommutes` | eng/tools/check_api_superset/src/main.rs:171-307 | Below a non-empty prefix every route commutes with joining |
| `PublicSurface.FollowAligned` | eng/tools/check_api_superset/src/main.rs:171-307 | For every route, walking under a prefix and walking bare then joining agree iff the route is aligned |
| `PublicSurface.PrefixLaw` | eng/tools/check_api_superset/src/main.rs:171-307 | Prefix law: the direct walk and walk-then-join make the same insertions iff every route is aligned |
| `PublicSurface.PrefixLawOnMaps` | eng/tools/check_api_superset/src/main.rs:171-307 | On maps: when every route is aligned, the direct walk into any map gives exactly that map with the joined sub-map of the bare walk inserted |
| `PublicSurface.PrefixLawFails` | eng/tools/check_api_superset/src/main.rs:261-306 | A glob of the external enum dep::E breaks the law |
| `PublicSurface.ProperNamesAlign` | eng/tools/check_api_superset/src/main.rs:171-307 | Non-empty names and no glob of an external non-module make every route aligned |
| `AttributeText.CollapseAttributeWhitespace` | eng/tools/generate_api/src/extract.rs:991-1035 | The character loop with its flags computes the scanner's collapse function |
| `AttributeText.CollapseSpec` | eng/tools/generate_api/src/extract.rs:991-1035 | The result is the only text without superfluous whitespace outside literals whose tokens (literals verbatim, other characters one by one) are those of the input with the whitespace runs squeezed |
| `AttributeText.CollapseIsTidy` | eng/tools/generate_api/src/extract.rs:991-1035 | No leading, doubled, trailing or post-bracket whitespace is left outside literals |
| `AttributeText.CollapseKeepsTokens` | eng/tools/generate_api/src/extract.rs:991-1035 | Literals, escapes included, and the sequence of other characters are kept |
| `AttributeText.CollapseShrinks` | eng/tools/generate_api/src/extract.rs:991-1035 | The pass never lengthens its input |
| `AttributePositions.TidyIff` | eng/tools/generate_api/src/extract.rs:991-1035 | A text is tidy iff each whitespace character outside literals is one blank between two other characters, the first of which is none of ( [ {; literals run from a quote to the next quote without an odd number of backslashes before it |
| `AttributePositions.CollapseKeepsSolid` | eng/tools/generate_api/src/extract.rs:991-1035 | The pass leaves such a text and drops nothing but whitespace outside literals |
| `AttributeText.TidyIsCollapsed` | eng/tools/generate_api/src/extract.rs:991-1035 | Tidy text is a fixed point of the pass |
| `AttributeText.CollapsePathSeparatorWhitespace` | eng/tools/generate_api/src/extract.rs:1037-1066 | The loop that pops blanks before colons and skips whitespace after them computes the squash function |
| `AttributeText.SquashIsJoined` | eng/tools/generate_api/src/extract.rs:1037-1066 | No whitespace is left around path separators |
| `AttributeText.JoinedIsSquashed` | eng/tools/generate_api/src/extract.rs:1037-1066 | Text without it is a fixed point |
| `AttributeText.SquashKeepsTidy` | eng/tools/generate_api/src/extract.rs:1037-1066 | The separator pass keeps what the whitespace pass established, even though it ignores literals |
| `AttributeText.CollapseClippyLintWhitespace` | eng/tools/generate_api/src/extract.rs:977-989 | The search loop computes the trim function: copy to each lint prefix, then drop whitespace |
| `AttributeText.FindIsFirst` | eng/tools/generate_api/src/extract.rs:981-985 | The index used is the first occurrence |
| `AttributeText.TrimIsTrimmed` | eng/tools/generate_api/src/extract.rs:977-989 | No lint prefix is followed by whitespace afterwards |
| `AttributeText.TrimKeepsJoined` | eng/tools/generate_api/src/extract.rs:977-989 | The lint pass keeps what the separator pass established |
| `AttributeText.TrimKeepsTidy` | eng/tools/generate_api/src/extract.rs:977-989 | The lint pass keeps what the whitespace pass established |
| `AttributeText.TailIsCanonical` | eng/tools/generate_api/src/extract.rs:953-955 | The three passes composed give canonical text that is no longer than the input |
| `AttributeText.TailFixedIff` | eng/tools/generate_api/src/extract.rs:953-955 | Their fixed points are exactly the canonical texts |
| `AttributeText.TailIdempotent` | eng/tools/generate_api/src/extract.rs:953-955 | The three passes composed are idempotent on every string |
| `AttributeText.Normalize` | eng/tools/generate_api/src/extract.rs:945-957 | All passes in the order of the source |
| `AttributeText.NormalizeFixedIff` | eng/tools/generate_api/src/extract.rs:945-975 | A text is a fixed point of the whole normalization iff it is canonical and neither an escaped cfg nor a pin wrapper is left in it |
| `AttributeText.NormalizeTwiceIff` | eng/tools/generate_api/src/extract.rs:945-957 | A second call changes nothing iff no escape or pin pass fires on the first result |
| `AttributeRewrites.UnescapeIsOnePass` | eng/tools/generate_api/src/extract.rs:945-951 | The four replacements in a row are one pass that takes the angle brackets off every escaped cfg and cfg_attr |
| `AttributeRewrites.PinRewrites` | eng/tools/generate_api/src/extract.rs:959-975 | A text that is one pin wrapper becomes pin_project with what it wraps; every other text is left alone |
| `AttributeWords.TailContains` | eng/tools/generate_api/src/extract.rs:953-955 | An escaped cfg is in the text after the whitespace passes iff it was there before or whitespace after the opening bracket, outside literals, hid it |
| `AttributeWords.TailStarts` | eng/tools/generate_api/src/extract.rs:953-955 | What the text starts with after the passes, read off the text before them |
| `AttributeWords.TailEnds` | eng/tools/generate_api/src/extract.rs:953-955 | What it ends in, read off the text before them |
| `AttributeIdempotence.UnescapeShowsNone` | eng/tools/generate_api/src/extract.rs:946-950 | The four replacements leave no visible escape and make none |
| `AttributeIdempotence.UnescapeKeeps` | eng/tools/generate_api/src/extract.rs:946-950 | They neither hide nor show an escape or a pin wrapper |
| `AttributeIdempotence.PinInnerIff` | eng/tools/generate_api/src/extract.rs:965-975 | A text is a pin wrapper iff it starts and ends like one |
| `AttributeIdempotence.PinWithKeeps` | eng/tools/generate_api/src/extract.rs:959-975 | The pin pass neither hides nor shows an escape |
| `AttributeIdempotence.LeftEscape` | eng/tools/generate_api/src/extract.rs:945-957 | An escape is left after one call iff the given text hid it |
| `AttributeIdempotence.LeftPin` | eng/tools/generate_api/src/extract.rs:945-957 | A pin wrapper is left after one call iff the given text hid it |
| `AttributeIdempotence.NormalizeIdempotentIff` | eng/tools/generate_api/src/extract.rs:945-957 | Normalization is idempotent at a text iff the text has no escaped cfg with whitespace after its opening bracket outside literals, and is no pin wrapper that only whitespace in front, at the end or after an opening bracket hides |
| `AttributeIdempotence.BlankHidesCfg` | eng/tools/generate_api/src/extract.rs:945-957 | A blank after the opening bracket hides an escaped cfg, whatever follows: normalizing is not idempotent there |
| `AttributeIdempotence.BlankHidesPin` | eng/tools/generate_api/src/extract.rs:945-957 | And a pin wrapper, whatever it wraps |
| `AttributeIdempotence.NormalizeNotIdempotent` | eng/tools/generate_api/src/extract.rs:945-957 | Two whole attributes on which a second call changes the result |
| `TypeRender.TypeCommutes` | eng/tools/generate_api/src/extract.rs:1861-2011 | Rendering a type with an elision set equals rendering the type after a separate erasure pass, for every type and set |
| `TypeRender.PathCommutes` | eng/tools/generate_api/src/extract.rs:2013-2019 | The same for paths |
| `TypeRender.ArgsCommute` | eng/tools/generate_api/src/extract.rs:2021-2057 | The same for generic argument lists: erased arguments print as the anonymous lifetime |
| `TypeRender.ArgCommutes` | eng/tools/generate_api/src/extract.rs:2059-2075 | The same for one generic argument |
| `TypeRender.ConstraintCommutes` | eng/tools/generate_api/src/extract.rs:2077-2104 | The same for associated constraints |
| `TypeRender.BoundCommutes` | eng/tools/generate_api/src/extract.rs:1788-1844 | The same for a bound that is not itself an erased outlives bound |
| `TypeRender.BoundsCommute` | eng/tools/generate_api/src/extract.rs:1788-1851 | The same for lists of bounds, from which erased outlives bounds disappear |
| `TypeRender.ParamCommutes` | eng/tools/generate_api/src/extract.rs:1649-1704 | The same for one generic parameter |
| `TypeRender.ParamsCommute` | eng/tools/generate_api/src/extract.rs:1631-1647 | The same for parameter lists, from which erased lifetimes disappear |
| `TypeRender.PredicatesCommute` | eng/tools/generate_api/src/extract.rs:1710-1782 | The same for where-clauses |
| `TypeRender.DeclarationCommutes` | eng/tools/generate_api/src/extract.rs:1201-1282 | The same for whole function declarations with their receiver |
| `TypeRender.Synthetic` | eng/tools/generate_api/src/extract.rs:2122-2146 | The elided names are exactly the declared parameters with an async-trait lifetime name |
| `TypeRender.AsyncTraitPrintsErased` | eng/tools/generate_api/src/extract.rs:1201-1247 | A desugared async-trait method prints as the method left after erasure, which has no synthetic lifetime and prints the same without elision |
| `TypeText.TypeIsText` | eng/tools/generate_api/src/extract.rs:1861-2011 | The printed text of a type is the spelling of the tokens that Rust's grammar has for it, form by form |
| `TypeText.BoundsAreText` | eng/tools/generate_api/src/extract.rs:1788-1844 | The same for lists of bounds |
| `TypeText.ParamsAreText` | eng/tools/generate_api/src/extract.rs:1649-1704 | The same for generic parameters |
| `TypeText.PredicatesAreText` | eng/tools/generate_api/src/extract.rs:1710-1782 | The same for where-clauses; predicates without bounds are not printed |
| `TypeText.HeaderText` | eng/tools/generate_api/src/extract.rs:1284-1322 | The same for function headers and calling conventions |
| `TypeReading.TypeReads` | eng/tools/generate_api/src/extract.rs:1861-2011 | A reader written from Rust's type grammar reads the tokens of every legible type back to it and leaves what follows |
| `TypeReading.PredicateReads` | eng/tools/generate_api/src/extract.rs:1725-1782 | The same for where-predicates |
| `SignatureReading.TypeIsReadBack` | eng/tools/generate_api/src/extract.rs:1853-2011 | Whatever is elided, the text of a type is that of its plain tree after erasure, and the reader gives that tree back iff it is legible |
| `SignatureReading.BareBounds` | eng/tools/generate_api/src/extract.rs:1973-1990 | A reference to two bounds is printed without parentheses, and read as a reference to the first |
| `SignatureReading.SignatureReads` | eng/tools/generate_api/src/extract.rs:1201-1282 | A legible signature is read back from its tokens: visibility, header, name, generics, receiver and parameters, output and where-clause |
| `SignatureReading.FunctionIsReadBack` | eng/tools/generate_api/src/extract.rs:1201-1282 | A printed declaration is the text of the signature left after its synthetic lifetimes are erased, and the reader gives that signature back iff it is legible |
| `SignatureReading.ReceiverLosesLifetime` | eng/tools/generate_api/src/extract.rs:1268-1282 | A receiver is printed without its lifetime |
| `ElisionKeeps.ElisionKeepsType` | eng/tools/generate_api/src/extract.rs:1861-2011 | Eliding lifetimes changes no token of a type but lifetimes and punctuation |
| `ElisionKeeps.SyntheticAreLifetimes` | eng/tools/generate_api/src/extract.rs:2122-2146 | The names that declarations elide are lifetimes |
| `TypeErasure.TypeErased` | eng/tools/generate_api/src/extract.rs:1861-2104 | Erasure leaves no mention of an erased lifetime and changes exactly the types that mention one |
| `TypeErasure.FunctionErased` | eng/tools/generate_api/src/extract.rs:1201-1282 | The same for whole declarations |
| `TypeErasure.UnmentionedTypePrintsPlain` | eng/tools/generate_api/src/extract.rs:1853-2104 | A type that mentions no elided name prints as without elision |
| `TypeErasure.UnmentionedPrintsPlain` | eng/tools/generate_api/src/extract.rs:1201-1282 | The same for declarations |
| `ModuleTree.LocalNameOfChild` | eng/tools/generate_api/src/model.rs:40-46 | Appending a name to a path and taking the local name gives the name back iff the name does not start with a colon (for names without a separator) |
| `ModuleTree.RebaseDescendant` | eng/tools/generate_api/src/extract.rs:529-541 | Every descendant keeps its position, items, attributes and comments and gets the new path followed by the old local names |
| `ModuleTree.RebaseTwiceIff` | eng/tools/generate_api/src/extract.rs:529-541 | Rebasing twice equals rebasing once to the last path iff no name below the root starts with a colon |
| `ModuleTree.FirstNamedIsFirst` | eng/tools/generate_api/src/extract.rs:487-490 | The child entered is the first with the name |
| `ModuleTree.FindModuleExact` | eng/tools/generate_api/src/extract.rs:481-505 | The exact first-match path is returned whenever it exists |
| `ModuleTree.FindModuleReaches` | eng/tools/generate_api/src/extract.rs:481-505 | Any result is reached by a subsequence of the segments that ends in the last one |
| `ModuleTree.FindModuleComplete` | eng/tools/generate_api/src/extract.rs:481-505 | If any such subsequence leads anywhere, something is found |
| `ModuleTree.FindModulePrefers` | eng/tools/generate_api/src/extract.rs:481-505 | Of all subsequences that lead anywhere, the one used keeps the first segment on which it differs from any other |
| `ModuleTree.FindItemReaches` | eng/tools/generate_api/src/extract.rs:507-527 | An item found is the first of its name in a module reached by a subsequence of the other segments |
| `ModuleTree.FindItemComplete` | eng/tools/generate_api/src/extract.rs:507-527 | If any such subsequence leads to an item, one is found |
| `ModuleTree.Builder.AddItem` | eng/tools/generate_api/src/extract.rs:588-602 | The seen-set stays the set of keys of the list, and an item is appended iff its key is new |
| `ModuleTree.Builder.AddModule` | eng/tools/generate_api/src/extract.rs:637-645 | The same for child modules and their paths |
| `ModuleTree.Builder.AddExpanded` | eng/tools/generate_api/src/extract.rs:573-586 | All items, then all modules, of an expansion |
| `ModuleTree.InsertItem` | eng/tools/generate_api/src/extract.rs:588-602 | Insertion keeps items distinct by key and what was there as a prefix |
| `ModuleTree.InsertModule` | eng/tools/generate_api/src/extract.rs:637-645 | Insertion keeps child modules distinct by path and what was there as a prefix |
| `ModuleTree.InsertItemsKeepsFirsts` | eng/tools/generate_api/src/extract.rs:573-602 | A run of insertions keeps exactly the first item of every key, in order |
| `DedupKeys.DedupKeyIff` | eng/tools/generate_api/src/extract.rs:594-635 | Items without control characters count as the same iff their declarations are equal, or both are impls that agree in source, declaration, comments, attributes and members |
| `DedupKeys.MemberKeyIff` | eng/tools/generate_api/src/extract.rs:604-631 | Members count as the same iff name, comments, attributes and declaration, in a row, are equal |
| `DedupKeys.CommentsAndAttributesMix` | eng/tools/generate_api/src/extract.rs:604-631 | The key of a member does not say where its comments end and its attributes begin |
| `ModuleTree.Prepend` | eng/tools/generate_api/src/extract.rs:556-571 | The loop computes the prefix followed by what is new in it |
| `ModuleTree.AppendNewKeeps` | eng/tools/generate_api/src/extract.rs:556-571 | The prefix is kept, the texts are the union, and nothing after the prefix repeats |
| `ModuleTree.PrependIdempotent` | eng/tools/generate_api/src/extract.rs:543-571 | Applying the same import attributes twice equals applying them once |
| `Extraction.ModelRankFree` | eng/tools/generate_api/src/extract.rs:25-289 | The cache-free model of a crate does not depend on the rank used to define it |
| `ExtractionShape.ModelNested` | eng/tools/generate_api/src/extract.rs:25-289 | In every model that loads, through whatever re-exports, globs and crates, each module's path extends the path of the module that holds it |
| `ExtractionShape.ModuleNested` | eng/tools/generate_api/src/extract.rs:43-111 | The same for every module extracted at a path, after any number of its children |
| `ExtractionShape.RebaseNests` | eng/tools/generate_api/src/extract.rs:529-541 | Rebasing gives such nested paths to any tree |
| `ExtractionShape.SpliceNested` | eng/tools/generate_api/src/extract.rs:214-239 | Splicing the children of a re-exported module into the importing one keeps them nested |
| `ExtractionShape.ReexportCarriesAttributes` | eng/tools/generate_api/src/extract.rs:119-289 | Whatever a re-export brings in, directly, from another crate or through a chain, carries the re-export's attributes first |
| `ExtractionShape.ItemsCarry` | eng/tools/generate_api/src/extract.rs:543-554 | Applying import attributes changes nothing else of an item |
| `ExtractionContents.ModuleHolds` | eng/tools/generate_api/src/extract.rs:43-111 | An extracted module holds exactly what its children offer, in order and the first of each key and path, and fails exactly with the first child that fails |
| `ExtractionContents.ModuleContains` | eng/tools/generate_api/src/extract.rs:63-108 | Every listed child is there with its inherent impls, every extracted trait impl, every expanded re-export; and whatever is there was offered by a child |
| `ExtractionContents.SubmoduleIsThere` | eng/tools/generate_api/src/extract.rs:69-77 | Every visible module that is not stripped is there under the path of its holder and its own name |
| `ExtractionContents.ModelHolds` | eng/tools/generate_api/src/extract.rs:25-41 | A model is loaded iff its crate is known, generated and has a root module and no child fails; it holds what the children of that module offer |
| `ExtractionReexports.Decides` | eng/tools/generate_api/src/extract.rs:119-189 | Which re-exports are expanded, and from which target |
| `ExtractionReexports.ReexportBringsItem` | eng/tools/generate_api/src/extract.rs:191-289 | A re-export of a plain item brings the item, its inherent impls and its trait impls, with the attributes of the import in front; a glob of one is not expanded |
| `ExtractionReexports.ReexportFollowsTarget` | eng/tools/generate_api/src/extract.rs:119-189 | A re-export brings what its local or foreign raw target brings |
| `ExtractionReexports.ModuleBrings` | eng/tools/generate_api/src/extract.rs:214-239 | A re-exported module is extracted below its new name; a glob takes its contents |
| `ExtractionReexports.ChainBrings` | eng/tools/generate_api/src/extract.rs:199-212 | A re-export of a re-export brings what that one brings and the item it names with its impls |
| `ExtractionReexports.ReexportBringsModel` | eng/tools/generate_api/src/extract.rs:155-189 | A path without a raw item is looked up in the loaded model of its crate |
| `ExtractionReexports.ModelBrings` | eng/tools/generate_api/src/extract.rs:241-271 | From a model: the contents of a globbed module, the module as a whole, or the items that answer to the name |
| `ExtractionReexports.ReexportStays` | eng/tools/generate_api/src/extract.rs:119-150 | Every other re-export is listed as it stands |
| `ExtractionReexports.RawLeadsIff` | eng/tools/generate_api/src/extract.rs:450-479 | A raw item is found by entering, segment by segment, the first child of that name |
| `ExtractionReexports.AnswersIff` | eng/tools/generate_api/src/extract.rs:319-352 | The items that answer are those of the name and the trait impls for it |
| `ExtractionReexports.TraitImplIsRenamed` | eng/tools/generate_api/src/extract.rs:309-317 | A re-exported trait impl is named after its trait and its type |
| `ExtractionSorting.ModelSortable` | eng/tools/generate_api/src/extract.rs:25-289 | If what item-level extraction makes can be sorted, every item at every depth of every model that loads can be |
| `ExtractionSorting.DescendantSortable` | eng/tools/generate_api/src/model.rs:135-154 | In such a module every descendant's items can be sorted |
| `ExtractionSorting.ExtractedSorts` | eng/tools/generate_api/src/extract.rs:647-824 | A raw item whose API items have the fields item-level extraction fills in can be sorted, and is one group with its inherent impls, which sort after it |
| `ExtractionSorting.LoadedModelSorts` | eng/tools/generate_api/src/model.rs:99-154 | So the sorter never panics on a module, at any depth, of a model loaded from such raw items |
| `ModelLoader.Loader.constructor` | eng/tools/generate_api/src/driver.rs:169-175 | A new loader has empty caches and has generated nothing |
| `ModelLoader.Loader.LoadCrate` | eng/tools/generate_api/src/driver.rs:177-206 | Returns the cache-free crate; entries only grow, stay right, and no crate is generated successfully twice |
| `ModelLoader.Loader.LoadModel` | eng/tools/generate_api/src/driver.rs:208-246 | Returns the cache-free model, success or error, whatever is cached; a failed load changes no existing entry |
| `ModelLoader.Loader.ExtractModule` | eng/tools/generate_api/src/extract.rs:43-111 | Extracting through the caches gives the cache-free module |
| `ModelLoader.Loader.ExtractChild` | eng/tools/generate_api/src/extract.rs:63-108 | One turn of the loop over children: the module then holds what the children so far offer |
| `ModelLoader.Loader.ExpandReexport` | eng/tools/generate_api/src/extract.rs:119-189 | Expanding a re-export through the caches gives the cache-free expansion |
| `ModelLoader.Loader.ExpandForeignReexport` | eng/tools/generate_api/src/extract.rs:133-189 | The same for targets in other crates |
| `ModelLoader.Loader.ExpandLocalReexport` | eng/tools/generate_api/src/extract.rs:191-239 | The same for targets in the same crate |
| `ModelLoader.ErrorStays` | eng/tools/generate_api/src/extract.rs:63-110 | An error in one child is the error of the module |
| `ModelLoader.LoadAll` | eng/tools/generate_api/src/driver.rs:162-246 | Any run of loads on one loader returns, load by load, what cache-free loading returns, and each model holds what the children of its root module offer |
| `ItemOrder.RankedIffWellFormed` | eng/tools/generate_api/src/model.rs:98-124 | The sort rank is computed without a panic iff an inherent impl has an owner kind that is not itself an inherent impl |
| `ItemOrder.CompareIsLex` | eng/tools/generate_api/src/model.rs:135-154 | The hand-written comparator is the lexicographic order of one key per item |
| `ItemOrder.TotalPreorder` | eng/tools/generate_api/src/model.rs:135-154 | It is reflexive, antisymmetric up to equal keys, transitive and total on well-formed items |
| `ItemOrder.CompareIsListing` | eng/tools/generate_api/src/model.rs:98-154 | The comparator puts an item no later than another iff it is listed before it: uses, macros, proc macros, functions, structs, enums, traits, trait aliases, trait impls, unions, type aliases, constants, statics, an impl counting as its owner; then by name, code point by code point |
| `ItemOrder.SortedItems` | eng/tools/generate_api/src/model.rs:135-153 | The result is listed by kind in the order of the source, then by name in code-point order, impls after their owner by arguments, self type and declaration; and has, for every key, the same items in the same order as the input |
| `ItemOrder.SameByKeyPermutes` | eng/tools/generate_api/src/model.rs:135-154 | Such a list is a permutation of the input |
| `ItemOrder.StableSortUnique` | eng/tools/generate_api/src/model.rs:135-154 | There is only one such list, so every stable sort gives it |
| `ItemOrder.GroupsTogether` | eng/tools/generate_api/src/model.rs:126-154 | Items of one kind and name and the impls they own are contiguous |
| `ItemOrder.ImplsAfterOwners` | eng/tools/generate_api/src/model.rs:135-154 | Within a group all impls stand after their owner |
| `ItemOrder.ImplsInOrder` | eng/tools/generate_api/src/model.rs:130-154 | Within a group impls are ordered by class vector, then self type, then declaration |
| `ItemOrder.ImplsByGenerality` | eng/tools/generate_api/src/extract.rs:826-846 | Of two impls of one owner the earlier has the more general argument at the first place where they differ: generic before inferred before concrete |
| `ItemOrder.GroupHasOneKind` | eng/tools/generate_api/src/model.rs:98-119 | The members of a group have the kind, or the owner kind, of the group |
| `ItemOrder.ArgClasses` | eng/tools/generate_api/src/extract.rs:826-846 | At most one class per argument, each generic, inferred or concrete |
| `ItemOrder.Extract` | eng/tools/generate_api/src/extract.rs:772-824 | Items built by the extractor are well-formed, and exactly the inherent impls have a sort key |
| `ItemOrder.ExtractedGroups` | eng/tools/generate_api/src/extract.rs:772-824 | An extracted impl is in its owner's group and sorts after it |
| `Amqp.TruncateTrailingNulls` | sdk/core/azure_core_amqp/src/messaging.rs:404-413 | The loop counting from the back removes exactly the trailing nulls |
| `Amqp.TrimmedIff` | sdk/core/azure_core_amqp/src/messaging.rs:404-413 | A list is the trimmed form of another iff it is trimmed, no longer, and reads the same at every position |
| `AmqpFields.SymbolsRoundTrip` | sdk/core/azure_core_amqp/src/messaging.rs:35-202 | Every enumeration survives its number or symbol |
| `AmqpFields.PolicyAt` | sdk/core/azure_core_amqp/src/messaging.rs:58-80 | An expiry policy is link-detach, session-end, connection-close or never on the wire, read iff it is there, and any other symbol is refused |
| `AmqpFields.OutcomeAt` | sdk/core/azure_core_amqp/src/messaging.rs:181-203 | The same for the four outcomes and their symbols |
| `AmqpCodec.EncodeTarget` | sdk/core/azure_core_amqp/src/messaging.rs:378-415 | The target encoder fills its seven positions and truncates: each field stands at the index and in the wire type of the standard, null iff it is absent |
| `AmqpCodec.DecodeTarget` | sdk/core/azure_core_amqp/src/messaging.rs:317-376 | The target decoder reads position by position, ignores other types, and panics exactly on a bad durability, policy or key |
| `AmqpCodec.TargetRoundTrip` | sdk/core/azure_core_amqp/src/messaging.rs:317-415 | decode(encode(t)) = t for every target |
| `AmqpCodec.EncodeSource` | sdk/core/azure_core_amqp/src/messaging.rs:566-619 | The source encoder fills its eleven positions and truncates: each field at its index and in its wire type, null iff it is absent |
| `AmqpCodec.DecodeSource` | sdk/core/azure_core_amqp/src/messaging.rs:482-563 | The source decoder takes each field from its index iff it is there in its wire type, and panics exactly on refused contents |
| `AmqpCodec.SourceRoundTrip` | sdk/core/azure_core_amqp/src/messaging.rs:482-619 | decode(encode(s)) = s for every source |
| `AmqpCodec.EncodeHeader` | sdk/core/azure_core_amqp/src/messaging.rs:699-733 | The header encoder leaves out defaults and truncates: each field at its index, the time to live in whole milliseconds modulo 2^32 |
| `AmqpCodec.DecodeHeader` | sdk/core/azure_core_amqp/src/messaging.rs:666-697 | The header decoder takes each field from its index, and the default where it is missing or of another type |
| `AmqpCodec.HeaderRoundTripIff` | sdk/core/azure_core_amqp/src/messaging.rs:666-733 | decode(encode(h)) = h iff the time to live is absent or a whole number of milliseconds below 2^32 and not negative |
| `AmqpCodec.HeaderWraps` | sdk/core/azure_core_amqp/src/messaging.rs:713-715 | A time to live of 2^32 milliseconds comes back as zero |
| `AmqpCodec.EncodeProperties` | sdk/core/azure_core_amqp/src/messaging.rs:890-950 | The properties encoder fills its thirteen positions and truncates: each field at its index and in its wire type, null iff it is absent |
| `AmqpCodec.DecodeProperties` | sdk/core/azure_core_amqp/src/messaging.rs:791-888 | The properties decoder takes each field from its index iff it is there in its wire type, message ids in four forms |
| `AmqpCodec.PropertiesRoundTrip` | sdk/core/azure_core_amqp/src/messaging.rs:791-950 | decode(encode(p)) = p for all properties |
| `AmqpCodec.TrailingNullsIgnored` | sdk/core/azure_core_amqp/src/messaging.rs:317-950 | For all four types, adding or dropping trailing nulls never changes what is decoded, nor whether it panics |
| `AmqpCodec.EncodedLists` | sdk/core/azure_core_amqp/src/messaging.rs:404-948 | Every encoded list is empty or ends in a non-null, and is no longer than the type's arity |
| `AmqpCanonical.CanonicalTarget` | sdk/core/azure_core_amqp/src/messaging.rs:317-415 | encode(decode(l)) = l iff l is trimmed, has at most seven fields and each is null or of its type |
| `AmqpCanonical.CanonicalSource` | sdk/core/azure_core_amqp/src/messaging.rs:482-619 | The same for sources and eleven fields |
| `AmqpCanonical.CanonicalHeader` | sdk/core/azure_core_amqp/src/messaging.rs:666-733 | The same for headers, which moreover store no default value |
| `AmqpCanonical.CanonicalProperties` | sdk/core/azure_core_amqp/src/messaging.rs:791-950 | The same for properties and thirteen fields |
| `AmqpCanonical.ReencodeIdempotent` | sdk/core/azure_core_amqp/src/messaging.rs:317-950 | encode after decode is idempotent on every list that decodes, for all four types |
| `AmqpCanonical.HeaderReencodes` | sdk/core/azure_core_amqp/src/messaging.rs:666-733 | Even a header that is not recovered is encoded to the same list again |
| `OrderedMap.AmqpOrderedMap.Insert` | sdk/core/azure_core_amqp/src/value.rs:376-378 | Insertion appends, whether or not the key is present |
| `OrderedMap.AmqpOrderedMap.Get` | sdk/core/azure_core_amqp/src/value.rs:381-389 | Lookup gives the oldest value stored under the key |
| `OrderedMap.AmqpOrderedMap.Remove` | sdk/core/azure_core_amqp/src/value.rs:402-409 | Removal takes the oldest value of the key out, or changes nothing |
| `OrderedMap.AmqpOrderedMap.ContainsKey` | sdk/core/azure_core_amqp/src/value.rs:412-418 | A key is contained iff lookup finds a value |
| `OrderedMap.RunIsSurvivors` | sdk/core/azure_core_amqp/src/value.rs:365-425 | After every run of inserts and removes the entries are exactly the inserted ones whose rank among their key's inserts is at least the number of successful removes of that key, in insertion order |
| `OrderedMap.Fifo` | sdk/core/azure_core_amqp/src/value.rs:365-425 | Per key the values are the inserted ones without as many of the oldest as were taken |
| `OrderedMap.StepKeepsOthers` | sdk/core/azure_core_amqp/src/value.rs:376-409 | An operation leaves the entries of other keys and their order alone |
| `OrderedMap.LengthOfRun` | sdk/core/azure_core_amqp/src/value.rs:376-409 | Length is inserts minus successful removes |
| `OrderedMap.AgreesIff` | sdk/core/azure_core_amqp/src/value.rs:381-409 | The map view survives the removal of every key iff no key is stored twice |
| `OrderedMap.MapRefinement` | sdk/core/azure_core_amqp/src/value.rs:142-425 | At every point of a run the vector answers as a mathematical map, and would after any removal, iff no present key is ever inserted again |
| `OrderedMap.LenIsMapSize` | sdk/core/azure_core_amqp/src/value.rs:392-394 | Without reinsertion the length is the size of the map |
| `OrderedMap.DuplicateKey` | sdk/core/azure_core_amqp/src/value.rs:376-409 | Inserting a key twice: the first value stays in front and the second appears after a removal |
| `ByteStream.GeneratedStream.constructor` | sdk/core/azure_core_test/src/stream.rs:67-72 | A new stream has handed out nothing |
| `ByteStream.GeneratedStream.NextByte` | sdk/core/azure_core_test/src/stream.rs:125-128 | The cycling iterator yields the pattern's byte at the number of bytes drawn so far, modulo its length, and nothing for an empty pattern |
| `ByteStream.GeneratedStream.PollRead` | sdk/core/azure_core_test/src/stream.rs:111-132 | A read writes the bytes due to the front of the buffer, leaves the rest of it, and panics iff the pattern is empty and a byte is due |
| `ByteStream.GeneratedStream.PollNext` | sdk/core/azure_core_test/src/stream.rs:142-165 | A chunk holds the bytes due; the end is reported iff all bytes have been handed out |
| `ByteStream.GeneratedStream.Reset` | sdk/core/azure_core_test/src/stream.rs:174-178 | Reset sets the count back and leaves the generator |
| `ByteStream.RunIsPattern` | sdk/core/azure_core_test/src/stream.rs:106-183 | Over any mix of reads, chunks and resets the bytes handed out are the repeated pattern without a gap |
| `ByteStream.RunCounts` | sdk/core/azure_core_test/src/stream.rs:111-165 | Without a reset a run hands out what was asked for, up to the length |
| `ByteStream.Drained` | sdk/core/azure_core_test/src/stream.rs:111-165 | Any interleaving of reads and chunks, of whatever sizes, that ends a new stream has yielded exactly the length, byte i being the pattern's byte i modulo its size |
| `ByteStream.EndedIff` | sdk/core/azure_core_test/src/stream.rs:117-165 | A run without a reset has ended iff its sizes add up to what was left |
| `ByteStream.EnoughReadsEnd` | sdk/core/azure_core_test/src/stream.rs:117-165 | In particular as many non-empty operations as bytes left end the stream |
| `ByteStream.DrainedAfterReset` | sdk/core/azure_core_test/src/stream.rs:174-178 | After any run and a reset, reading to the end yields the length again, continuing where the generator stood |
| `ByteStream.ReplayIff` | sdk/core/azure_core_test/src/stream.rs:174-178 | They repeat the first bytes iff the pattern agrees with itself shifted by the number of bytes drawn |
| `ByteStream.WholePassesReplay` | sdk/core/azure_core_test/src/stream.rs:174-178 | A whole number of passes guarantees the replay |
| `ByteStream.DistinctReplayIff` | sdk/core/azure_core_test/src/stream.rs:37-42 | For a pattern of distinct bytes, as the default one, nothing else does |
| `ByteStream.SecondReadIff` | sdk/core/azure_core_test/src/stream.rs:106-183 | Reading to the end, resetting and reading to the end again, each in any number of operations, gives the same bytes iff the pattern is periodic in the length |
| `ByteStream.ReplayFails` | sdk/core/azure_core_test/src/stream.rs:174-178 | A stream of three bytes over a two-byte pattern, read at once, reset and read again byte by byte: other bytes |
| `AsciiLowercase.BoundaryIff` | sdk/core/typespec_client_core/src/fmt.rs:39-39 | Looking at one byte decides exactly whether an index is a character's offset |
| `AsciiLowercase.SuffixSuffices` | sdk/core/typespec_client_core/src/fmt.rs:36-40 | The character index is at most the capital's byte offset, and lowercasing from there changes every byte that needs it |
| `AsciiLowercase.EncodeLower` | sdk/core/typespec_client_core/src/fmt.rs:39-39 | Lowercasing bytes and lowercasing characters give the same text |
| `AsciiLowercase.MakeAsciiLowercase` | sdk/core/typespec_client_core/src/fmt.rs:39-39 | The in-place pass lowers the bytes from an index and leaves those before it |
| `AsciiLowercase.LowercaseCopy` | sdk/core/typespec_client_core/src/fmt.rs:38-41 | The owned copy is lowercased from the index, or slicing panics iff the index is no boundary |
| `AsciiLowercase.ToAsciiLowercase` | sdk/core/typespec_client_core/src/fmt.rs:35-46 | Panics iff the character index of the first capital is no character's byte offset; otherwise the lowercased text, borrowed iff there is no capital |
| `AsciiLowercase.AsciiPrefixIsSafe` | sdk/core/typespec_client_core/src/fmt.rs:36-41 | An ASCII prefix before the first capital excludes the panic |
| `AsciiLowercase.NonAsciiPanics` | sdk/core/typespec_client_core/src/fmt.rs:36-41 | One accented letter before a capital panics |
| `SafeDebug.FromAttrs` | sdk/core/typespec_macros/src/safe_debug.rs:197-211 | The last safe attribute counts, and the error names exactly the malformed ones, in order |
| `SafeDebug.KeptIncreases` | sdk/core/typespec_macros/src/safe_debug.rs:80-95 | Kept fields are in declaration order |
| `SafeDebug.KeepsIff` | sdk/core/typespec_macros/src/safe_debug.rs:213-224 | The merged records give the precedence field, type, variant, hidden |
| `SafeDebug.KeptAreShown` | sdk/core/typespec_macros/src/safe_debug.rs:80-135 | The generator keeps exactly the fields to be shown |
| `SafeDebug.NamedArmIsRightIff` | sdk/core/typespec_macros/src/safe_debug.rs:79-112 | For every value, an arm with named fields prints exactly the shown fields with their names, values and order, and marks the rest, iff no shown field is called like the formatter |
| `SafeDebug.TupleArm` | sdk/core/typespec_macros/src/safe_debug.rs:114-145 | A tuple arm prints the first fields, as many as are shown |
| `SafeDebug.TupleArmIsRightIff` | sdk/core/typespec_macros/src/safe_debug.rs:114-145 | A tuple arm is right for every value iff no shown field comes after a hidden one |
| `SafeDebug.TupleMisprints` | sdk/core/typespec_macros/src/safe_debug.rs:114-145 | With the first field hidden and the second safe, the hidden one is printed |
| `SafeDebug.FieldCalledF` | sdk/core/typespec_macros/src/safe_debug.rs:106-111 | A safe field called f is not printed |
| `SafeDebug.BodyArms` | sdk/core/typespec_macros/src/safe_debug.rs:31-60 | Each variant gets one arm, in order, generated from its attributes merged with the type's |
| `SafeDebug.DerivedDebugIsRightIff` | sdk/core/typespec_macros/src/safe_debug.rs:25-171 | For every accepted type the derived Debug is right for all values of a variant iff the variant meets the named-field or the tuple condition |
| `SafeDebug.AcceptedIff` | sdk/core/typespec_macros/src/safe_debug.rs:25-147 | The macro fails exactly on a union and on a malformed attribute it looks at; with the debug feature it does not look at those of fields |
| `TracingNew.AcceptedIff` | sdk/core/azure_core_macros/src/tracing_new.rs:249-321 | A body is accepted iff its last statement is a Self literal, or Ok or Arc::new or both around one |
| `TracingNew.LiteralReads` | sdk/core/azure_core_macros/src/tracing_new.rs:31-61 | The emitted literal reads back with the tracer first and the other fields in order, unless there is no other field |
| `TracingNew.TailEmitted` | sdk/core/azure_core_macros/src/tracing_new.rs:85-141 | How each kind of tail is emitted |
| `TracingNew.TailGetsTracerIff` | sdk/core/azure_core_macros/src/tracing_new.rs:25-211 | For every accepted body the last statement is emitted as written, with the tracer as the first field of its literal and nothing else changed, iff its call has one argument, each Arc call is written plainly as Arc::new, no semicolon follows, and the literal has a field and no base |
| `TracingNew.QualifiedArc` | sdk/core/azure_core_macros/src/tracing_new.rs:122-128 | std::sync::Arc::new around the literal is accepted and emitted as Arc::new |
| `TracingNew.TracerAdded` | sdk/core/azure_core_macros/src/tracing_new.rs:25-66 | The tail with the tracer is again an accepted tail, and its literal has exactly one tracer more |
| `TracingNew.BodyUntouchedIff` | sdk/core/azure_core_macros/src/tracing_new.rs:173-211 | Of an accepted body every statement is emitted unchanged iff it is none of the listed calls and literals |
| `TracingNew.UntouchedIff` | sdk/core/azure_core_macros/src/tracing_new.rs:85-211 | The same for one statement |
| `TracingNew.ArcOfLiteral` | sdk/core/azure_core_macros/src/tracing_new.rs:122-128 | Arc::new around another type's literal is emitted twice around it |
| `TracingNew.EmptyLiteral` | sdk/core/azure_core_macros/src/tracing_new.rs:54-60 | An accepted empty literal is emitted as a syntax error |

## Left out

- Processes, files, JSON, command lines and the network: crates arrive parsed. `Workspace.generate` stands for running rustdoc on a package, and `Deps` for the loaded crates of the superset check.
- Whether a local re-export source is publicly reachable (eng/tools/generate_api/src/extract.rs:354-448) is the parameter `Workspace.reachable`.
- The printers of structs, enums, traits, impls and constants: the text of an item is an opaque field of `RawItem`; only types, generics, where-clauses and function declarations are rendered.
- SpanMatcher: recording spans in the mock tracer and the locks around its fields; a span is what was recorded when the check starts. Ids, eight random bytes in the source, are any values; where a result needs that no two spans drew the same one it says so (`GreedyChoice.Recorded`). Floats are NaN, infinite or real.
- PublicSurface: a map has no iteration order, so the loop over a `BTreeMap` takes keys in any order; the result does not depend on it. A module summary with an empty path, which rustdoc does not produce and which would panic, contributes nothing.
- AttributeText.IsWhitespace: the Unicode white-space characters are listed as ranges; the results need only that blank is one and quotes, backslash, colon, brackets and letters of the lint prefix are not.
- ItemOrder.SortedItems: the library's `sort_by` is stood for by an insertion sort; `ItemOrder.StableSortUnique` shows that any stable sort gives the same list.
- ItemOrder.Extract: gives only the sort-relevant fields that item-level extraction fills in; `ExtractionSorting.ExtractedFrom` says which of a raw item's API items have which of these fields, and `ExtractionSorting.LoadedModelSorts` follows them into loaded models.
- ModelLoader: extraction works on module values; that the seen-sets of the source hold exactly the keys of those values is proved for `ModuleTree.Builder`.
- TypeReader: reads tokens; that a text falls apart into these tokens is not shown. Generics of function pointers and tuples of one type are read as the printer writes them (`fn<'a>()`, `(T)`), though Rust writes `for<'a> fn()` and `(T,)`. Array lengths and constant defaults are single words.
- DedupKeys: nothing is stated about texts that hold the control characters that join keys.
- Amqp: floats, decimals, UUIDs and timestamps are opaque numbers, byte serialization and the transport are not modelled, and list, map and value conversions other than those the four composite types use are left out.
- OrderedMap: borrowed key types in lookups are left out, and keys are compared with one equality that is reflexive; a floating-point NaN key, which `get` and `remove` of the source never find, is outside the model.
- ByteStream: reads are always ready, as in the source; conversions to request bodies are left out.
- SafeDebug: `Attrs` is a value and `update` a function on it. Generics, where-clauses and spans are not modelled, and a fieldless tuple or braces struct is matched as an empty pattern.
- TracingNew: the signature checks of `new` functions, and the function, client and subclient macros, are left out; the tracer initializer is an opaque value that depends on the namespace only.
- AsciiLowercase: the serde helpers of the same file.
- Base64, HMAC, JSON, XML, credentials, recordings, OpenTelemetry adapters, samples and scripts: thin wrappers or easy claims only.
