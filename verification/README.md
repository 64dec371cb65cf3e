# ApprovalTests.Net `Approvals` facade — a Dafny model

This project models the configuration logic of `Approvals`, the static entry
point of ApprovalTests.Net. It covers what a verification decides before it
hands control to `Approver.Verify`:

- **Reporter resolution.** The failure reporter is chosen in this order:
  1. a front-loaded reporter, if it reports itself usable when probed with
     `"default.txt"`. It comes from the nearest `FrontLoadedReporter` marker,
     else from the process-wide default.
  2. otherwise, the nearest `UseReporter` marker.
  3. otherwise, the supplied default (`IntroductionReporter` for
     `GetReporter()`).
- **Line endings.** `Verify(writer, namer, reporter)` computes a line-ending
  flag: "ignore" when no `IgnoreLineEndings` marker is present, otherwise the
  nearest marker's value.
- **Process-wide registries.** These hold the default namer creator and the
  default approver creator.
- **Content shaping.** Every text, binary, file, enumerable and dictionary
  entry point builds its writer through:
  - extension dot stripping;
  - the null scrubber;
  - the `header + "\n\n" + body` join;
  - ordering dictionary entries by key;
  - the `"{key} => {value}"` entry format.

The call chain is a `seq<Frame>` with the innermost frame first. Each frame
carries at most one marker of each kind. "The first frame carrying a marker"
stands in for `Caller.GetFirstFrameForAttribute`; the `Caller` class is not
part of this model, so this meaning is an assumption.

The thread-local `currentCaller` is an `Option<Chain>` in `State`. `GetReporter()` recaptures it, so
every writer-based entry point uses the live chain
(`Approvals.StaleCallerDoesNotAffectWriterPath`). `GetReporter(defaultIfNotFound)`
and an explicit `Verify(writer, namer, reporter)` read the cached chain. That
chain may have been captured by an earlier call on the same thread
(`Approvals.ExplicitVerifyReadsCachedCaller`). The model keeps this behaviour
as the code has it.

A call is a pure function from `State` (cached caller, registries,
front-loaded default) and `Environment` to a `Step`. The `Environment` holds:
- the live chain;
- the `works` probe, standing for `IsWorkingInThisEnvironment`;
- the enumerable writers, standing for the three `enumerable.Write` overloads.

A `Step` is the `Verification` (approver, reporter) plus the state after the
call.

Modules: `Wrappers` (Option/Result), `CallChain`, `CallerContext`,
`Configuration`, `Collaborators` (writer, namer and approver values),
`Registry`, `Shaping`, `Dictionaries`, `Approvals`.

Two details of the code:
- **Null dictionaries.** Only `VerifyAll(dictionary)` turns a null dictionary
  into an empty one (line 258). The other three dictionary overloads
  pass it to `Enumerable.OrderBy`, which throws `ArgumentNullException` on a
  null source; they are modelled as returning `Failure(NullDictionary)`.
- **Dictionary input.** A dictionary is modelled as its enumeration: a
  sequence of key/value pairs with integer keys. `OrderBy` sorts that sequence
  by key; its stability is not claimed, since the keys of an `IDictionary` are
  distinct. The model proves that the result depends only on the
  entries, not on the enumeration order.

## Model

| member | source | states |
|---|---|---|
| `CallChain.FirstFrameFor` | src/ApprovalTests/Approvals.cs:47 | The attribute search returns the innermost frame carrying the marker, which is the only nearest carrier, or reports that none does exactly when no frame carries it |
| `CallChain.OuterFramesIgnored` | src/ApprovalTests/Approvals.cs:108-109 | Once an inner frame carries a marker, frames appended further out never change the search result |
| `CallChain.SearchContinuesOutward` | src/ApprovalTests/Approvals.cs:85-86 | When no inner frame carries the marker, the search result is found in the outer frames, offset by the inner length |
| `CallChain.OnlyMarkersMatter` | src/ApprovalTests/Approvals.cs:47 | The search depends only on the frames' markers, never on which methods the frames are |
| `CallerContext.SetCaller` | src/ApprovalTests/Approvals.cs:40-43 | After SetCaller the slot holds exactly the freshly captured chain |
| `CallerContext.CurrentCaller` | src/ApprovalTests/Approvals.cs:27-38 | A cached chain is returned as is; an empty slot is filled with the live chain, which is returned; afterwards the slot always holds the chain returned |
| `CallerContext.CachedChainIsSticky` | src/ApprovalTests/Approvals.cs:27-38 | A second read returns the first read's chain whatever the live chain has become |
| `CallerContext.ReadAfterSetCallerIsFresh` | src/ApprovalTests/Approvals.cs:40-43 | A read right after SetCaller sees the live chain |
| `Configuration.WrapAsEnvironmentAware` | src/ApprovalTests/Approvals.cs:97-104 | An environment-aware reporter is kept; any other is wrapped in an AlwaysWorksReporter, which works for every probe |
| `Configuration.FrontLoadedFromAttribute` | src/ApprovalTests/Approvals.cs:83-87 | The candidate is the nearest FrontLoadedReporter marker's reporter, or the process-wide default when no frame carries one |
| `Configuration.ReporterFromAttribute` | src/ApprovalTests/Approvals.cs:106-110 | The result is absent exactly when no frame carries UseReporter; otherwise it is the nearest marker's reporter |
| `Configuration.GetFrontLoadedReporter` | src/ApprovalTests/Approvals.cs:89-95 | A working front-loaded reporter is returned; otherwise the nearest UseReporter reporter is returned, else the given default |
| `Configuration.ResolveReporter` | src/ApprovalTests/Approvals.cs:78-81 | The reporter is the front-loaded candidate whenever it works; otherwise it is the nearest UseReporter marker's reporter, or the default when no frame carries UseReporter |
| `Configuration.ShouldIgnoreLineEndings` | src/ApprovalTests/Approvals.cs:47-48 | With no IgnoreLineEndings marker line endings are ignored; otherwise the nearest marker's value decides |
| `Configuration.FrontLoadedMarkerWins` | src/ApprovalTests/Approvals.cs:89-94 | A working reporter from the nearest FrontLoadedReporter marker wins over every UseReporter marker |
| `Configuration.NearestUseReporterWhenFrontLoadedFails` | src/ApprovalTests/Approvals.cs:94 | When the candidate does not work, the nearest UseReporter marker decides and outer ones are ignored |
| `Configuration.EmptyChainUsesDefaults` | src/ApprovalTests/Approvals.cs:83-95 | A chain without frames resolves to the process default if it works, else the given default, and ignores line endings |
| `Configuration.UseReporterIrrelevantWhenFrontLoadedWorks` | src/ApprovalTests/Approvals.cs:92-93 | Chains that differ only in UseReporter markers resolve alike while the front-loaded candidate works |
| `Configuration.ResolutionDependsOnlyOnMarkers` | src/ApprovalTests/Approvals.cs:78-87 | Two chains with the same markers give the same reporter and the same line-ending flag |
| `Configuration.LineEndingsKeptOnlyByNearestFalseMarker` | src/ApprovalTests/Approvals.cs:47-48 | Line endings are compared exactly if and only if the nearest IgnoreLineEndings marker says false |
| `Configuration.OuterLineEndingMarkersIgnored` | src/ApprovalTests/Approvals.cs:47-48 | Once an inner frame carries IgnoreLineEndings, outer frames cannot change the flag |
| `Registry.RegisterDefaultApprover` | src/ApprovalTests/Approvals.cs:53-56 | Replaces the approver creator and leaves the namer creator untouched |
| `Registry.RegisterDefaultNamerCreation` | src/ApprovalTests/Approvals.cs:147-150 | Replaces the namer creator and leaves the approver creator untouched |
| `Registry.UseAssemblyLocationForApprovedFiles` | src/ApprovalTests/Approvals.cs:163-166 | Leaves the approver creator untouched (the namer it installs is stated by AssemblyLocationNamersInstalled) |
| `Registry.UseAssemblyLocationAndTestNamespaceForApprovedFiles` | src/ApprovalTests/Approvals.cs:181-184 | Leaves the approver creator untouched (the namer it installs is stated by AssemblyLocationNamersInstalled) |
| `Registry.InitialDefaults` | src/ApprovalTests/Approvals.cs:24-25 | At process start the default namer is UnitTestFrameworkNamer and the default approver is a FileApprover over exactly the given writer, namer and flag |
| `Registry.RegisteredNamerIsUsed` | src/ApprovalTests/Approvals.cs:147-155 | After registering a namer creator, GetDefaultNamer invokes it and default approvers are unchanged |
| `Registry.GetDefaultNamer` | src/ApprovalTests/Approvals.cs:152-155 | Invokes the registered namer creator (its meaning is stated by InitialDefaults and RegisteredNamerIsUsed) |
| `Registry.GetDefaultApprover` | src/ApprovalTests/Approvals.cs:58-61 | Applies the registered approver creator to writer, namer and flag (its meaning is stated by InitialDefaults and RegisteredApproverIsUsed) |
| `Registry.RegisteredApproverIsUsed` | src/ApprovalTests/Approvals.cs:53-61 | After registering an approver creator, default approvers come from it and the default namer is unchanged |
| `Registry.RegistrationsCommuteAndOverwrite` | src/ApprovalTests/Approvals.cs:53-56 | Namer and approver registrations commute, and a later registration of the same kind replaces the earlier one |
| `Registry.AssemblyLocationNamersInstalled` | src/ApprovalTests/Approvals.cs:163-184 | The two assembly-location switches make the default namer the matching assembly-location namer |
| `Shaping.TrimLeadingDots` | src/ApprovalTests/Approvals.cs:203 | The result is a suffix of the input, everything dropped is a dot, and it does not start with a dot |
| `Shaping.TrimIgnoresDotCount` | src/ApprovalTests/Approvals.cs:203 | Any number of leading dots before an extension trims to the same result |
| `Shaping.TrimIsIdempotent` | src/ApprovalTests/Approvals.cs:203 | Trimming twice equals trimming once, and an extension without a leading dot is kept |
| `Shaping.Scrubbed` | src/ApprovalTests/Approvals.cs:198-201 | A null scrubber leaves the text unchanged; a given scrubber is applied to the text |
| `Shaping.WithHeader` | src/ApprovalTests/Approvals.cs:231 | The text is the header, then a blank line ("\n\n"), then the body |
| `Shaping.NatText` | src/ApprovalTests/Approvals.cs:259 | A natural number is written as non-empty decimal digits with no leading zero |
| `Shaping.IntText` | src/ApprovalTests/Approvals.cs:259 | An integer key is written with digits and a minus sign only |
| `Shaping.NatTextRoundTrip` | src/ApprovalTests/Approvals.cs:259 | Reading back the decimal text of a natural number gives the number |
| `Shaping.IntTextRoundTrip` | src/ApprovalTests/Approvals.cs:259 | Parsing the text of an integer key gives the key back |
| `Shaping.ArrowFormat` | src/ApprovalTests/Approvals.cs:259 | An entry line is the key's text followed by " => " and the value |
| `Shaping.ArrowFormatInjective` | src/ApprovalTests/Approvals.cs:259 | Two entries with the same line have the same key and the same value |
| `Dictionaries.Insert` | src/ApprovalTests/Approvals.cs:259 | Insertion adds exactly one entry and keeps the keys in order, strictly so when the key is new |
| `Dictionaries.OrderBy` | src/ApprovalTests/Approvals.cs:259 | OrderBy by key is a permutation of the entries in non-decreasing key order, strictly ascending when keys are distinct |
| `Dictionaries.AscendingArrangementIsUnique` | src/ApprovalTests/Approvals.cs:259 | Two ascending-key arrangements of the same entries are equal |
| `Dictionaries.OrderByIsTheAscendingListing` | src/ApprovalTests/Approvals.cs:259 | Any ascending listing of a dictionary's entries is exactly OrderBy's result |
| `Dictionaries.OrderByIgnoresEnumerationOrder` | src/ApprovalTests/Approvals.cs:256-260 | Dictionaries with the same entries are ordered identically, whatever order they enumerate in |
| `Dictionaries.DefaultLines` | src/ApprovalTests/Approvals.cs:259 | The default rendering has one line per entry |
| `Dictionaries.DefaultLinesDetermineDictionary` | src/ApprovalTests/Approvals.cs:259 | Two dictionaries render to the same default lines if and only if they hold the same entries |
| `Approvals.GetReporter` | src/ApprovalTests/Approvals.cs:72-76 | The caller is recaptured and the reporter is resolved for the live chain with IntroductionReporter as the last resort |
| `Approvals.GetReporterOrDefault` | src/ApprovalTests/Approvals.cs:78-81 | The reporter is resolved for the cached chain; the live chain is captured only when nothing is cached |
| `Approvals.GetReporterIgnoresCache` | src/ApprovalTests/Approvals.cs:72-76 | GetReporter() gives the same reporter and state whatever was cached before |
| `Approvals.GetReporterOrDefaultReadsCache` | src/ApprovalTests/Approvals.cs:78-87 | Once a chain is cached, GetReporter(default) ignores the live chain |
| `Approvals.UnmarkedChainGetsIntroduction` | src/ApprovalTests/Approvals.cs:72-76 | With no reporter markers and a non-working front-loaded default, GetReporter() returns IntroductionReporter |
| `Approvals.VerifyWith` | src/ApprovalTests/Approvals.cs:45-51 | The given reporter is used; the registered approver creator gets the writer, the namer and the line-ending flag of the cached chain, which is captured if absent |
| `Approvals.DefaultApproverIgnoresLineEndings` | src/ApprovalTests/Approvals.cs:45-49 | With the initial registry and no IgnoreLineEndings marker, the approver is a FileApprover that ignores line endings |
| `Approvals.VerifyApproverWith` | src/ApprovalTests/Approvals.cs:67-70 | The approver and reporter reach Approver.Verify unchanged and the state is untouched |
| `Approvals.VerifyApprover` | src/ApprovalTests/Approvals.cs:63-66 | The given approver is verified with the reporter GetReporter() resolves for the live chain |
| `Approvals.VerifiesWriterIsDeterministic` | src/ApprovalTests/Approvals.cs:120-123 | The writer-path specification determines the whole verification and the state after it |
| `Approvals.VerifyWriter` | src/ApprovalTests/Approvals.cs:120-123 | Verify(writer) recaptures the caller, uses the live chain's reporter and line-ending flag, and uses a freshly created default namer |
| `Approvals.StaleCallerDoesNotAffectWriterPath` | src/ApprovalTests/Approvals.cs:120-123 | A chain cached by an earlier call has no effect on Verify(writer) |
| `Approvals.ExplicitVerifyReadsCachedCaller` | src/ApprovalTests/Approvals.cs:45-48 | An explicit Verify(writer, namer, reporter) takes the flag from the cached chain, whatever the live chain is |
| `Approvals.RegistrationsReachVerification` | src/ApprovalTests/Approvals.cs:120-123 | Registered namer and approver creators are exactly what later writer-based verifications use, and the reporter is unaffected |
| `Approvals.AssemblyLocationReachesVerification` | src/ApprovalTests/Approvals.cs:163-184 | After either assembly-location switch, FileApprover-based verifications use the matching namer |
| `Approvals.VerifyFile` | src/ApprovalTests/Approvals.cs:125-128 | The received file path is verified through an existing-file writer on the writer path |
| `Approvals.VerifyObject` | src/ApprovalTests/Approvals.cs:186-189 | The object's text is verified through a text writer with the default extension |
| `Approvals.VerifyWithExtension` | src/ApprovalTests/Approvals.cs:196-205 | The scrubbed text is verified as a text file whose extension has its leading dots removed |
| `Approvals.ExtensionDotsIgnored` | src/ApprovalTests/Approvals.cs:203-204 | Extensions that differ only in leading dots give the same verification |
| `Approvals.NullScrubberLeavesTextUnchanged` | src/ApprovalTests/Approvals.cs:198-201 | A null scrubber acts as NO_SCRUBBER, so the text is verified unchanged |
| `Approvals.VerifyText` | src/ApprovalTests/Approvals.cs:191-194 | Verify(string) verifies the scrubbed text as a .txt file; this is VerifyWithExtension with "txt" |
| `Approvals.ExceptionText` | src/ApprovalTests/Approvals.cs:217 | The exception text is the type's full name, ": ", then the message |
| `Approvals.VerifyException` | src/ApprovalTests/Approvals.cs:215-218 | The exception's type-and-message text is verified as a .txt file |
| `Approvals.VerifyBinaryFile` | src/ApprovalTests/Approvals.cs:277-281 | The bytes are verified through a binary writer whose extension has its leading dots removed |
| `Approvals.BinaryExtensionDotsIgnored` | src/ApprovalTests/Approvals.cs:279 | Binary extensions that differ only in leading dots give the same verification |
| `Approvals.Headed` | src/ApprovalTests/Approvals.cs:229-232 | Without a header the body is verified as is; with one the text is header, "\n\n", then the body |
| `Approvals.HeaderIsRecoverable` | src/ApprovalTests/Approvals.cs:231 | The same body under different headers gives different texts |
| `Approvals.VerifyAllLabelled` | src/ApprovalTests/Approvals.cs:229-237 | The labelled rendering, under the optional header, is verified as a .txt file |
| `Approvals.VerifyAllFormatted` | src/ApprovalTests/Approvals.cs:245-254 | One formatted text per item, under the optional header, is verified as a .txt file |
| `Approvals.VerifyAllLabelledFormatted` | src/ApprovalTests/Approvals.cs:239-243 | The formatted items and the label together go to `enumerable.Write(label, formatter)`, and that text is verified as .txt |
| `Approvals.VerifyAllDictionary` | src/ApprovalTests/Approvals.cs:256-260 | The dictionary's "{key} => {value}" lines, in ascending key order, are verified as a .txt file; a null dictionary counts as empty |
| `Approvals.VerifyAllDictionaryWithHeader` | src/ApprovalTests/Approvals.cs:262-265 | The header and the default lines are verified as one text; a null dictionary is an error, and only then |
| `Approvals.VerifyAllDictionaryFormatted` | src/ApprovalTests/Approvals.cs:267-275 | A null dictionary is an error, and only then; otherwise the header and the formatted lines of the key-ordered entries are verified as one .txt text |
| `Approvals.DictionaryFormatterSeesOrderedPairs` | src/ApprovalTests/Approvals.cs:267-275 | The formatter overloads equal the enumerable overloads over the key-ordered entries with `p => formatter(p.Key, p.Value)` |
| `Approvals.NullDictionaryIsEmpty` | src/ApprovalTests/Approvals.cs:256-275 | VerifyAll(dictionary) treats null like an empty dictionary; the other overloads fail on null |
| `Approvals.DefaultFormatIsArrow` | src/ApprovalTests/Approvals.cs:256-265 | The default overloads equal the formatter overloads with the "{key} => {value}" formatter |
| `Approvals.DictionaryEnumerationOrderIrrelevant` | src/ApprovalTests/Approvals.cs:267-275 | Dictionaries with the same entries verify alike, whatever order they enumerate in |
| `Approvals.DictionaryTextDeterminesDictionary` | src/ApprovalTests/Approvals.cs:256-260 | With an injective enumerable writer, two dictionaries give the same body if and only if they hold the same entries |

## Left out

- `Approver.Verify`, `FileApprover`, writers and namers: they do file I/O (receive, compare, approve). The model stops at the approver and reporter handed to `Approver.Verify`.
- `Caller` and the `ThreadLocal` storage are replaced by an explicit chain and an `Option<Chain>` slot. The stack walk itself (reflection over frames) is not modelled.
- `IsWorkingInThisEnvironment` and every reporter side effect: the probe is the uninterpreted parameter `works`. `AlwaysWorksReporter` is assumed to work for every probe.
- `enumerable.Write(label)`, `enumerable.Write(formatter)` and `enumerable.Write(label, formatter)` are the uninterpreted `Environment` functions `writeLabelled`, `writeLines` and `writeLabelledLines`. Their line layout is not modelled.
- `ScrubberUtils.NO_SCRUBBER` is not part of this model; `Shaping.NoScrubber` assumes it is the identity.
- Extensions are non-null strings: `TrimStart('.')` on a null extension (lines 203 and 279) would throw, and that case is not modelled.
- `Approvals.VerifyAllDictionary`: the default dictionary overloads fix the value type to `string`, so each value is its own text. The source renders `{p.Value}` for any value type, and a null value as the empty string; that conversion is not modelled.
- `WriterFactory.CreateTextWriter` is represented by the `TextWriter` value it is given. Its default extension is left as `None`.
- `Verify(FileInfo)`: `FileInfo.FullName` is file-system path resolution. With the full name given, it is `VerifyFile`.
- `Verify(IExecutableQuery)` and both `VerifyWithCallback` overloads: `ExecutableQueryFailure` and `ExecutableLambda` are not part of this model.
- `Verify(Exception)` and `VerifyExceptionWithStacktrace`: `e.Scrub()` is not part of this model. The scrubbed text would go through `VerifyText` like any other string.
- `VerifyHtml`, `VerifyXml`, `VerifyJson` and `VerifyPdfFile` delegate to formatters and scrubbers that are not part of this model.
- `AssertEquals` (all three overloads): `StringReporting.AssertEqual` is not part of this model.
- `SetFrontLoadedReporter` and `FrontLoadedReporterDisposer`: the disposer's body is not part of this model. The process-wide front-loaded reporter is the `State` field `frontLoadedDefault`.
- `Dictionaries.OrderBy`: dictionary keys are `int` with their natural order, rendered in decimal. The .NET comparer and culture-specific `ToString` are not modelled.
- `Dictionaries.OrderBy`: the model does not require distinct keys. Only the strict-ordering and uniqueness results assume distinct keys, as every `IDictionary` guarantees.
- `Approvals.VerifyObject`: the object is given as its `ToString()` text. A null object would throw on `ToString()`; that case is not modelled.
