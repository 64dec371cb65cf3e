/** The `Approvals` facade: every public verification entry point reduces to
    one approver and one failure reporter handed to `Approver.Verify`.

    A call is modelled as a function from the process/thread state before it
    to the verification it starts and the state after it. What a call cannot
    see from its arguments (the live call chain, whether a reporter works on
    this machine, how an enumerable renders) is the `Environment`. */
module Approvals {
  import opened Wrappers
  import opened CallChain
  import opened Collaborators
  import CallerContext
  import Configuration
  import Registry
  import Shaping
  import Dictionaries

  /** What `Approvals` keeps between calls: the thread's cached caller, the
      default registries and the process-wide front-loaded reporter. */
  datatype State = State(caller: Option<Chain>, defaults: Registry.Defaults, frontLoadedDefault: Reporter)

  /** The world as a call sees it. `live` is the chain `new Caller()` would
      capture; `works` answers IsWorkingInThisEnvironment; `writeLines` is
      `enumerable.Write(formatter)` given the formatted items,
      `writeLabelled` is `enumerable.Write(label)` given the items' texts, and
      `writeLabelledLines` is `enumerable.Write(label, formatter)` given the
      formatted items and the label. */
  datatype Environment = Environment(
    live: Chain,
    works: Configuration.Probe,
    writeLines: seq<string> -> string,
    writeLabelled: (seq<string>, string) -> string,
    writeLabelledLines: (seq<string>, string) -> string)

  /** One call of Approver.Verify. */
  datatype Verification = Verification(approver: Approver, reporter: Reporter)

  datatype Step = Step(verification: Verification, after: State)

  /** The dictionary overloads other than VerifyAll(dictionary) hand a null
      dictionary to `Enumerable.OrderBy`, which rejects it with an
      ArgumentNullException. */
  datatype Error = NullDictionary

  /** Reporter resolution over whatever chain the call reads. */
  function Resolve(s: State, env: Environment, chain: Chain, defaultIfNotFound: Reporter): Reporter {
    Configuration.ResolveReporter(chain, s.frontLoadedDefault, env.works, defaultIfNotFound)
  }

  // ---------------------------------------------------------------------
  // Reporters

  /** GetReporter(): recapture the caller, then resolve with the
      introduction reporter as the last resort. */
  function GetReporter(s: State, env: Environment): (r: (Reporter, State))
    ensures r.1 == s.(caller := Some(env.live))
    ensures r.0 == Resolve(s, env, env.live, Configuration.Introduction)
  {
    var s' := s.(caller := CallerContext.SetCaller(env.live));
    GetReporterOrDefault(s', env, Configuration.Introduction)
  }

  /** GetReporter(defaultIfNotFound): resolve against the cached caller,
      capturing the live chain only when nothing is cached yet. */
  function GetReporterOrDefault(s: State, env: Environment, defaultIfNotFound: Reporter): (r: (Reporter, State))
    ensures s.caller.Some? ==> r.1 == s
    ensures s.caller.None? ==> r.1 == s.(caller := Some(env.live))
    ensures r.0 == Resolve(s, env, r.1.caller.value, defaultIfNotFound)
  {
    var (chain, slot) := CallerContext.CurrentCaller(s.caller, env.live);
    (Resolve(s, env, chain, defaultIfNotFound), s.(caller := slot))
  }

  /** GetReporter() does not depend on what was cached before: it always
      answers for the live chain. */
  lemma GetReporterIgnoresCache(s1: State, s2: State, env: Environment)
    requires s1.defaults == s2.defaults && s1.frontLoadedDefault == s2.frontLoadedDefault
    ensures GetReporter(s1, env) == GetReporter(s2, env)
    ensures GetReporter(s1, env).0 == Resolve(s1, env, env.live, Configuration.Introduction)
  {
  }

  /** GetReporter(defaultIfNotFound) answers for the cached chain, not the
      live one: two calls with different live chains agree once a chain is
      cached. */
  lemma GetReporterOrDefaultReadsCache(s: State, env1: Environment, env2: Environment, d: Reporter)
    requires s.caller.Some? && env1.works == env2.works
    ensures GetReporterOrDefault(s, env1, d) == GetReporterOrDefault(s, env2, d)
  {
  }

  /** With no markers anywhere and a front-loaded default that does not work,
      GetReporter() falls back to the introduction reporter. */
  lemma UnmarkedChainGetsIntroduction(s: State, env: Environment)
    requires forall i :: 0 <= i < |env.live| ==> env.live[i].frontLoaded.None? && env.live[i].useReporter.None?
    requires !Configuration.IsWorking(env.works, s.frontLoadedDefault, Configuration.DefaultProbeFile)
    ensures GetReporter(s, env).0 == Configuration.Introduction
  {
  }

  // ---------------------------------------------------------------------
  // Verify(writer, namer, reporter) and the approver entry points

  /** Verify(writer, namer, reporter): the line-ending flag comes from the
      nearest IgnoreLineEndings marker on the cached caller (ignored when
      there is none); the registered approver creator builds the approver. */
  function VerifyWith(s: State, env: Environment, writer: Writer, namer: Namer, reporter: Reporter): (r: Step)
    ensures r.verification.reporter == reporter
    ensures r.after == s.(caller := Some(CallerContext.CurrentCaller(s.caller, env.live).0))
    ensures var chain := r.after.caller.value;
            r.verification.approver == s.defaults.approverCreator(writer, namer, Configuration.ShouldIgnoreLineEndings(chain))
  {
    var (chain, slot) := CallerContext.CurrentCaller(s.caller, env.live);
    var ignore := Configuration.ShouldIgnoreLineEndings(chain);
    var approver := Registry.GetDefaultApprover(s.defaults, writer, namer, ignore);
    VerifyApproverWith(s.(caller := slot), approver, reporter)
  }

  /** With the initial registry and no IgnoreLineEndings marker on the chain
      read, Verify(writer, namer, reporter) runs a FileApprover that ignores
      line endings. */
  lemma DefaultApproverIgnoresLineEndings(s: State, env: Environment, writer: Writer, namer: Namer, reporter: Reporter)
    requires s.defaults == Registry.Initial
    requires var chain := CallerContext.CurrentCaller(s.caller, env.live).0;
             forall i :: 0 <= i < |chain| ==> chain[i].ignoreLineEndings.None?
    ensures VerifyWith(s, env, writer, namer, reporter).verification.approver == FileApprover(writer, namer, true)
  {
  }

  /** Verify(approver, reporter): hand both to Approver.Verify unchanged. */
  function VerifyApproverWith(s: State, approver: Approver, reporter: Reporter): (r: Step)
    ensures r.verification.approver == approver && r.verification.reporter == reporter
    ensures r.after == s
  {
    Step(Verification(approver, reporter), s)
  }

  /** Verify(approver): the approver as given, with the reporter GetReporter()
      resolves for the live chain. */
  function VerifyApprover(s: State, env: Environment, approver: Approver): (r: Step)
    ensures r.verification.approver == approver
    ensures r.verification.reporter == Resolve(s, env, env.live, Configuration.Introduction)
    ensures r.after.caller == Some(env.live)
  {
    var (reporter, s') := GetReporter(s, env);
    VerifyApproverWith(s', approver, reporter)
  }

  /** The meaning of Verify(writer): the caller is recaptured; the reporter
      is the one resolved for the live chain with the introduction reporter
      as the last resort; the registered approver creator gets the writer,
      a freshly created default namer and the live chain's line-ending flag. */
  ghost predicate VerifiesWriter(s: State, env: Environment, writer: Writer, r: Step) {
    && r.after == s.(caller := Some(env.live))
    && r.verification.reporter == Resolve(s, env, env.live, Configuration.Introduction)
    && r.verification.approver ==
       s.defaults.approverCreator(writer, s.defaults.namerCreator(), Configuration.ShouldIgnoreLineEndings(env.live))
  }

  /** VerifiesWriter pins down the whole step. */
  lemma VerifiesWriterIsDeterministic(s: State, env: Environment, writer: Writer, r1: Step, r2: Step)
    requires VerifiesWriter(s, env, writer, r1) && VerifiesWriter(s, env, writer, r2)
    ensures r1 == r2
  {
  }

  /** The writer Verify(string) builds: the text as a .txt file. */
  function TextFile(text: string): Writer {
    TextWriter(text, Some("txt"))
  }

  /** Verify(writer): default namer, then GetReporter(), then
      Verify(writer, namer, reporter) (C# evaluates the arguments left to
      right, so the namer is created before the caller is recaptured). */
  function VerifyWriter(s: State, env: Environment, writer: Writer): (r: Step)
    ensures VerifiesWriter(s, env, writer, r)
  {
    var namer := Registry.GetDefaultNamer(s.defaults);
    var (reporter, s') := GetReporter(s, env);
    VerifyWith(s', env, writer, namer, reporter)
  }

  /** Every writer-based entry point reads the live chain: whatever a
      previous call left in the caller cache has no effect on it. */
  lemma StaleCallerDoesNotAffectWriterPath(s: State, env: Environment, writer: Writer, stale: Chain)
    ensures VerifyWriter(s.(caller := Some(stale)), env, writer) == VerifyWriter(s.(caller := None), env, writer)
  {
  }

  /** By contrast, an explicit Verify(writer, namer, reporter) trusts the
      cache: a stale chain's IgnoreLineEndings marker decides, whatever the
      live chain carries. */
  lemma ExplicitVerifyReadsCachedCaller(s: State, env: Environment, writer: Writer, namer: Namer,
                                        reporter: Reporter, stale: Chain)
    requires s.caller == Some(stale)
    ensures VerifyWith(s, env, writer, namer, reporter) ==
            VerifyWith(s, env.(live := stale), writer, namer, reporter)
    ensures VerifyWith(s, env, writer, namer, reporter).verification.approver ==
            s.defaults.approverCreator(writer, namer, Configuration.ShouldIgnoreLineEndings(stale))
  {
  }

  /** Registering a namer or an approver changes exactly the matching part of
      every later writer-based verification. */
  lemma RegistrationsReachVerification(s: State, env: Environment, writer: Writer,
                                       n: Registry.NamerCreator, a: Registry.ApproverCreator)
    ensures var r := VerifyWriter(s.(defaults := Registry.RegisterDefaultApprover(
                                     Registry.RegisterDefaultNamerCreation(s.defaults, n), a)), env, writer);
            && r.verification.approver == a(writer, n(), Configuration.ShouldIgnoreLineEndings(env.live))
            && r.verification.reporter == VerifyWriter(s, env, writer).verification.reporter
  {
  }

  /** UseAssemblyLocationForApprovedFiles / ...AndTestNamespace... switch
      the namer of every later writer-based verification. */
  lemma AssemblyLocationReachesVerification(s: State, env: Environment, writer: Writer)
    requires s.defaults.approverCreator == Registry.Initial.approverCreator
    ensures VerifyWriter(s.(defaults := Registry.UseAssemblyLocationForApprovedFiles(s.defaults)), env, writer)
              .verification.approver.namer == AssemblyLocationNamer
    ensures VerifyWriter(s.(defaults := Registry.UseAssemblyLocationAndTestNamespaceForApprovedFiles(s.defaults)), env, writer)
              .verification.approver.namer == AssemblyLocationAndTestNamespaceNamer
  {
  }

  /** VerifyFile(path): an existing-file writer over the path. */
  function VerifyFile(s: State, env: Environment, receivedFilePath: string): (r: Step)
    ensures VerifiesWriter(s, env, ExistingFileWriter(receivedFilePath), r)
  {
    VerifyWriter(s, env, ExistingFileWriter(receivedFilePath))
  }

  // ---------------------------------------------------------------------
  // Text

  /** Verify(object): a text writer over the object's text, default extension. */
  function VerifyObject(s: State, env: Environment, text: string): (r: Step)
    ensures VerifiesWriter(s, env, TextWriter(text, None), r)
  {
    VerifyWriter(s, env, TextWriter(text, None))
  }

  /** VerifyWithExtension: scrub the text (a missing scrubber leaves it as is)
      and strip every leading dot from the extension. */
  function VerifyWithExtension(s: State, env: Environment, text: string, fileExtensionWithDot: string,
                               scrubber: Option<string -> string>): (r: Step)
    ensures VerifiesWriter(s, env, TextWriter(Shaping.Scrubbed(scrubber, text),
                                              Some(Shaping.TrimLeadingDots(fileExtensionWithDot))), r)
  {
    var without := Shaping.TrimLeadingDots(fileExtensionWithDot);
    VerifyWriter(s, env, TextWriter(Shaping.Scrubbed(scrubber, text), Some(without)))
  }

  /** Any number of leading dots on the extension gives the same verification. */
  lemma {:induction false} ExtensionDotsIgnored(s: State, env: Environment, text: string, n: nat, ext: string,
                             scrubber: Option<string -> string>)
    ensures VerifyWithExtension(s, env, text, Shaping.Dots(n) + ext, scrubber) ==
            VerifyWithExtension(s, env, text, ext, scrubber)
  {
    Shaping.TrimIgnoresDotCount(n, ext);
  }

  /** A null scrubber is the no-op scrubber. */
  lemma NullScrubberLeavesTextUnchanged(s: State, env: Environment, text: string, ext: string)
    ensures VerifyWithExtension(s, env, text, ext, None) ==
            VerifyWithExtension(s, env, text, ext, Some(Shaping.NoScrubber))
    ensures VerifiesWriter(s, env, TextWriter(text, Some(Shaping.TrimLeadingDots(ext))),
                           VerifyWithExtension(s, env, text, ext, None))
  {
  }

  /** Verify(string, scrubber): VerifyWithExtension with ".txt". */
  function VerifyText(s: State, env: Environment, text: string, scrubber: Option<string -> string>): (r: Step)
    ensures VerifiesWriter(s, env, TextFile(Shaping.Scrubbed(scrubber, text)), r)
    ensures r == VerifyWithExtension(s, env, text, "txt", scrubber)
  {
    Shaping.TrimIgnoresDotCount(1, "txt");
    assert Shaping.TrimLeadingDots("txt") == "txt";
    VerifyWithExtension(s, env, text, ".txt", scrubber)
  }

  /** The text VerifyException verifies: "{type name}: {message}". */
  function ExceptionText(typeName: string, message: string): (t: string)
    ensures |t| == |typeName| + 2 + |message|
    ensures t[..|typeName|] == typeName && t[|typeName|..|typeName| + 2] == ": "
    ensures t[|typeName| + 2..] == message
  {
    typeName + ": " + message
  }

  /** VerifyException(e): the type's full name and the message, as text. */
  function VerifyException(s: State, env: Environment, typeName: string, message: string): (r: Step)
    ensures VerifiesWriter(s, env, TextFile(ExceptionText(typeName, message)), r)
  {
    VerifyText(s, env, ExceptionText(typeName, message), None)
  }

  /** VerifyBinaryFile: a binary writer with the dot-stripped extension. */
  function VerifyBinaryFile(s: State, env: Environment, bytes: seq<Byte>, fileExtensionWithDot: string): (r: Step)
    ensures VerifiesWriter(s, env, BinaryWriter(bytes, Shaping.TrimLeadingDots(fileExtensionWithDot)), r)
  {
    VerifyWriter(s, env, BinaryWriter(bytes, Shaping.TrimLeadingDots(fileExtensionWithDot)))
  }

  lemma {:induction false} BinaryExtensionDotsIgnored(s: State, env: Environment, bytes: seq<Byte>, n: nat, ext: string)
    ensures VerifyBinaryFile(s, env, bytes, Shaping.Dots(n) + ext) == VerifyBinaryFile(s, env, bytes, ext)
  {
    Shaping.TrimIgnoresDotCount(n, ext);
  }

  // ---------------------------------------------------------------------
  // Enumerables

  /** The body with an optional header: `header + "\n\n" + body`. */
  function Headed(header: Option<string>, body: string): (t: string)
    ensures header.None? ==> t == body
    ensures header.Some? ==> |t| == |header.value| + 2 + |body| && t[|header.value| + 2..] == body
    ensures header.Some? ==> t[..|header.value|] == header.value && t[|header.value|..|header.value| + 2] == "\n\n"
  {
    match header
    case None => body
    case Some(h) => Shaping.WithHeader(h, body)
  }

  /** The header is recoverable from the text: the same body under two
      headers gives two texts. */
  lemma HeaderIsRecoverable(h1: string, h2: string, body: string)
    requires Headed(Some(h1), body) == Headed(Some(h2), body)
    ensures h1 == h2
  {
    assert |h1| == |h2|;
  }

  /** One formatted text per item, in order. */
  function FormatEach<T>(items: seq<T>, formatter: T -> string): (lines: seq<string>)
    ensures |lines| == |items|
    ensures forall i :: 0 <= i < |items| ==> lines[i] == formatter(items[i])
  {
    seq(|items|, i requires 0 <= i < |items| => formatter(items[i]))
  }

  /** VerifyAll(enumerable, label) and VerifyAll(header, enumerable, label):
      the labelled rendering, under the header when there is one. */
  function VerifyAllLabelled(s: State, env: Environment, header: Option<string>, items: seq<string>,
                             itemLabel: string): (r: Step)
    ensures VerifiesWriter(s, env, TextFile(Headed(header, env.writeLabelled(items, itemLabel))), r)
  {
    VerifyText(s, env, Headed(header, env.writeLabelled(items, itemLabel)), None)
  }

  /** VerifyAll(enumerable, formatter) and VerifyAll(header, enumerable,
      formatter): one formatted line per item, under the header when there
      is one. */
  function VerifyAllFormatted<T>(s: State, env: Environment, header: Option<string>, items: seq<T>,
                                 formatter: T -> string): (r: Step)
    ensures VerifiesWriter(s, env, TextFile(Headed(header, env.writeLines(FormatEach(items, formatter)))), r)
  {
    VerifyText(s, env, Headed(header, env.writeLines(FormatEach(items, formatter))), None)
  }

  /** VerifyAll(enumerable, label, formatter): the formatted items and the
      label both go to the enumerable writer; there is no header variant. */
  function VerifyAllLabelledFormatted<T>(s: State, env: Environment, items: seq<T>, itemLabel: string,
                                         formatter: T -> string): (r: Step)
    ensures VerifiesWriter(s, env, TextFile(env.writeLabelledLines(FormatEach(items, formatter), itemLabel)), r)
  {
    VerifyText(s, env, env.writeLabelledLines(FormatEach(items, formatter), itemLabel), None)
  }

  // ---------------------------------------------------------------------
  // Dictionaries

  /** A dictionary as OrderBy enumerates it; `None` is a null reference. */
  type Dictionary<V> = seq<Dictionaries.Entry<V>>

  /** The dictionary body: entries in ascending key order, one line each. */
  function DictionaryBody<V>(env: Environment, d: Dictionary<V>, formatter: (int, V) -> string): string {
    env.writeLines(Dictionaries.Render(Dictionaries.OrderBy(d), formatter))
  }

  /** VerifyAll(dictionary): a null dictionary is verified as an empty one;
      entries are rendered as "{key} => {value}". */
  function VerifyAllDictionary(s: State, env: Environment, dictionary: Option<Dictionary<string>>): (r: Step)
    ensures VerifiesWriter(s, env, TextFile(env.writeLines(Dictionaries.DefaultLines(dictionary.GetOr([])))), r)
  {
    var d := dictionary.GetOr([]);
    VerifyText(s, env, DictionaryBody(env, d, Shaping.ArrowFormat), None)
  }

  /** VerifyAll(header, dictionary): as VerifyAll(dictionary) under a header,
      but a null dictionary is an error. */
  function VerifyAllDictionaryWithHeader(s: State, env: Environment, header: string,
                                         dictionary: Option<Dictionary<string>>): (r: Result<Step, Error>)
    ensures r.Failure? <==> dictionary.None?
    ensures dictionary.Some? ==> VerifiesWriter(
              s, env, TextFile(Shaping.WithHeader(header, env.writeLines(Dictionaries.DefaultLines(dictionary.value)))),
              r.value)
  {
    match dictionary
    case None => Failure(NullDictionary)
    case Some(d) => Success(VerifyText(s, env, Headed(Some(header), DictionaryBody(env, d, Shaping.ArrowFormat)), None))
  }

  /** VerifyAll(header, dictionary, formatter) and VerifyAll(dictionary,
      formatter): the formatter gets each key and value in ascending key
      order; a null dictionary is an error. */
  function VerifyAllDictionaryFormatted<V>(s: State, env: Environment, header: Option<string>,
                                           dictionary: Option<Dictionary<V>>,
                                           formatter: (int, V) -> string): (r: Result<Step, Error>)
    ensures r.Failure? <==> dictionary.None?
    ensures dictionary.Some? ==> VerifiesWriter(
              s, env, TextFile(Headed(header, env.writeLines(
                Dictionaries.Render(Dictionaries.OrderBy(dictionary.value), formatter)))), r.value)
  {
    match dictionary
    case None => Failure(NullDictionary)
    case Some(d) => Success(VerifyText(s, env, Headed(header, DictionaryBody(env, d, formatter)), None))
  }

  /** The dictionary overloads with a formatter are the enumerable overloads
      applied to the ordered entries, with `p => formatter(p.Key, p.Value)`. */
  lemma DictionaryFormatterSeesOrderedPairs<V>(s: State, env: Environment, header: Option<string>,
                                               d: Dictionary<V>, formatter: (int, V) -> string)
    ensures VerifyAllDictionaryFormatted(s, env, header, Some(d), formatter) ==
            Success(VerifyAllFormatted(s, env, header, Dictionaries.OrderBy(d),
                                       (p: Dictionaries.Entry<V>) => formatter(p.0, p.1)))
  {
    var es := Dictionaries.OrderBy(d);
    assert Dictionaries.Render(es, formatter) == FormatEach(es, (p: Dictionaries.Entry<V>) => formatter(p.0, p.1));
  }

  /** A null dictionary is verified exactly like an empty one by
      VerifyAll(dictionary), and is an error for every other overload. */
  lemma NullDictionaryIsEmpty<V>(s: State, env: Environment, header: string, formatter: (int, V) -> string)
    ensures VerifyAllDictionary(s, env, None) == VerifyAllDictionary(s, env, Some([]))
    ensures VerifiesWriter(s, env, TextFile(env.writeLines([])), VerifyAllDictionary(s, env, None))
    ensures VerifyAllDictionaryWithHeader(s, env, header, None) == Failure(NullDictionary)
    ensures VerifyAllDictionaryFormatted(s, env, None, None, formatter) == Failure(NullDictionary)
    ensures VerifyAllDictionaryFormatted(s, env, Some(header), None, formatter) == Failure(NullDictionary)
  {
  }

  /** The default rendering is the formatter overload with "{key} => {value}",
      with or without a header. */
  lemma DefaultFormatIsArrow(s: State, env: Environment, header: string, d: Dictionary<string>)
    ensures VerifyAllDictionaryFormatted(s, env, None, Some(d), Shaping.ArrowFormat) ==
            Success(VerifyAllDictionary(s, env, Some(d)))
    ensures VerifyAllDictionaryFormatted(s, env, Some(header), Some(d), Shaping.ArrowFormat) ==
            VerifyAllDictionaryWithHeader(s, env, header, Some(d))
  {
  }

  /** The verified text does not depend on the order in which the dictionary
      enumerates its entries. */
  lemma {:induction false} DictionaryEnumerationOrderIrrelevant<V>(s: State, env: Environment, header: Option<string>,
                                                d1: Dictionary<V>, d2: Dictionary<V>, formatter: (int, V) -> string)
    requires Dictionaries.DistinctKeys(d1) && Dictionaries.DistinctKeys(d2)
    requires multiset(d1) == multiset(d2)
    ensures VerifyAllDictionaryFormatted(s, env, header, Some(d1), formatter) ==
            VerifyAllDictionaryFormatted(s, env, header, Some(d2), formatter)
  {
    Dictionaries.OrderByIgnoresEnumerationOrder(d1, d2);
  }

  /** The default dictionary rendering loses nothing: when the enumerable
      writer is injective, two dictionaries give the same text exactly when
      they hold the same entries. */
  lemma {:induction false} DictionaryTextDeterminesDictionary(env: Environment, d1: Dictionary<string>, d2: Dictionary<string>)
    requires forall a, b :: env.writeLines(a) == env.writeLines(b) ==> a == b
    requires Dictionaries.DistinctKeys(d1) && Dictionaries.DistinctKeys(d2)
    ensures DictionaryBody(env, d1, Shaping.ArrowFormat) == DictionaryBody(env, d2, Shaping.ArrowFormat) <==>
            multiset(d1) == multiset(d2)
  {
    Dictionaries.DefaultLinesDetermineDictionary(d1, d2);
  }
}
