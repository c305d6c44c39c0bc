# docker-security: verified models of its algorithmic cores

This project models seven components of docker-security in Dafny 4.11 and proves what their
documentation and tests promise of them.  `dafny verify dfyconfig.toml` checks everything.

Code that updates state in the original is a class or a method with loops here, proved equal to
a specification function; the theorems are lemmas about those functions.  The modules named
Laws, Meaning, Vocabulary, Layout, Spelling and History tell the same behaviour a second time,
from the outside: from texts, bytes, bindings, events and requests to what comes out, with every
name and number written out and none of the models' own tables.

| component | modules |
|---|---|
| policy language (`internal/policy`): scanner, parser, evaluator, compile-time check, verdict | PolicyAst, PolicyGrammar, PolicyParser, PolicyParserProof, PolicyNesting, PolicyLexer, PolicyText, PolicyLayout, PolicyEval, PolicyMeaning, PolicyVocabulary, PolicyTypes, PolicyVerdict, PolicyDocument, PolicyLaws |
| YAML subset (`internal/k8syaml`): in-place indentation parser, block printer, one-pass scan of what is accepted | YamlText, Yaml, YamlSpelling, YamlPrint, YamlScan, YamlStream |
| kernel ring buffer (`internal/runtime/attach_linux.go`): byte memory, producer/consumer protocol, reader | RingMemory, RingProtocol, RingReader, RingSizes, RingLaws |
| RBAC escalation graph (`internal/rbac`) | RbacGraph, RbacSearch, RbacEscalation, RbacWildcards, RbacReport, RbacLaws |
| image flattening (`internal/oci`) | OciPaths, OciFlatten, OciLaws |
| sensor (`internal/runtime`): daemon loop, /proc source, baseline | Daemon, DaemonLaws, ProcSource, ProcLaws, Baseline, BaselineLaws |
| in-memory registry and its client (`internal/registry`) | RegistryStore, RegistryHistory, RegistryClient, UrlQuery |
| shared | Options, Text, Lists, SortedText |

## What was found not to hold

* **Filtered referrer queries miss most real artifact types.**  The client pastes the artifact
  type unescaped into the URL, the server decodes the query, and a `+` arrives as a space.  A
  query for `application/vnd.docker-security.bundle.v1+json`, the type the signature verifier
  asks for, never finds a bundle (`RegistryClient.BundlesAreNeverFound`).
  `RegistryClient.FoundIff` gives the exact condition for every type; escaped, every type would
  arrive as meant (`UrlQuery.EscapedIsReceived`).
* **A pull by tag can give another media type than was pushed under the tag.**  Manifests are
  filed under their digest, media type included, so a later push of the same bytes under another
  reference changes it (`RegistryHistory.SecondTagChangesType`).  The bytes are always those last
  pushed under the tag; the media type is exactly when no later push of them had another one
  (`RegistryHistory.PullGivesLastPush`).
* **An oversized referrer manifest is lost silently.**  The server reads at most 32 MiB of a
  manifest and files it under the digest of what it read; the client reports the digest of what
  it sent.  For every codec the reported digest is stored exactly when the manifest fits
  (`RegistryClient.ReportedDigestIsStoredIff`); an annotation longer than the limit is enough to
  lose it while PutReferrer reports success (`RegistryClient.LongAnnotationIsLost`).
* **The YAML reader accepts documents its package comment says yield an error.**  Anchors,
  aliases, tags, flow mappings and bare block scalar marks are taken as plain text
  (`YamlScan.IndicatorIsText`, `YamlScan.IndicatorDocument`); a block scalar with a body is
  refused, for the body's indentation (`YamlScan.DeeperThanScalarIsRefused`).  Lines behind a
  top-level list are dropped (`YamlScan.TrailingLinesAreDropped`), a list indented as a whole
  reads as an empty list (`YamlScan.IndentedListVanishes`, exact condition in
  `YamlScan.NothingIsReadIff`), and an empty item takes the items behind it as its value
  (`YamlScan.EmptyFirstItem`, exact condition in `YamlScan.BareDashIsNullIff`).  What is read of a
  document is decided by one pass over the indentations with a stack of open blocks
  (`YamlScan.ScanIsTheReader`): nothing is dropped exactly when every line continues an open block
  (`YamlScan.ReadWholeIff`).  `YamlScan.AcceptedIff` gives the exact condition of acceptance; a
  float without a JSON encoding, such as `nan`, is refused (`YamlScan.FloatDocument`).
* **Forward and reverse RBAC queries differ on one synthetic group.**  For the apiGroup
  `nonResourceURL`, SubjectPermissions surfaces URL grants that WhoCan does not look at;
  `RbacGraph.ReviewsAgree` states the agreement with exactly that exception, and
  `RbacGraph.UrlGrantIsNotListed` shows it on a rule that may get `/healthz`.
* **A baseline that was not written by the learner can be misjudged.**  The anomaly rule looks
  facts up by binary search, and a baseline file reaches it unchecked.  Events are judged as a
  profile's lists say exactly when the search finds every name in them
  (`Baseline.JudgedByListsIff`), which for lists without repetitions and empty names is exactly
  when all three are ordered (`Baseline.JudgedByListsIffOrdered`, `SortedText.FindsMembersIff`);
  with repetitions a list out of order can still do (`SortedText.UnorderedCanFind`, exact
  condition for any list in `SortedText.FoundIffSteered`).  Against a profile that lists `write`
  before `read`, reading is reported as never seen (`Baseline.ListedAndReported`).
* **The escalation rule book overlooks wildcards.**  Its index is called wildcard-aware and
  compares names.  A subject that may perform a primitive, wildcards honoured, has its edge
  exactly when each ability comes from a permission not spelled with an unseen wildcard
  (`RbacWildcards.EdgeIffMayAndSeen`); a service account that may do everything under a role of
  its own name has no edge at all (`RbacWildcards.SuperuserHasNoEdge`).
* **A rule about URLs can count as stealing identities.**  Escalation edges are meant for
  primitives that suffice by themselves; the theft test compares spellings, and a rule that may get
  every URL and no resource passes it.  Only rules with such a URL pass it without reading secrets
  or minting tokens (`RbacLaws.UrlGrantSteals`).
* **A flattened image need not be a file tree.**  A file put over a lower layer's directory
  leaves what stands in the directory (`OciFlatten.FileOverDirectory`); the result is a tree
  exactly when, of any two entries that nest, a higher layer replaces or hides one
  (`OciFlatten.TreeIff`).
* **A configured ring size is read with the default mask.**  On a larger ring the reader is right
  exactly within the first default size of each turn (`RingSizes.ReadsRightIff`), so at every
  position only on a ring of the default size (`RingSizes.OnlyTheDefaultSize`).

## Model

| member | source | states |
|---|---|---|
| PolicyGrammar.MinimalIsLeast | internal/policy/parser.go:10-28 | the spelling with only the needed parentheses has no more tokens and no deeper nesting than any other spelling of the tree |
| PolicyGrammar.MinimalIsFaithful | internal/policy/parser.go:10-28 | that spelling is grammatical and means the tree |
| PolicyGrammar.NodesWithinTokens | internal/policy/parser.go:73-252 | a parse tree never has more nodes than tokens |
| PolicyParser.Parser.Next | internal/policy/parser.go:55-61 | hands out the current token and never moves past the end marker |
| PolicyParser.Parser.ParseOr | internal/policy/parser.go:73-91 | the loop computes the specification function, consumes exactly its tokens and restores the depth except when it refuses a level |
| PolicyParser.Parser.ParseAnd | internal/policy/parser.go:93-107 | as ParseOr, one level down |
| PolicyParser.Parser.ParseComparison | internal/policy/parser.go:109-124 | at most one comparison, then its operands; depth and position as specified |
| PolicyParser.Parser.ParseAdditive | internal/policy/parser.go:126-142 | left-associated sums; depth and position as specified |
| PolicyParser.Parser.ParseUnary | internal/policy/parser.go:144-158 | prefix operators under the depth ceiling; depth and position as specified |
| PolicyParser.Parser.ParsePrimary | internal/policy/parser.go:160-199 | literals, parentheses, lists, calls and identifiers; depth and position as specified |
| PolicyParser.Parser.ParseItems | internal/policy/parser.go:201-252 | the comma-separated items of a list or call up to its closing token |
| PolicyParser.ParseTokens | internal/policy/parser.go:37-51 | one expression and nothing behind it, or the error the specification names |
| PolicyParserProof.ParserIsTheGrammar | internal/policy/parser.go:10-252 | the parser returns n if and only if some grammatical tree within the depth budget spells the whole stream and means n |
| PolicyParserProof.Unambiguous | internal/policy/parser.go:10-252 | two grammatical spellings with the same tokens mean the same tree |
| PolicyParserProof.NoMoreNodesThanTokens | internal/policy/parser.go:28-71 | a parsed tree has at most as many nodes as tokens were read |
| PolicyNesting.WalkIsTheParser | internal/policy/parser.go:28-252 | one pass over the tokens with a stack of open groups, building no tree, says for every stream whether it is accepted, refused for its depth, or refused at which token |
| PolicyNesting.TooDeepIff | internal/policy/parser.go:63-71 | a stream is refused for its depth exactly when that pass runs over the ceiling |
| PolicyNesting.ShallowIsNeverTooDeep | internal/policy/parser.go:63-71 | where brackets and signs never nest to within two of the ceiling, depth is never the reason to refuse |
| PolicyNesting.ParensTooDeepIff | internal/policy/parser.go:63-71 | a name in n parentheses is refused for its depth exactly from n = 64 on |
| PolicyLexer.LexString | internal/policy/lexer.go:163-197 | the scanning loop finds exactly the unescaped literal and its end, or none |
| PolicyLexer.LexNumber | internal/policy/lexer.go:199-223 | the longest run of digits with at most one dot, converted or refused |
| PolicyLexer.LexIdent | internal/policy/lexer.go:225-242 | the longest identifier, with true and false as literals |
| PolicyLexer.Lex | internal/policy/lexer.go:62-129 | the whole scan equals its specification, with the token ceiling |
| PolicyLexer.StringRoundTrip | internal/policy/lexer.go:163-197 | a string literal escaped for either quote scans back to the string, for every string |
| PolicyLexer.LexDeliversWords | internal/policy/lexer.go:62-242 | every delivered token is a word of the language and the end marker comes last and once |
| PolicyLexer.LexOfRendered | internal/policy/lexer.go:62-242 | rendering any such tokens and scanning the text gives the tokens back, when they fit the ceiling |
| PolicyLexer.LexOfTooMany | internal/policy/lexer.go:56-129 | more tokens than the ceiling are always refused |
| PolicyText.RoundTrip | internal/policy/parser.go:37-51 | printing a tree and parsing the text gives the tree back exactly when it fits the token and depth budgets |
| PolicyText.AcceptedIsPrintable | internal/policy/parser.go:37-51 | whatever a text means can be printed within the budgets and parses back to itself |
| PolicyText.AcceptedTrees | internal/policy/parser.go:37-51 | the trees that some text means are exactly the printable ones within the budgets |
| PolicyText.AcceptedTreesAreBounded | internal/policy/parser.go:28-61 | an accepted tree has at most as many nodes as the token ceiling |
| PolicyLayout.LayoutLaw | internal/policy/lexer.go:62-71 | blanks, tabs and line ends of any number between the lexemes of an expression, and before the first, leave what it parses to alone |
| PolicyMeaning.RenderedIsRead | internal/policy/parser.go:10-252 | a rendered grammatical tree that parses is read as its own meaning, and within the token and depth budgets it parses |
| PolicyEval.EqualIsEquality | internal/policy/value.go:74-97 | element-wise comparison of dynamic values decides equality, across kinds and nested lists |
| PolicyEval.CountSeverity | internal/policy/builtins.go:267-278 | counts exactly the findings at, or at and above, a known severity |
| PolicyEval.MaxSeverity | internal/policy/builtins.go:281-289 | names a severity that is present and that none exceeds |
| PolicyEval.EvalEnv.CompileRegexp | internal/policy/builtins.go:36-46 | answers as a fresh compilation would and adds at most the good pattern to the cache |
| PolicyEval.EvalEnv.Eval | internal/policy/ast.go:23-208 | with any faithful cache the result is the cache-free meaning, and the cache grows by exactly the good patterns reached, those short-circuiting skips not among them |
| PolicyEval.EvalEnv.EvalLogical | internal/policy/ast.go:165-189 | && and or evaluate the right side, and compile its patterns, only when the left does not decide |
| PolicyEval.EvalEnv.EvalStrict | internal/policy/ast.go:140-163 | comparison, ordering and arithmetic of two values as specified, including the typed errors |
| PolicyEval.EvalEnv.CallBuiltin | internal/policy/builtins.go:120-252 | each builtin's loops compute what the vocabulary says of the input |
| PolicyMeaning.OrderLaws | internal/policy/ast.go:140-208 | from text to value: between operands in parentheses whose values are numbers, <, <=, > and >= give the comparison of the numbers |
| PolicyMeaning.PlainNumberLaws | internal/policy/parser.go:109-124 | the same, with == and !=, for numbers printed without parentheses, sums and differences among them |
| PolicyMeaning.ArithmeticLaws | internal/policy/ast.go:140-163 | + and - give the sum and the difference |
| PolicyMeaning.TextLaws | internal/policy/value.go:103-117 | on texts the order signs compare the first place where the texts differ, a proper beginning being smaller |
| PolicyMeaning.EqualityLaws | internal/policy/value.go:74-97 | == and != compare any two values |
| PolicyMeaning.AndLaw | internal/policy/ast.go:165-189 | && gives the conjunction, whatever the right side where the left is false |
| PolicyMeaning.OrLaw | internal/policy/ast.go:165-189 | or-signs give the disjunction, whatever the right side where the left is true |
| PolicyMeaning.NotLaw | internal/policy/ast.go:100-119 | a prefixed ! negates |
| PolicyMeaning.NegationLaw | internal/policy/ast.go:100-119 | a prefixed - gives the negative number |
| PolicyMeaning.AndBeforeOr | internal/policy/parser.go:73-107 | without parentheses && binds tighter than the or-signs, on either side |
| PolicyMeaning.OrderBeforeAnd | internal/policy/parser.go:93-124 | a comparison binds tighter than && |
| PolicyMeaning.SumBeforeOrder | internal/policy/parser.go:109-142 | a sum binds tighter than a comparison, on either side |
| PolicyMeaning.LeftToRight | internal/policy/parser.go:126-142 | differences are taken from the left |
| PolicyMeaning.PrefixFirst | internal/policy/parser.go:144-158 | a prefixed operator binds tighter than && |
| PolicyMeaning.LiteralLaws | internal/policy/lexer.go:225-242 | the words true and false are the two truth values |
| PolicyMeaning.NumberLaw | internal/policy/lexer.go:199-223 | a numeral is the number the library converts it to |
| PolicyMeaning.QuotedLaw | internal/policy/lexer.go:163-197 | a quoted text without special characters is that text |
| PolicyMeaning.EscapesStandFor | internal/policy/lexer.go:163-197 | the five escapes stand for a line end, a tab, a backslash and the two quotes |
| PolicyVocabulary.NameLaw | internal/policy/ast.go:47-61 | a name is read as itself |
| PolicyVocabulary.CallLaw | internal/policy/parser.go:201-252 | a name before parentheses calls it with the comma-separated expressions between them, in order |
| PolicyVocabulary.ListLaw | internal/policy/parser.go:201-252 | the comma-separated expressions between brackets are a list, in order |
| PolicyVocabulary.ListIs | internal/policy/ast.go:29-39 | a list has the values of its elements |
| PolicyVocabulary.ImageNames | internal/policy/builtins.go:61-86 | each name about the image is the field it is named for |
| PolicyVocabulary.WorkloadNames | internal/policy/builtins.go:86-117 | so is each name about the workload |
| PolicyVocabulary.PodNames | internal/policy/builtins.go:86-117 | and each about its pod settings |
| PolicyVocabulary.FindingNames | internal/policy/builtins.go:83-90 | finding_count is their number, max_severity the name of a highest severity among them |
| PolicyVocabulary.LookupCalls | internal/policy/builtins.go:120-252 | has_rule, verified and has_package ask whether some finding, predicate or package is the text |
| PolicyVocabulary.FoldingCalls | internal/policy/builtins.go:120-252 | has_license and has_capability compare under case folding, lower converts |
| PolicyVocabulary.PatternCalls | internal/policy/builtins.go:120-252 | resource_matches and matches test the compiled pattern, and fail without one |
| PolicyVocabulary.EndCalls | internal/policy/builtins.go:120-252 | startswith and endswith hold exactly when the text is the other with something behind or before it |
| PolicyVocabulary.MembershipCall | internal/policy/builtins.go:120-252 | in holds exactly for the members of the list |
| PolicyVocabulary.ModuleCount | internal/policy/builtins.go:120-252 | module_count is the number of findings of the module |
| PolicyVocabulary.SeverityCounts | internal/policy/builtins.go:267-278 | severity_count and severity_atleast are the numbers of findings at, and at or above, the severity named, blanks around the name aside; of no severity none are counted |
| PolicyTypes.CheckReachesEveryNode | internal/policy/engine.go:77-100 | a tree passes the compile-time check exactly when every node in it does |
| PolicyVocabulary.NamePasses | internal/policy/engine.go:77-100 | a bare name passes the check exactly when it is one of the eighteen variables, and exactly then it has a value |
| PolicyVocabulary.CallPasses | internal/policy/engine.go:77-123 | a call passes exactly when it names a function with that many arguments, its literal pattern compiles and its arguments pass |
| PolicyTypes.CheckedNeverFailsOnNames | internal/policy/engine.go:77-123 | on no input does a checked tree meet an unknown name or a missing argument, nor a bad pattern unless some node computes its pattern |
| PolicyTypes.TypeSoundness | internal/policy/ast.go:23-208 | a checked, well-typed tree evaluates on every input to a value of its type |
| PolicyTypes.BooleanRuleNeverErrs | internal/policy/engine.go:151-170 | a checked rule of boolean type never records an error |
| PolicyDocument.NoDefectIff | internal/policy/policy.go:123-161 | validation passes exactly the documents with version 1, a name, a known mode, at least one rule, distinct non-empty ids, non-blank matches, known effects and valid waivers |
| PolicyDocument.Validate | internal/policy/policy.go:123-161 | the two loops name the first defect in document order, or none |
| PolicyDocument.CompileDocument | internal/policy/engine.go:36-61 | an engine, with each rule's own tree, exactly for a valid document all rules of which compile; otherwise the first defect or all broken rules in order |
| PolicyVerdict.Compile | internal/policy/engine.go:40-60 | the rule loop: ready exactly when every rule parses and passes the check, with each rule's own tree; otherwise names all failing rules in order |
| PolicyVerdict.RunRules | internal/policy/engine.go:131-175 | the loop over one shared cache records for each rule its outcome on its own |
| PolicyVerdict.ApplyWaivers | internal/policy/waiver.go:117-136 | marks, in place, exactly the matched deny and warn outcomes some active waiver in scope covers |
| PolicyVerdict.Decide | internal/policy/engine.go:185-232 | the flag loop computes the declarative verdict |
| PolicyVerdict.Evaluate | internal/policy/engine.go:131-180 | the whole evaluation equals evaluating every rule afresh, waiving and deciding |
| PolicyVerdict.RuleOrderIsIrrelevant | internal/policy/engine.go:131-232 | permuting the rules permutes the outcomes and leaves the verdict alone |
| PolicyVerdict.AddingWaiversNeverStrengthens | internal/policy/waiver.go:83-136 | a superset of waivers never gives a stronger verdict |
| PolicyVerdict.TimeNeverWeakens | internal/policy/waiver.go:83-89 | a later non-zero time never gives a weaker verdict |
| PolicyVerdict.NoClockNoWaivers | internal/policy/waiver.go:79-86 | without a clock the result is the one without waivers |
| PolicyVerdict.AuditIsEnforceWithoutDeny | internal/policy/engine.go:185-232 | audit mode gives the same outcomes and the enforced verdict with deny turned into warn; immediate from the declared verdict, which Decide proves the loop computes |
| PolicyVerdict.TypedPoliciesNeverFailClosed | internal/policy/engine.go:172-232 | a policy of compiled boolean rules denies exactly when an unwaived deny rule matched and no allow rule did |
| PolicyLaws.OutcomesTell | internal/policy/engine.go:131-180 | each outcome says whether its rule failed, held, and was waived, told from expression, waivers and clock |
| PolicyLaws.DeniesIff | internal/policy/engine.go:185-232 | an enforced policy denies exactly when a rule cannot be evaluated to a boolean, or an unwaived deny rule holds and no allow rule does |
| PolicyLaws.AllowsIff | internal/policy/engine.go:185-232 | it allows exactly when every rule can be evaluated, no unwaived warn rule holds, and no unwaived deny rule does unless an allow rule holds; an audited policy never denies |
| PolicyLaws.FailsClosed | internal/policy/engine.go:125-130 | a policy whose only rule is a number is denied |
| PolicyLaws.ReportsTell | internal/policy/decision.go:46-128 | which rule appears among denials, warnings, waived and firing rules, told the same way |
| PolicyLaws.DocumentDeniesIff | internal/policy/engine.go:36-232 | from the document's own texts: it denies exactly when it does not say audit, and some match text cannot be evaluated, or a deny rule's holds unwaived and no allow rule's does |
| PolicyLaws.DocumentAllowsIff | internal/policy/engine.go:36-232 | from the document's own texts, when it allows |
| PolicyVerdict.FiringSplits | internal/policy/decision.go:46-128 | what fired is reported exactly once, as denial, warning, waived rule or matched allow; denials exist exactly when the verdict is deny |
| PolicyVerdict.Firing | internal/policy/decision.go:69-81 | keeps exactly the firing outcomes, in order |
| PolicyVerdict.Denials | internal/policy/decision.go:87-98 | keeps exactly the blocking outcomes of a denied result, in order |
| PolicyVerdict.Warnings | internal/policy/decision.go:103-117 | keeps exactly the outcomes that warn under this verdict, in order |
| YamlText.SplitKey | internal/k8syaml/k8syaml.go:241-267 | the scan finds exactly the first unquoted colon that ends a key |
| YamlText.StripInlineComment | internal/k8syaml/k8syaml.go:85-103 | the flag-carrying scan cuts at exactly the first unquoted comment mark |
| YamlText.StripComments | internal/k8syaml/k8syaml.go:74-83 | drops noise lines and cuts comments, line by line |
| Yaml.Parser.ParseBlock | internal/k8syaml/k8syaml.go:122-131 | equals the block grammar; pos never goes back, and only dash lines that were read are rewritten |
| Yaml.Parser.ParseMapping | internal/k8syaml/k8syaml.go:133-163 | equals the mapping grammar on every line list, with the same frame, and terminates |
| Yaml.Parser.ParseSequence | internal/k8syaml/k8syaml.go:165-216 | equals the sequence grammar, with the same frame, and terminates |
| Yaml.Parser.ParseItem | internal/k8syaml/k8syaml.go:172-209 | a dash line that opens a mapping is overwritten in place and read as the mapping's first line |
| Yaml.Parser.ParseChild | internal/k8syaml/k8syaml.go:218-238 | equals the grammar of nested values |
| Yaml.ToValue | internal/k8syaml/k8syaml.go:62-72 | the whole reader up to the text of the encoding: strips comments, reads one block from column 0, looks at nothing behind it, and refuses a value with a non-finite float |
| YamlSpelling.WordsIff | internal/k8syaml/k8syaml.go:279-285 | the reserved words are null, true, yes, on, false, no and off in any letter case |
| YamlSpelling.AtomRoundTrip | internal/k8syaml/k8syaml.go:270-299 | every spelling of a scalar reads as what it stands for: null as null in any case or ~, booleans by all six words in any case, integers with sign and leading zeros, floats, texts in double or single quotes, and plain texts that are no reserved word, integer, float or bracket list |
| YamlSpelling.AtomPasses | internal/k8syaml/k8syaml.go:85-103 | in no spelling does a scalar hide a comment or a key, wherever it stands |
| YamlSpelling.FlowRoundTrip | internal/k8syaml/k8syaml.go:302-312 | a bracketed list of scalars in any spelling without commas reads as the list of their values |
| YamlSpelling.KeyRoundTrip | internal/k8syaml/k8syaml.go:241-267 | a key, plain or in either quotes, is split off its line whatever follows |
| YamlPrint.ScalarRoundTrip | internal/k8syaml/k8syaml.go:270-320 | every scalar or bracketed list of a document, in the spelling it is written in, reads back as its value |
| YamlPrint.DocumentRoundTrip | internal/k8syaml/k8syaml.go:62-238 | every valid document, each scalar and key in its own spelling, empty values left out, at any indentation step, reads back as its value with no line left |
| YamlPrint.CommentedRoundTrip | internal/k8syaml/k8syaml.go:74-103 | with blank lines and comments strewn in, on lines of their own or behind others, it reads the same |
| YamlStream.SplitDocuments | internal/k8syaml/k8syaml.go:25-60 | the loop splits exactly at separator lines and drops documents without content |
| YamlStream.SplitsAtMark | internal/k8syaml/k8syaml.go:25-49 | wherever a line of three dashes or three dots stands, the documents are those before it and then those behind it |
| YamlStream.RemarksAreDropped | internal/k8syaml/k8syaml.go:51-60 | blank lines and comments alone are no document |
| YamlStream.StreamRoundTrip | internal/k8syaml/k8syaml.go:25-72 | any list of documents printed into one text is split and read back document by document |
| YamlPrint.MappingReadsItsBlock | internal/k8syaml/k8syaml.go:133-163 | a mapping that is read stops only at a shallower line |
| YamlPrint.SequenceReadsItsItems | internal/k8syaml/k8syaml.go:165-216 | a sequence that is read stops only at another column or a line that is no item |
| YamlScan.ScanIsTheReader | internal/k8syaml/k8syaml.go:122-238 | for every document the one-pass scan of indentations, dashes and keys refuses what the reader refuses and otherwise stops at the lines the reader leaves unread |
| YamlScan.ReadWholeIff | internal/k8syaml/k8syaml.go:62-72 | an accepted document is read to its end exactly when every line continues an open block |
| YamlScan.AcceptedIff | internal/k8syaml/k8syaml.go:62-72 | a document is accepted exactly when the scan of its stripped lines does not refuse it and no scalar of the value read, inside [...] too, is a float without an encoding |
| YamlScan.FloatDocument | internal/k8syaml/k8syaml.go:62-72 | a document that gives a key a float is accepted exactly when the float is finite |
| YamlScan.NanIsRefused | internal/k8syaml/k8syaml.go:62-72 | so nan is refused |
| YamlScan.PrintedIsAccepted | internal/k8syaml/k8syaml.go:62-72 | every printed document the floats of which are finite, comments strewn in, is accepted as its value, encoding included |
| YamlScan.TrailingLinesAreDropped | internal/k8syaml/k8syaml.go:62-72 | whatever stands behind a printed list, at any step, is dropped without an error from the first content line at column 0 that is no item |
| YamlScan.NothingIsReadIff | internal/k8syaml/k8syaml.go:122-131 | a document reads as an empty list with all of its lines left exactly when it starts like a list and not with an item at column 0 |
| YamlScan.IndentedListVanishes | internal/k8syaml/k8syaml.go:122-216 | a printed list indented as a whole reads as the empty list, a mapping indented as a whole is refused |
| YamlScan.BareDashIsNullIff | internal/k8syaml/k8syaml.go:165-238 | a bare dash reads as null exactly when the next line is absent, shallower, or at its column and no item |
| YamlScan.EmptyItemSwallowsSiblings | internal/k8syaml/k8syaml.go:165-238 | otherwise, at its own column, it takes the items behind it as its value |
| YamlScan.EmptyFirstItem | internal/k8syaml/k8syaml.go:165-238 | a printed list behind a bare dash reads as a list of one list |
| YamlScan.IndicatorIsText | internal/k8syaml/k8syaml.go:270-299 | a scalar that opens like an anchor, alias, tag, block scalar or flow mapping reads as plain text |
| YamlScan.IndicatorDocument | internal/k8syaml/k8syaml.go:133-163 | a document that gives one to a key is accepted with that text as the value |
| YamlScan.DeeperThanScalarIsRefused | internal/k8syaml/k8syaml.go:133-163 | a line deeper than a key with a scalar, such as the body of a block scalar, is refused |
| RingProtocol.ReadMemoryIsRead | internal/runtime/attach_linux.go:131-169 | reading the bytes of the ring, across wrap-around, is reading the queue of reservations: nothing torn, skipped or made up |
| RingProtocol.StepKeepsInv | internal/runtime/attach_linux.go:113-169 | every producer or reader step keeps positions 8-aligned, the consumer behind the producer by less than a ring, and memory in agreement with the reservations |
| RingProtocol.RunKeepsInv | internal/runtime/attach_linux.go:113-169 | so does every interleaving |
| RingProtocol.RunDelivers | internal/runtime/attach_linux.go:131-169 | over every interleaving the reads return exactly the committed records passed, in order, each once |
| RingProtocol.RunExtends | internal/runtime/attach_linux.go:131-169 | no reservation is forgotten, reordered or changed once closed |
| RingProtocol.FreshRunDelivers | internal/runtime/attach_linux.go:131-169 | from an empty ring the polls return exactly the committed records among those passed |
| RingProtocol.PollsDrain | internal/runtime/attach_linux.go:131-169 | with nothing open, as many polls as records pass them all |
| RingReader.RingState.constructor | internal/runtime/attach_linux.go:172-192 | the mapped layout starts as an empty ring |
| RingReader.RingState.HeaderWord | internal/runtime/attach_linux.go:143-153 | the word read in the mapping is the header at that position of the ring |
| RingReader.RingState.CopyPayload | internal/runtime/attach_linux.go:159-168 | a payload that wraps is copied contiguously out of the doubled mapping; the rest of the buffer is untouched |
| RingReader.RingState.ReadRingRecord | internal/runtime/attach_linux.go:131-169 | does exactly the protocol's read, and neither bounds guard ever fires |
| RingSizes.ReadsRightIff | internal/runtime/attach_linux.go:143-189 | on a ring of a multiple of the default size the masked reader sees what was written behind a position exactly within the first default size of each turn |
| RingSizes.OnlyTheDefaultSize | internal/runtime/live_linux.go:70-74 | so behind every position only on a ring of the default size |
| RingLaws.PollLaw | internal/runtime/attach_linux.go:131-169 | from the bytes, with sizes and header bits as plain numbers: nothing on an empty ring or a busy record, otherwise the consumer moves behind the record to the next multiple of eight and, unless the discard bit is set, exactly its bytes come back, cut to the buffer |
| RingLaws.ReserveLaw | internal/runtime/attach_linux.go:113-169 | the kernel's side of it: a record below a gigabyte that leaves part of the ring free starts busy where the last one ends, any other is refused |
| RingLaws.CloseLaw | internal/runtime/attach_linux.go:113-169 | only an open record can be committed, with as many bytes as it holds, or discarded; positions stay |
| RingLaws.RecordLaw | internal/runtime/attach_linux.go:113-169 | what every record not yet read has in its bytes: length, busy and discard bit, payload |
| RbacGraph.BuildGraph | internal/rbac/graph.go:70-99 | the grants of all resolvable bindings, stably sorted by subject and role, and the dangling bindings in order; a grant is listed exactly when some binding grants it |
| RbacGraph.ExpandRule | internal/rbac/graph.go:158-183 | exactly the atoms of the rule, in the order of the loops, URL grants under a synthetic group |
| RbacGraph.SubjectPermissions | internal/rbac/graph.go:134-153 | exactly the atoms the subject holds, each once, ordered by rendering |
| RbacGraph.WhoCan | internal/rbac/graph.go:191-217 | for every key some grant of which answers the query, the subject of the last such grant, ordered by key |
| RbacGraph.ReviewsAgree | internal/rbac/graph.go:134-226 | for every query, holding a permitting atom is being listed, or the query names the synthetic group and a URL grant matches |
| RbacGraph.UrlGrantIsNotListed | internal/rbac/graph.go:158-226 | a subject that may get a URL holds a permitting atom under the synthetic group and is not listed for it |
| RbacSearch.BfsToTarget | internal/rbac/escalation.go:155-178 | finds a target exactly when one is reachable; the hops are a real walk to it and no walk to either target is shorter |
| RbacSearch.ScoreIdentity | internal/rbac/nhi.go:88-114 | counts the reachable principals other than the identity, plus one if any target is reached; cluster-admin takes precedence |
| RbacSearch.SearchesAgree | internal/rbac/escalation.go:155-178 | the path search finds a target exactly when the blast radius touches one |
| RbacEscalation.IndexPerms | internal/rbac/escalation.go:219-231 | the index holds exactly the joined keys and verbs of the permissions |
| RbacEscalation.IndexIsExact | internal/rbac/escalation.go:219-247 | for names without a bar the joined-key index answers what the permissions say |
| RbacEscalation.IdentityTheftScope | internal/rbac/escalation.go:251-273 | cluster-wide exactly when an unscoped permission steals, and exactly the namespaces scoped ones reach |
| RbacEscalation.TargetEdges | internal/rbac/escalation.go:51-77 | exactly the terminal edges of the rule book for the permissions held |
| RbacEscalation.TheftEdges | internal/rbac/escalation.go:78-95 | exactly the edges to other service accounts whose identity can be stolen |
| RbacEscalation.BuildEscalationEdges | internal/rbac/escalation.go:43-106 | the edge map is exactly the rule book over all principals, each list strictly ordered by end and narration |
| RbacEscalation.TargetsAreSinks | internal/rbac/escalation.go:24-40 | no subject key collides with a target, so targets have no outgoing edge |
| RbacWildcards.EdgeIffMayAndSeen | internal/rbac/escalation.go:55-77 | a subject has the edge of a primitive exactly when it has every ability of it, wildcards honoured, each by a permission not spelled with an unseen wildcard |
| RbacWildcards.SuperuserHasNoEdge | internal/rbac/escalation.go:213-239 | a service account with * on everything, under a role of another name, has every ability and no edge |
| RbacEscalation.AddingBindingsOnlyAdds | internal/rbac/graph.go:70-99 | with more bindings every permission, edge, reachable principal and escalating walk is kept, so shortest paths never grow |
| RbacReport.Starts | internal/rbac/escalation.go:114-128 | one start for every pod and one for every bound service account that backs none, counted with multiplicity, ordered by origin |
| RbacReport.CheckEscalationPaths | internal/rbac/escalation.go:110-150 | from cluster to report: a nearest escalation for every start that has any and for no other, one of every identity, ordered by origin |
| RbacReport.IdentityIsExact | internal/rbac/checks.go:452-464 | where no origin contains a bar, deduplication merges only findings of the same start and target |
| RbacReport.ReportKeepsEveryStart | internal/rbac/escalation.go:110-150 | with more bindings every reported start is still reported, with a path no longer than before |
| RbacLaws.HoldsIff | internal/rbac/graph.go:70-183 | from the cluster: a subject holds exactly the verb, group and resource combinations of the rules that bindings give it, cluster-wide or in the binding's namespace, a missing list naming the empty text |
| RbacLaws.WhoCanIff | internal/rbac/graph.go:101-226 | from the cluster: a key is listed exactly when a binding gives it a rule that lets it, wildcards honoured, in the namespace asked for |
| RbacLaws.NamespaceOfKey | internal/rbac/escalation.go:275-284 | the namespace read off the key of a service account without slashes is the account's |
| RbacLaws.KeyIsItsAccount | internal/rbac/model.go:48-53 | no other service account has its key |
| RbacLaws.TheftLaw | internal/rbac/escalation.go:78-95 | from the cluster: the edge to a service account exists exactly when the account is bound and another subject is given, cluster-wide or in the account's namespace, a rule that gets, lists or watches secrets or mints tokens |
| RbacLaws.TheftEndsAtAccounts | internal/rbac/escalation.go:78-95 | every such edge leads to a bound service account |
| RbacLaws.UrlGrantSteals | internal/rbac/escalation.go:251-273 | a rule over every URL and no resource counts as stealing, and only rules with such a URL do without naming secrets or tokens |
| RbacLaws.AdminLaw | internal/rbac/escalation.go:286-299 | from the cluster: the edge of a subject bound to the cluster role cluster-admin or in the group system:masters, and of no other |
| RbacLaws.GrantingLaw | internal/rbac/escalation.go:55-63 | from the cluster: the edges of escalate and bind |
| RbacLaws.ImpersonationLaw | internal/rbac/escalation.go:64-66 | from the cluster: the edge of impersonate, on whatever resource |
| RbacLaws.ForgeryLaw | internal/rbac/escalation.go:67-70 | from the cluster: the edge of a subject that can both request and approve certificates |
| RbacLaws.NodeLaw | internal/rbac/escalation.go:71-77 | from the cluster: the edges of workload creation and of the kubelet |
| RbacLaws.PodLaw | internal/rbac/escalation.go:110-150 | a pod is reported exactly when a walk over the edges leads from the account it runs as, default where it names none, to a target |
| RbacLaws.GrantsAreOrdered | internal/rbac/graph.go:91-97 | grants go by subject and then by the name of the role |
| RbacLaws.EdgesAreOrdered | internal/rbac/escalation.go:96-105 | the edges of a subject go by where they lead |
| RbacLaws.ReportIsOrdered | internal/rbac/escalation.go:128 | findings go by where they start |
| Lists.FirstOfEachKeeps | internal/rbac/checks.go:452-464 | deduplication keeps one element of every key, in order |
| OciPaths.PrefixIsUnder | internal/oci/oci.go:143-154 | the string prefix test is the component-wise ancestor relation |
| OciPaths.CleanPathOfClean | internal/oci/oci.go:158-161 | a clean path is left alone, with or without a leading slash |
| OciPaths.EntryPaths | internal/oci/oci.go:97-127 | base and directory of an entry are its name and its parent |
| OciFlatten.CleanPathTwice | internal/oci/oci.go:158-161 | cleaning is idempotent on every path, however malformed |
| OciFlatten.FileTree.RemovePrefix | internal/oci/oci.go:143-154 | removes in place exactly the files below the directory |
| OciFlatten.FileTree.Remove | internal/oci/oci.go:136-140 | removes in place exactly the path and what lies below it |
| OciFlatten.FileTree.ApplyMarkers | internal/oci/oci.go:100-111 | pass 1 removes exactly what the layer's markers hide |
| OciFlatten.FileTree.AddFiles | internal/oci/oci.go:112-125 | pass 2 puts the layer's last entry over whatever was there |
| OciFlatten.Flatten | internal/oci/oci.go:97-128 | the two-pass fold shows at every path what the layers show there |
| OciFlatten.EffectiveIff | internal/oci/oci.go:95-128 | a path shows f exactly when some layer supplies f last and no higher layer has or hides the path |
| OciFlatten.AbsentIff | internal/oci/oci.go:95-128 | a path is absent exactly when every layer that has it lies below one that replaces or hides it |
| OciFlatten.TreeIff | internal/oci/oci.go:95-128 | no file shown lies below another exactly when, of any two entries that nest, a higher layer replaces or hides one |
| OciFlatten.FileOverDirectory | internal/oci/oci.go:112-125 | a file over a lower layer's directory leaves what stands in the directory |
| OciFlatten.MarkerOrderIsIrrelevant | internal/oci/oci.go:99-111 | order and repetition of markers within a layer change nothing |
| OciFlatten.WhiteoutHidesItsName | internal/oci/oci.go:106-110 | a whiteout file hides its name's sibling and everything below it, and nothing else |
| OciFlatten.OpaqueHidesItsDirectory | internal/oci/oci.go:101-105 | an opaque marker hides everything below its directory and nothing else |
| OciLaws.SlashesCollapse | internal/oci/oci.go:158-161 | this and the next six equations, with CleanPathOfClean, determine how any path is cleaned: repeated slashes collapse |
| OciLaws.DotVanishes | internal/oci/oci.go:158-161 | a dot component vanishes |
| OciLaws.ParentCancels | internal/oci/oci.go:158-161 | two dots take back the component before them |
| OciLaws.RootHasNoParent | internal/oci/oci.go:158-161 | nothing lies above the root |
| OciLaws.LeadingSlash | internal/oci/oci.go:158-161 | a leading slash changes nothing |
| OciLaws.TrailingSlash | internal/oci/oci.go:158-161 | nor does a trailing one |
| OciLaws.BackslashIsSlash | internal/oci/oci.go:158-161 | a backslash is a slash |
| OciLaws.WhiteoutBySpelling | internal/oci/oci.go:106-110 | an entry .wh.name hides exactly the paths whose components begin with its directory and that name |
| OciLaws.OpaqueBySpelling | internal/oci/oci.go:101-105 | an entry .wh..wh..opq hides exactly the paths whose components properly begin with its directory |
| OciLaws.FileBySpelling | internal/oci/oci.go:112-125 | every entry whose name does not start with .wh. is a file at its own path and hides nothing |
| Lists.StableSortIsUnique | internal/runtime/detection.go:77-86 | the modelled sort is the one and only stable sort |
| Lists.SortCommutesWithFilter | internal/runtime/daemon.go:107-114 | sorting stably and filtering commute |
| Daemon.Detector.Process | internal/runtime/detector.go:45-55 | threads the state through observation and all rules, detections in rule order |
| Daemon.Detector.Run | internal/runtime/detector.go:62-77 | all detections of the stream, stably sorted, also when the source breaks off |
| Daemon.EventRing.Push | internal/runtime/daemon.go:156-163 | the overwritten ring holds exactly the last events, oldest first |
| Daemon.EventRing.Slice | internal/runtime/daemon.go:166-177 | returns them in order |
| Daemon.Loop.Step | internal/runtime/daemon.go:82-105 | one turn extends state, window, records, evidence and counters by one event |
| Daemon.Run | internal/runtime/daemon.go:70-116 | records are the sorted emissions, each detection sealed with the last window of events up to its own; records and suppressed add up to all detections; partial results survive an error |
| Daemon.DaemonRefinesDetector | internal/runtime/daemon.go:70-116 | the daemon's detections are the detector's, in the same order, without the suppressed ones |
| Daemon.MoreExceptionsFewerRecords | internal/runtime/exceptions.go:64-94 | further exceptions only filter the result, never reorder it |
| Daemon.RecordsHaveTheirWindow | internal/runtime/daemon.go:91-142 | every record stems from one event and its window ends with that event |
| DaemonLaws.ExcusesIff | internal/runtime/exceptions.go:64-94 | an exception covers exactly the detections of its rule that fit each scope it sets: image, container by name or id, beginning of the path, part of the arguments |
| DaemonLaws.RecordedIff | internal/runtime/daemon.go:70-142 | a record is in the report exactly when some event raised its detection, no exception covers it, and it carries the planned action and the evidence sealed with the last events up to that one, 32 where no size is set |
| DaemonLaws.RecordsAreOrdered | internal/runtime/daemon.go:107-116 | records go by event number and then by rule |
| DaemonLaws.DetectionsAreOrdered | internal/runtime/detector.go:62-87 | so do the detector's detections |
| ProcSource.DiffProcTable | internal/runtime/procparse.go:160-180 | exactly the new and re-executed processes, ascending |
| ProcSource.SameProcTable | internal/runtime/procparse.go:378-389 | decides equality of the process sets with their executables |
| ProcSource.Source.Refill | internal/runtime/procparse.go:333-358 | queues and numbers exactly the events of one snapshot |
| ProcSource.Source.Next | internal/runtime/procparse.go:304-374 | one call of the polling loop as specified, on any sequence of polls |
| ProcSource.CallsDeliverTheStream | internal/runtime/procparse.go:304-374 | after any number of calls, delivered plus queued is exactly the stream of the polls used |
| ProcSource.DeliveredAreNumbered | internal/runtime/procparse.go:304-364 | over every run the k-th event delivered carries number k |
| ProcSource.DeliveredTellExecutables | internal/runtime/procparse.go:304-374 | whenever the queue is empty, folding the exec events gives the executable of every live process |
| ProcSource.PacedSourceNeverEnds | internal/runtime/procparse.go:366-373 | with an interval, end of stream is never returned |
| ProcSource.UnpacedSourceEndsWhenSettled | internal/runtime/procparse.go:366-373 | without one, it is returned exactly when quiet snapshots lead to two equal tables |
| ProcLaws.NewsIsTold | internal/runtime/procparse.go:333-358 | a look at the table puts the start of every new or re-executed process on the stream, followed by its connections where they are read, between those of smaller and of larger process numbers |
| ProcLaws.OnlyNewsIsTold | internal/runtime/procparse.go:333-358 | and nothing else |
| ProcLaws.EndsIff | internal/runtime/procparse.go:366-373 | an unpaced source ends at a look that is not the first and finds the same processes with the same executables |
| SortedText.Contains | internal/runtime/baseline.go:41-44 | the binary search ends where it does on any list; a hit is a member, and on an ordered list every member is a hit |
| SortedText.FoundIffSteered | internal/runtime/baseline.go:41-44 | on any list a text is found exactly when some occurrence of it is one that every probe on the way steers to |
| SortedText.FindsMembersIff | internal/runtime/baseline.go:41-44 | on a list without repetitions every member is found exactly when the list is ordered |
| SortedText.UnorderedCanFind | internal/runtime/baseline.go:41-44 | with repetitions a list out of order can have all its members found |
| SortedText.SortedKeys | internal/runtime/baseline.go:188-198 | the members of a set in strictly ascending order |
| Baseline.Accumulator.RecordEvent | internal/runtime/baseline.go:80-134 | folds one event into the sets of its workload as specified |
| Baseline.Accumulator.Build | internal/runtime/baseline.go:137-154 | freezes every workload into sorted lists of exactly its sets |
| Baseline.LearnedIsShown | internal/runtime/baseline.go:80-134 | a workload's sets hold exactly the facts its events show |
| Baseline.LearningIgnoresOrder | internal/runtime/baseline.go:80-154 | order and repetition of events change nothing but the image name |
| Baseline.ProfilesIgnoreOrder | internal/runtime/baseline.go:137-154 | the frozen profiles are then equal, but for the image name |
| Baseline.AnomalyRule.Evaluate | internal/runtime/rules_anomaly.go:38-71 | for any baseline, reports exactly the fact of an event that the search does not find, once per container where the rule de-duplicates |
| Baseline.DeviatesIff | internal/runtime/rules_anomaly.go:38-71 | against a learned baseline an event deviates exactly when its workload was learned and no event of it showed the fact |
| Baseline.JudgedByListsIff | internal/runtime/rules_anomaly.go:38-71 | against any profile all events are judged as its lists say exactly when the search finds every non-empty name in them |
| Baseline.JudgedByListsIffOrdered | internal/runtime/rules_anomaly.go:38-71 | without repetitions and empty names that is exactly when all three lists are ordered |
| Baseline.EmptyNameIsNeverJudged | internal/runtime/rules_anomaly.go:38-71 | an empty name can stand out of order without any event being misjudged |
| Baseline.ListedAndReported | internal/runtime/rules_anomaly.go:38-71 | a profile and an event on which the rule reports a call the profile lists |
| Baseline.LearnThenCheckIsQuiet | internal/runtime/rules_anomaly.go:38-71 | replaying learned events in any order and number, from any state, reports nothing |
| BaselineLaws.EndpointLaw | internal/runtime/baseline.go:172-186 | an endpoint goes by its domain, else by its address with the port in decimal behind a colon where one is set |
| BaselineLaws.ProcessLaw | internal/runtime/rules_anomaly.go:38-71 | against what was learned a started process deviates exactly when its image, by identity or else by reference, was seen and never running this executable |
| BaselineLaws.SyscallLaw | internal/runtime/rules_anomaly.go:38-71 | a system call, exactly when its image was seen and never making it, by name or as the call behind a start, a connection or an opened file |
| BaselineLaws.NetworkLaw | internal/runtime/rules_anomaly.go:38-71 | a connection, exactly when its image was seen and never contacting the endpoint |
| BaselineLaws.OtherwiseQuiet | internal/runtime/rules_anomaly.go:38-71 | no other event deviates |
| BaselineLaws.ReportLaw | internal/runtime/rules_anomaly.go:38-71 | over a run of the rule a deviating start or connection is reported exactly when no earlier event of the run on the same container deviated by the same executable or endpoint; a deviating system call always |
| Baseline.GenerateSeccompProfile | internal/runtime/profile.go:59-91 | allows exactly the floor and the learned calls, sorted; nothing for an unknown workload |
| Baseline.ProfileAllowsWhatWasSeen | internal/runtime/profile.go:59-91 | a generated profile allows a call exactly when it is in the floor or was seen |
| Lists.InsertionSort | internal/registry/memory.go:287-301 | the in-place adjacent-swap sort is the stable sort |
| RegistryStore.MemoryRegistry.Serve | internal/registry/memory.go:70-106 | every request changes the store and answers as specified |
| RegistryStore.MemoryRegistry.HandlePutManifest | internal/registry/memory.go:133-153 | files the bytes read under their own digest and tags them unless the reference is a digest |
| RegistryStore.MemoryRegistry.HandleUpload | internal/registry/memory.go:183-213 | stores a blob exactly when its digest is as announced |
| RegistryStore.MemoryRegistry.HandleReferrers | internal/registry/memory.go:236-266 | each stored manifest with the subject, and the type if asked, exactly once, in ascending digest order |
| RegistryStore.MemoryRegistry.HandleTags | internal/registry/memory.go:269-283 | all tags in ascending order |
| RegistryStore.OneIndexOnly | internal/registry/memory.go:236-266 | that answer is determined by the store alone |
| RegistryStore.RunKeepsSound | internal/registry/memory.go:133-293 | after any requests everything sits under the digest of its own bytes and every tag names a stored manifest |
| RegistryStore.RunKeepsContent | internal/registry/memory.go:133-293 | stored digests never vanish and, barring digest collisions, keep their bytes |
| RegistryHistory.PullByTag | internal/registry/memory.go:133-181 | after any requests a pull by tag gives the content of the last manifest pushed under the name and tag, as last pushed under its digest, and nothing exactly when there was none |
| RegistryHistory.PullGivesLastPush | internal/registry/memory.go:133-181 | where digests tell the pushed manifests apart these are the bytes last pushed under the tag, with its media type exactly when no later push of the same bytes had another one |
| RegistryHistory.SecondTagChangesType | internal/registry/memory.go:146-150 | pushing the same bytes under a second tag changes the media type the first tag is pulled with |
| RegistryHistory.PullByDigest | internal/registry/memory.go:133-181 | a pull by digest gives the manifest last pushed with that digest, and nothing exactly when none was |
| RegistryHistory.FetchBlob | internal/registry/memory.go:183-234 | a blob is found exactly when an upload of these bytes was accepted |
| RegistryHistory.TagsArePushed | internal/registry/memory.go:269-283 | the tags listed are exactly the references, digests aside, under which manifests were pushed |
| RegistryHistory.ReferrersArePushed | internal/registry/memory.go:236-266 | the referrers listed are exactly the pushed manifests that name the subject and, if asked, the type |
| RegistryHistory.PushesAreAnswered | internal/registry/memory.go:133-213 | a push is answered with the digest of what was read, an upload too where the digest announced is that one or missing |
| UrlQuery.PlainIsReceived | internal/registry/referrers.go:32-39 | an unescaped query value reads as meant exactly when it is plain |
| UrlQuery.PlusIsReadAsSpace | internal/registry/referrers.go:32-39 | a value whose only special character is the plus sign is read with a space for every plus |
| UrlQuery.EscapedIsReceived | internal/registry/referrers.go:32-39 | a value every byte of which were escaped would read as meant |
| RegistryClient.PutReferrer | internal/registry/referrers.go:82-122 | among any requests of other clients the server sees exactly these requests, up to the first refused upload |
| RegistryClient.Client.PutBlob | internal/registry/client.go:246-279 | succeeds exactly when the server reads the whole blob |
| RegistryClient.Referrers | internal/registry/referrers.go:32-58 | returns, sorted, exactly what the server lists under the type it reads, narrowed to the type asked |
| RegistryClient.FilterByArtifactType | internal/registry/referrers.go:134-145 | for any index, keeps exactly the descriptors of the type, in order |
| RegistryClient.CompletesIff | internal/registry/referrers.go:82-122 | PutReferrer completes exactly for a valid subject and an artifact within the read limit |
| RegistryClient.FoundIff | internal/registry/referrers.go:82-122 | a completed referrer is found by any later query exactly when its manifest fits the read limit and the server reads the type as meant or as empty |
| RegistryClient.FoundWithoutType | internal/registry/referrers.go:32-58 | without a type every referrer within the limit is found |
| RegistryClient.FoundWithPlainType | internal/registry/referrers.go:32-58 | a query for its own type finds it exactly when the type is plain or reads as empty |
| RegistryClient.CompletedIsHistory | internal/registry/referrers.go:82-122 | the histories these theorems speak of are the ones PutReferrer makes |
| RegistryClient.BundlesAreNeverFound | internal/registry/referrers.go:32-39 | a query for the signature bundle type never finds a stored bundle |
| RegistryClient.ReportedDigestIsStoredIff | internal/registry/memory.go:133-153 | the digest PutReferrer reports is stored exactly when the manifest fits the read limit, whatever the codec and the other requests |
| RegistryClient.LongAnnotationIsLost | internal/registry/referrers.go:82-122 | with an annotation beyond the limit PutReferrer completes and the digest it reports is not stored |

## Left out

Libraries and transport

* Regular expressions, number conversion, Unicode letter and digit tables, upper and lower case,
  SHA-256 and JSON are parameters of the models; the assumptions made of them stand in each
  lemma's `requires`.  HTTP, files, clocks, the kernel and message texts are not modelled.
* Texts are sequences of characters; UTF-8 decoding and invalid bytes are not modelled.  In
  UrlQuery each character stands for one byte.
- PolicyEval.EvalF: numbers are reals, so rounding, infinities and NaN of float64 are not modelled.
- PolicyLexer.Lex: token columns are not modelled, since they occur in error messages only.

Policy

* Decoding the document from JSON, date parsing of waiver expiries (an integer, 0 for the zero
  time), rule texts copied into results, the explanation and report tables.

YAML

- Yaml.Parser.ParseSequence: floating-point scalars are kept as their text, recognised by a parameter; lists in brackets are proved to read back where no element is itself a list or holds a comma.
* The text of the JSON encoding; which float texts are finite is a parameter.

Ring buffer

- RingReader.RingState.ReadRingRecord: each call is one atomic step and positions are unbounded integers; memory ordering and wrap-around of the 64-bit positions are not modelled.
- RingReader.RingState.constructor: models the ring at the default size; RingSizes says which reads stay right at larger ones, and mapping a smaller one fails in the kernel, which is not modelled.  mmap and file descriptors.

RBAC

- RbacGraph.SubjectPermissions: atoms with the same rendering stand in either order, as the source's unstable sort leaves open.
- RbacSearch.ScoreIdentity: dormancy and the namespaces an identity reaches are not part of this model.
- RbacEscalation.AddingBindingsOnlyAdds: roles stay the same while bindings are added; adding a role can change what a binding resolves to.
- RbacReport.ReportKeepsEveryStart: the pods stay the same while bindings are added; severities and advice of the findings are not modelled.
- RbacLaws.TheftLaw: speaks of service accounts without a slash in namespace or name, as Kubernetes has them; a name with one is read as having no namespace.
- RbacLaws.PodLaw: speaks of clusters in which no start's key contains a bar; with bars deduplication can merge findings of different starts.
- RbacReport.CheckEscalationPaths: a path is a list of edges; joining their narrations into one text is not modelled.

Images

- OciFlatten.Flatten: an entry carries its path and data; mode, size and link fields are copied unread.

Sensor

* Rule bodies and response actions: rules are arbitrary deterministic steps over a state, sealing
  a bundle is an arbitrary function of detection and window.
- ProcSource.Source.Next: what the outside does is a sequence of polls; 64-bit wrap-around of the sequence number is not modelled.
- ProcSource.DeliveredTellExecutables: processes that ended stay in the fold, since no event reports an exit.
* Parsing of /proc files.
- Baseline.Accumulator.RecordEvent: whether a file event is a write is a field of the event, not computed from its flags.

Registry

- RegistryStore.MemoryRegistry.Serve: repositories are values in the map, each reachable by its name only; authentication, path splitting and response headers are not modelled.
- RegistryClient.Referrers: the tag scheme the client falls back to on a 404 is not modelled, since this server answers every referrer query.
- RegistryClient.FoundIff: assumes that the digest tells the bodies in play apart and that decoding an encoded manifest gives it back.
* The fallback referrers tag: the comment on PutReferrer mentions writing it, its body does not, and the code is followed.
