# Verified models of the dev container CLI's algorithms

The CLI mostly drives Docker, but its behaviour rests on a handful of
algorithms that need no I/O. Each is modelled here in the form the program has
it - classes and loops where it updates things in place, functions where it
computes - and proved against an independent account of what it is for.

- **JSON errors** (`JsonGrammar`, `JsonMachine`, `V8Json`, `V8Messages`). The
  recursive descent parser that reports what V8's JSON.parse would. The grammar
  of RFC 8259 is written down on its own; a pushdown machine is shown to be its
  derivative, unit by unit; the parser, with its mutable position and error, is
  proved to follow the machine. It accepts exactly JSON, the position it reports
  is the first at which the text cannot be completed, and the message is given
  exactly where what it says holds of the units that could have come next.
- **Dockerfile variables** (`DockerResolver`, `DockerReferences`,
  `DockerCycles`, `DockerAsks`). The lazy backward lookup through instructions
  and stages equals a forward evaluation. Lookups return for every choice of
  instructions exactly when no two or more stages are built FROM each other in a
  round, and for given instructions exactly when they never come back to one
  they are working on.
- **Feature graph and install order** (`FeatureNodes`, `InstallOrder`,
  `RoundSort`, `SameFeature`, `FeatureGraph`, `FeatureRoots`,
  `FeatureInstaller`, `FeatureOrdering`). The worklist that builds the graph and
  the rounds that order it, on nodes updated in place, refine pure functions; an
  order comes out exactly when one exists, and it is one of those. The order of
  the nodes does not matter to the rounds; when that of the user's Features does
  not matter to the graph is stated exactly.
- **JSON objects** (`JsObject`, `JsValues`). Property order, spreading, and
  printing and reading values with objects in that order.
- **Lockfile** (`JsonTokens`, `JsonText`, `JsonNumbers`, `JsonNormal`,
  `JsonReading`, `JsonNormalizer`, `Lockfile`). Character by character: what the
  encoder writes reads back, only documents are read, the streaming normaliser
  is parse-then-print, and normalising is a fixpoint. On top of it, the protocol
  of frozen and ordinary writes over any history of one file, with failing
  writes.
- **UTF-8** (`Utf8Lossy`). Decoding by maximal subparts is the byte-at-a-time
  decoder of the WHATWG Encoding Standard.
- **Variable substitution** (`Strings`, `Substitution`, `SubstitutionPhases`,
  `HostTags`). What each tag stands for, the tag scanner, exactly when its
  passes can be merged into one, and what goes wrong when they cannot.
- **Lifecycle** (`LifecycleHooks`, `LifecycleOrder`, `ParallelCommands`,
  `LifecycleMarkers`, `LifecycleDue`). What a run executes and in which order,
  the goroutines of parallel commands under every schedule, and the marker files
  over any history of runs and restarts, with the one run that keeps a hook.
- **Metadata merge** (`MetadataMerge`, `MetadataWinners`, `MetadataMerger`). A
  forward pass, a reverse scan and a last-index map together are one left fold,
  in which the last entry that sets something wins.
- **Words and paths** (`ShellWords`, `PathMerge`). Quoting and splitting undo
  each other exactly on ASCII; merged PATH lists.

`Wrappers` holds what they share.

Some properties one would expect are false of the program; each is stated with
the condition under which it holds.

- A variable lookup does not return on some cyclic Dockerfiles
  (`MutualStagesAskForEver`). Lookups return whatever the instructions exactly
  when no two or more stages are built FROM each other in a round
  (`ReturnsIffNoRound`; from one stage, `ReturnsIffSettled`). A stage built FROM
  itself does no harm.
- The order in which a map gives the user's Features can decide what is
  installed (`RootOrderMatters`). Among Features that can be processed it makes
  no difference to any graph exactly when different references are different
  Features (`AnyOrderIffTold`), and then none to the installation but inside a
  round (`RootOrderDoesNotMatter`).
- Being the same Feature is not transitive (`NodesEqualIsNotTransitive`), and
  neither is the comparison a round is sorted by: a round of three Features can
  come out unsorted (`RoundNotSorted`). Every order of a round comes out sorted
  exactly when the comparison is transitive on it (`SortsIffTransitive`).
- A second substitution pass can change the result, with values of environment
  variables that join up with the text around them or hold a tag
  (`JoiningIsNotIdempotent`, `TagValueIsNotIdempotent`). Passes merge into one,
  whatever the second one handles, exactly when nothing joins up
  (`PassesMergeIffStable`, `TreesMergeIffStable`), and then the same pass again
  changes nothing (`SecondPass`). For one pass run twice that is not necessary:
  a value can bring its own tag back (`OwnTagIsUnstable`).
- A hook can run more than once when the home folder or the time is unknown
  (`UnmarkedRepeats`, `KeptOnce`), and may never run once an earlier run stopped
  before it (`NeverMadeUp`): "at most once", not "eventually".
- `waitFor: initializeCommand` stops no run early, although the comment on the
  option says it names the phase to stop after; no phase that is run has that
  name (`WaitingForNoPhase`).
- Splitting does not undo quoting for arguments with bytes from 128 on
  (`SplitUndoesQuote`), and a merged PATH does not keep the container's order
  where the two lists disagree (`MergeIsSupersequence`).

## Model

| member | source | states |
|---|---|---|
| V8Json.SyntaxErrorOf | internal/features/v8json.go:18-24 | No error exactly when the text is JSON by sections 2 to 7 of RFC 8259. On an error the text up to the reported position begins some JSON text and, unless it is the end, one unit more begins none; the error has the kind and the message that belong to what was being read there, or to the unit there, with its line, column and quoted context. |
| V8Json.ErrorIsUnique | internal/features/v8json.go:138-360 | That leaves nothing open: a text has exactly one position and error of which this is true. |
| V8Messages.MessageIff | internal/features/v8json.go:138-339 | Each message is given exactly where certain units could have come next: a quote or a closing brace for the one about a property name or brace, a colon for the one about colons, only digits for the ones about numbers, and so on for all of them. |
| V8Messages.QuotedContext | internal/features/v8json.go:343-360 | A text of up to twenty units is quoted whole, of a longer one the ten units before the error and the ten from it on. |
| V8Messages.SpecialTexts | internal/features/v8json.go:343-360 | NaN, Infinity, undefined and [object Object] are the texts that are quoted whole in any case. |
| V8Json.V8Parser.Value | internal/features/v8json.go:138-186 | From a place where a value may stand, success stops right after one value with the same containers open; failure leaves a reported error at the earliest wrong unit. |
| V8Json.V8Parser.ObjectBody | internal/features/v8json.go:145-163 | The same for the rest of an object, members and closing brace. |
| V8Json.V8Parser.ArrayBody | internal/features/v8json.go:164-177 | The same for the rest of an array. |
| V8Json.V8Parser.Property | internal/features/v8json.go:190-192 | A key and its colon: success stops where a value must come; failure has reported. |
| V8Json.V8Parser.Literal | internal/features/v8json.go:195-209 | true, false or null unit by unit; a mismatch is reported at the unit that differs. |
| V8Json.V8Parser.ScanString | internal/features/v8json.go:212-229 | A string from its opening quote to its closing one, with no raw control characters. |
| V8Json.V8Parser.Escape | internal/features/v8json.go:233-254 | An escape sequence, including four hex digits after a u. |
| V8Json.V8Parser.Number | internal/features/v8json.go:257-289 | A number is taken to its end and no further, or its first impossible unit is reported. |
| V8Json.V8Parser.Peek | internal/features/v8json.go:110-117 | Skips exactly the white space and answers the kind of token that comes next. |
| V8Json.V8Parser.Expect | internal/features/v8json.go:129-135 | Takes the expected token, or reports at the next unit that is no white space. |
| V8Json.V8Parser.Report | internal/features/v8json.go:324-339 | Sets the error, whatever it was before, to the message asked for, or without one to that of the token at the position. |
| V8Json.V8Parser.UnexpectedTokenAt | internal/features/v8json.go:343-360 | Texts of no more than twenty units, and four special ones, are quoted whole; of the others exactly the ten units before the position and the ten from it on, cut at the ends, with dots on a side that is cut off. |
| V8Json.V8Parser.Location | internal/features/v8json.go:368-383 | Line and column count CR LF, CR and LF each as one line end. |
| V8Messages.LineEnds | internal/features/v8json.go:368-383 | A line ends at a CR, and at an LF that does not follow one. |
| JsonMachine.Derive | internal/features/v8json.go:138-306 | One unit takes the recogniser from a state exactly to the state for what the grammar may still have after it. |
| JsonMachine.AcceptsJson | internal/features/v8json.go:18-24 | Reading unit by unit from the start and ending in an accepting state is being JSON. |
| JsonMachine.AliveIsViable | internal/features/v8json.go:138-306 | A prefix the recogniser survives can be completed to a JSON text. |
| JsonMachine.DeadIsNotViable | internal/features/v8json.go:138-306 | A prefix it does not survive begins no JSON text. |
| JsonMachine.StuckIsEarliest | internal/features/v8json.go:324-339 | The place where the recogniser stops is the earliest error. |
| DockerResolver.Resolver.FindValue | internal/docker/resolve.go:135-175 | Every lookup that returns gives the answer of the lazy definition, whatever the stages; from a stage whose chain of FROM ends, or comes to a stage built FROM itself, that is the value the variable has in a forward run: instructions in order with a full environment inside a stage, only ENV handed to a child stage, the ARGs of the preamble at the bottom. |
| DockerResolver.Resolver.Replace | internal/docker/resolve.go:100-120 | The same for a text with references: it is expanded in the environment the forward run has right before the instruction. |
| DockerReferences.LazyReferences | internal/docker/resolve.go:100-120 | What is put in for one reference: for $v the value as it is; for ${v:-w} the value, or w where it is empty; for ${v:+w} w, or nothing where the value is empty; of the last two without a quote at either end. |
| DockerReferences.ReferenceLaws | internal/docker/resolve.go:100-120 | The same in the forward evaluation. |
| DockerReferences.BaresIsUnique | internal/docker/resolve.go:122-131 | What is left without a quote at either end is one text. |
| DockerReferences.UnquotedStays | internal/docker/resolve.go:122-131 | It is the text itself when that neither begins nor ends with a quote. |
| DockerReferences.DefaultedBase | internal/docker/resolve.go:57-78 | FROM ${BASE:-debian} builds on debian, and with ARG BASE=alpine in the preamble on alpine. |
| DockerResolver.Resolver.FromImage | internal/docker/resolve.go:57-59 | The image of a stage is expanded in the environment of the preamble; needs no acyclicity. |
| DockerResolver.Resolver.FindBaseImage | internal/docker/resolve.go:63-78 | For any Dockerfile: the image at the end of the chain of FROM, and the empty string when there is no stage or the chain goes round. |
| DockerResolver.Resolver.FindUserStatement | internal/docker/resolve.go:82-97 | The last USER of the target, or of the nearest stage below it that has one, expanded where it stands, and the empty string when there is none, also where the stages go round. |
| DockerResolver.Resolver.FindLastUser | internal/docker/resolve.go:89-93 | The index of the last USER, or none. |
| DockerResolver.Resolver.Labelled | internal/docker/resolve.go:46-54 | A label names the last stage that carries it. |
| DockerResolver.Resolver.StepBack | internal/docker/resolve.go:144-160 | An instruction changes the value of a variable exactly when it is an ENV of it, or a visible ARG of it with a build argument or default. |
| DockerResolver.Resolver.StepOut | internal/docker/resolve.go:161-173 | What a stage starts with is what the next scope of the lookup shows. |
| DockerReferences.FindsNearest | internal/docker/resolve.go:135-175 | A lookup finds the last instruction before it that sets the variable in its own scope, or the last in a stage outside that is an ENV, or the last in the preamble; an ARG gives its build argument, else its default. |
| DockerReferences.OwnScopeFirst | internal/docker/resolve.go:144-160 | An instruction of its own scope that sets the variable keeps a lookup from going outside. |
| DockerReferences.ParentNext | internal/docker/resolve.go:161-173 | What a stage does not set comes from an ENV of the stage it is built FROM. |
| DockerReferences.PreambleNext | internal/docker/resolve.go:161-173 | Of a stage built FROM no other it comes from the preamble, where an ARG counts too. |
| DockerReferences.GivenValue | internal/docker/resolve.go:161-165 | What nothing sets has the value of the environment given, else the platform's, else none. |
| DockerReferences.StartStageIs | internal/docker/resolve.go:46-54 | A lookup starts from the last stage of the target's name, or the last of all. |
| DockerResolver.Resolver.AnswerForward | internal/docker/resolve.go:135-175 | With enough fuel the lazy definition and the forward evaluation agree from every scope whose chain ends or comes to a stage built FROM itself. |
| DockerResolver.Resolver.RepeatNeverEnds | internal/docker/resolve.go:68-71 | A chain that comes back to a stage never ends and repeats with that period. |
| DockerResolver.Resolver.AnswerKept | internal/docker/resolve.go:135-175 | An answer does not depend on the fuel it is found with. |
| DockerResolver.Resolver.NearestUser | internal/docker/resolve.go:83-96 | The USER that is taken is the last one of the first stage of the chain that has one; there is none exactly when no stage of the chain has. |
| DockerCycles.ReturnsIffAskedReturn | internal/docker/resolve.go:135-175 | A lookup that finds a text returns exactly when the lookups of the variables in that text, from where it stands, return. |
| DockerCycles.ReturnsIffSettled | internal/docker/resolve.go:135-175 | All lookups from a stage return, whatever the instructions of the stages, exactly when its chain of FROM ends or comes to a stage built FROM itself. |
| DockerCycles.ReturnsIffNoRound | internal/docker/resolve.go:135-175 | All lookups of a Dockerfile return, whatever the instructions, exactly when no two or more of its stages are built FROM each other in a round. |
| DockerCycles.RoundCanHang | internal/docker/resolve.go:135-175 | Every trail of stages that runs into a round of two or more can be given instructions on which a lookup never returns. |
| DockerAsks.ReturnsIffNoLoop | internal/docker/resolve.go:135-175 | With the instructions it has, a lookup returns exactly when it never comes back to an instruction it is still working on. |
| DockerAsks.ReturnsIffWithinCount | internal/docker/resolve.go:135-175 | It returns exactly when it does so with no more lookups inside each other than there are instructions. |
| DockerCycles.MutualStagesAskForEver | internal/docker/resolve.go:135-175 | Two stages built FROM each other whose ENVs refer to each other: the lookup returns for no fuel, as the set of seen stages is per call. |
| FeatureNodes.NodesOpposite | internal/features/order.go:197-304 | Swapping two nodes reverses the sign of their comparison, for every pair of sources and options. |
| FeatureNodes.NodesEqualLaws | internal/features/order.go:185-190 | Being the same Feature is symmetric, and reflexive on processed nodes. |
| SameFeature.NodesEqualIff | internal/features/order.go:185-255 | Two nodes are the same Feature exactly when their options agree and they are one OCI image (one digest, or with none one repository and no two tags), one path, one URI or one id; nodes of different kinds when the user wrote the same. |
| SameFeature.OptionsCompare | internal/features/order.go:262-303 | Options agree when they are equal strings or booleans, both absent, or objects in which no key has two different strings or two different booleans and, of two maps, with the same keys. |
| SameFeature.OciOrder | internal/features/order.go:208-231 | Different images are ordered by repository, then tag, options and digest. |
| FeatureNodes.NodesEqualIsNotTransitive | internal/features/order.go:185-190 | It is not transitive: option values of different types compare as equal. |
| InstallOrder.OrderIffPossible | internal/features/order.go:66-116 | On pairwise different Features an order is returned exactly when some order of all nodes puts the same Feature before each hard dependent and a satisfying node before each dependent with a satisfiable soft dependency; the returned order is one. |
| InstallOrder.RespectsIff | internal/features/order.go:118-138 | An order respects the dependencies when each node comes after the same Feature as each of its hard dependencies and after one that satisfies each soft dependency that any node satisfies. |
| InstallOrder.InstallRespects | internal/features/order.go:66-116 | From any stage of the rounds, an order that comes out has every node once and respects every dependency. |
| InstallOrder.InstallFinishes | internal/features/order.go:66-116 | If a respecting order exists, no round is empty before the end. |
| InstallOrder.RoundIsHighest | internal/features/order.go:67-98 | A round is exactly the installable nodes of greatest priority. |
| InstallOrder.RemoveTakesTheRound | internal/features/order.go:330-334 | Removing by sameness removes just the round when different nodes are different Features. |
| InstallOrder.RoundKeepsProgress | internal/features/order.go:66-108 | A round keeps the split of the nodes into an admissible order and the rest. |
| InstallOrder.PermutationDoesNotMatter | internal/features/order.go:66-108 | Permuting the nodes leaves every round the same bag of nodes, and success, the cycle error and the unresolved error the same. |
| InstallOrder.OrderIsItsRounds | internal/features/order.go:100-108 | The order is the rounds, one after the other. |
| RoundSort.StableSortSorts | internal/features/order.go:103-105 | Where the comparison is transitive on a round, the round comes out sorted. |
| RoundSort.SortsIffTransitive | internal/features/order.go:103-105 | Every order of a round comes out sorted by insertion, as rounds of up to twenty are sorted, exactly when the comparison is transitive on it. |
| RoundSort.StableSortIsUnique | internal/features/order.go:103-105 | Where the comparison is transitive, the sorted round is the one list of the same nodes that is sorted and leaves nodes that compare equal in their order: every stable sort gives it. |
| RoundSort.RoundNotSorted | internal/features/order.go:103-105 | It need not be: a round of two local Features and a tarball, pairwise different, comes out unsorted. |
| InstallOrder.MaxPriority | internal/features/order.go:83-89 | The greatest positive priority of the installable nodes, or 0. |
| FeatureGraph.BuildIsClosed | internal/features/graph.go:95-170 | Over a finite set of reachable pairs building ends; the graph has no Feature twice, holds every root and is closed under dependsOn up to sameness; it fails only on a pair that cannot be processed. |
| FeatureGraph.Expands | internal/features/graph.go:113-141 | Expanding an unknown pair leaves fewer pairs to expand. |
| FeatureGraph.ExpandCovers | internal/features/graph.go:119-167 | Expanding a pair keeps every dependency of a node in the graph or in the worklist. |
| FeatureGraph.OverridePriority | internal/features/graph.go:184-218 | N minus the least index of an override entry the node satisfies, 0 without one. |
| FeatureGraph.OverrideError | internal/features/graph.go:184-204 | The error of the last override entry that cannot be processed, as entries are taken from the end. |
| FeatureGraph.BuildThenOrder | internal/features/order.go:100-107 | Of a built graph the order has every node exactly once and respects every dependency, or there is a cycle and no such order exists. |
| SameFeature.BothVersionsStay | internal/features/graph.go:95-170 | Two roots of one kind of source that come first and have different strings under an option both have a node. |
| SameFeature.LoneRootStays | internal/features/graph.go:95-170 | A root has a node whenever no other reference of the closure is the same Feature. |
| SameFeature.SatisfiesImage | internal/features/order.go:141-170 | An image satisfies a soft dependency on its resource, or on a Feature that had that resource by a former id. |
| SameFeature.SatisfiesAnyVersion | internal/features/order.go:141-170 | Tag, digest and options play no part in that. |
| SameFeature.SatisfiesPlace | internal/features/order.go:172-183 | A local Feature satisfies one of its path, a tarball one of its URI, any other one of its id. |
| SameFeature.SatisfiesOwnKind | internal/features/order.go:143-155 | Nothing satisfies without a source, or with one of another kind. |
| SameFeature.FormerIdsSatisfy | internal/features/order.go:156-166 | What has the id or a former id of a Feature, in its namespace, satisfies a soft dependency on it. |
| FeatureRoots.RootOrderMatters | internal/features/types.go:375-387 | The user's Features come in the order of a map, and it can matter: three references to one local Feature, with different options, make a graph and an installation of two nodes in one order and of one node in another. |
| FeatureRoots.AnyOrderIffTold | internal/features/graph.go:95-170 | In a closure of Features that can be processed, the graph is the same for every order of any roots exactly when different references are different Features. |
| FeatureRoots.RootsMakeTheGraph | internal/features/graph.go:95-170 | Where different references are different Features, the graph, as a bag, and whether it can be built depend only on which roots there are, not on their order or repetitions. |
| FeatureRoots.RootOrderDoesNotMatter | internal/cli/features_resolve_deps.go:43-78 | There, permuting the user's Features leaves every round of the installation the same bag of nodes, and an order, a cycle or a failure to build what it was; which error is reported can change. |
| FeatureRoots.BuildIgnoresClosure | internal/features/graph.go:95-170 | The graph does not depend on the finite closure that shows that building it ends. |
| FeatureInstaller.FNode.constructor | internal/features/graph.go:56-65 | A new node is unprocessed, without dependencies, aliases or priority. |
| FeatureInstaller.ResolveDependencyGraph | internal/features/graph.go:90-171 | The nodes left by the worklist loop are those of the pure graph, each updated in place with its result, its dependencies and its aliases; the error is the same. |
| FeatureInstaller.IsKnown | internal/features/graph.go:113-117 | Whether some node is the same Feature. |
| FeatureInstaller.Store | internal/features/graph.go:103-111 | Processing writes the result into the head of the worklist and touches no finished node. |
| FeatureInstaller.Expand | internal/features/graph.go:119-165 | Gives a node fresh hard and processed soft dependencies; only the hard ones join the worklist. |
| FeatureInstaller.AddHardDependencies | internal/features/graph.go:125-141 | One fresh node for each dependsOn entry, in order. |
| FeatureInstaller.AddSoftDependencies | internal/features/graph.go:143-165 | One processed node for each installsAfter entry, or the first error. |
| FeatureInstaller.ApplyOverride | internal/features/graph.go:178-220 | Raises each node to the priority of the first entry it satisfies, never lowering one. |
| FeatureInstaller.Raise | internal/features/graph.go:205-218 | Raises exactly the nodes that satisfy the entry. |
| FeatureInstaller.BuildDependencyGraph | internal/features/graph.go:49-82 | Builds the graph from fresh nodes and gives each the priority of its override entry. |
| FeatureOrdering.ComputeInstallationOrder | internal/features/order.go:30-116 | Prunes the soft dependencies in place and answers with the sets, the unresolved Feature or the cycle of the pure rounds. |
| FeatureOrdering.PruneSoftDependencies | internal/features/order.go:46-58 | Each node keeps exactly the soft dependencies some node satisfies. |
| FeatureOrdering.PrunedTwice | internal/features/order.go:46-58 | Pruning again changes nothing. |
| FeatureOrdering.ReadyNodes | internal/features/order.go:67-73 | The nodes of the worklist whose dependencies are installed. |
| FeatureOrdering.HighestNodes | internal/features/order.go:83-98 | Of those, the ones of greatest priority. |
| FeatureOrdering.RemoveNodes | internal/features/order.go:330-334 | The nodes that are the same Feature as none of the round. |
| FeatureOrdering.SortNodes | internal/features/order.go:103-105 | A stable sort of the round. |
| FeatureOrdering.InstallRounds | internal/features/order.go:60-116 | The loop over rounds gives the outcome of the pure rounds. |
| FeatureOrdering.ResolveDependencies | internal/cli/features_resolve_deps.go:43-78 | Building and then ordering: the first error, or the order of the built graph with the override priorities. |
| Utf8Lossy.SequenceLen | internal/features/lockfile.go:311-341 | A lead byte and the continuation bytes that could still complete it, at least one byte and within the input. |
| Utf8Lossy.Examples | internal/features/lockfile.go:297-306 | The examples of section 7 of RFC 3629. |
| Utf8Lossy.DecodeUtf8Lossy | internal/features/lockfile.go:297-306 | The result of the decoder of section 8.1.1 of the WHATWG Encoding Standard, byte at a time, with U+FFFD for each error. |
| Utf8Lossy.LossyIsWhatwg | internal/features/lockfile.go:297-341 | Decoding by maximal subparts equals the byte-at-a-time decoder on every input. |
| Utf8Lossy.EncodeDecode | internal/features/lockfile.go:297-306 | The identity on well-formed UTF-8 of section 4 of RFC 3629. |
| Utf8Lossy.DecodeEncode | internal/features/lockfile.go:297-306 | Encoded scalar values are decoded to themselves. |
| Utf8Lossy.LossyIsIdempotent | internal/features/lockfile.go:297-306 | Decoding what was decoded changes nothing, and only well-formed input survives as it is. |
| JsObject.CanonicalDigits | internal/features/jsobject.go:62-65 | A string of digits is what its number formats to exactly when it has no leading zero. |
| JsObject.IndexOrder | internal/features/jsobject.go:77-81 | Comparing lengths and then strings compares array indices as numbers. |
| JsObject.IndexIff | internal/features/jsobject.go:62-65 | An array index is a number up to 2^32 - 2 without leading zeros. |
| JsObject.OrderLaws | internal/features/jsobject.go:68-83 | The order is the array indices ascending and then the rest as inserted; no key is lost or repeated. |
| JsObject.OrderTwice | internal/features/jsobject.go:68-83 | Ordering the ordered keys changes nothing. |
| JsObject.Put | internal/features/jsobject.go:28-33 | Setting keeps the keys free of duplicates and equal to the domain of the values. |
| JsObject.Delete | internal/features/jsobject.go:41-46 | So does deleting. |
| JsObject.SpreadShape | internal/features/jsobject.go:49-58 | Spreading keeps the keys of the target, appends the new ones of the source in order, and the values of the source win. |
| JsObject.SpreadIsAssociative | internal/features/jsobject.go:49-58 | Spreading is associative. |
| JsObject.SpreadUnit | internal/features/jsobject.go:49-58 | The empty object is its unit on both sides. |
| JsObject.Obj.Set | internal/features/jsobject.go:28-33 | The object in place becomes the pure result. |
| JsObject.Obj.Remove | internal/features/jsobject.go:41-46 | Likewise for delete. |
| JsObject.Obj.SpreadInto | internal/features/jsobject.go:49-58 | A fresh object, both arguments untouched. |
| JsObject.Obj.OrderedKeys | internal/features/jsobject.go:68-83 | The loop over the keys and the sort give the order. |
| JsValues.PrintReads | internal/features/jsobject.go:85-155 | A printed value reads back as the value with the properties of its objects in order, whatever follows. |
| JsValues.ListPrints | internal/features/jsobject.go:85-106 | A list is printed between square brackets, with commas. |
| JsValues.ObjectPrints | internal/features/jsobject.go:85-106 | An object between braces, each value after its key and a colon. |
| JsValues.PrintNormal | internal/features/jsobject.go:85-106 | The value read back is printed as before. |
| JsValues.PrintReadPrint | internal/features/jsobject.go:85-155 | So printing, reading and printing is a fixpoint, and reading again gives the same value. |
| JsValues.ParsedWellFormed | internal/features/jsobject.go:127-141 | Whatever was read has no key twice in one object, also where the text repeats one. |
| JsValues.ReadPrintRead | internal/features/jsobject.go:85-155 | So whatever was read can be printed and read again, and printing that changes nothing. |
| JsValues.ParseJs | internal/features/jsobject.go:109-119 | Exactly one value and nothing after it. |
| JsValues.Decoder.ParseValue | internal/features/jsobject.go:121-155 | The recursive reader gives the parsed value and stops right after it. |
| JsValues.Decoder.ParseObject | internal/features/jsobject.go:127-141 | A repeated key keeps its first place and takes the last value. |
| JsValues.Decoder.ParseArray | internal/features/jsobject.go:142-153 | The elements in order. |
| JsonText.QuoteReads | internal/features/lockfile.go:406-415 | Every string, escaped as the encoder does, reads back as itself whatever follows. |
| JsonText.EscapeReads | internal/features/lockfile.go:406-415 | Each character is either written as it is or by an escape that reads back as it. |
| JsonText.EscapeTable | internal/features/lockfile.go:406-415 | The escapes are those of section 7 of RFC 8259, two characters where there is such a form. |
| JsonText.ScanStops | internal/features/lockfile.go:435-472 | A number before a separator, bracket or white space ends there. |
| JsonNumbers.IsNumberIff | internal/features/lockfile.go:435-472 | A number is one of section 6 of RFC 8259: a minus or none, a zero or digits that do not begin with one, a fraction and an exponent or none. |
| JsonNormal.PrettyLexes | internal/features/lockfile.go:406-415 | The indented text of a document splits into its tokens. |
| JsonNormal.TokensParse | internal/features/lockfile.go:435-472 | The tokens of a document parse as the document, duplicates of keys and their order kept. |
| JsonReading.ParseSound | internal/features/lockfile.go:435-472 | Conversely, whatever is read is the tokens of a document, commas and colons where they belong, with its numbers as Go writes them. |
| JsonNormal.WrittenReads | internal/features/lockfile.go:406-431 | So the written text reads back as the document. |
| JsonNormal.NormalizedPretty | internal/features/lockfile.go:406-431 | What was written is normalised to itself. |
| JsonNormal.PrettyInjective | internal/features/lockfile.go:406-415 | Different documents have different texts. |
| JsonNormal.NormalizedTwice | internal/features/lockfile.go:420-431 | Normalising any text a second time changes nothing, if a number Go wrote is written the same again. |
| JsonNormalizer.Normalizer.NormalizeValue | internal/features/lockfile.go:435-472 | The streaming writer fails exactly when no value can be read there, and otherwise writes the indented text of that value. |
| JsonNormalizer.Normalizer.NormalizeMember | internal/features/lockfile.go:450-462 | One member, on a line of its own. |
| JsonNormalizer.Normalizer.NormalizeMembers | internal/features/lockfile.go:447-471 | The members of an array or object and its closing bracket. |
| JsonNormalizer.NormalizeJson | internal/features/lockfile.go:420-431 | The streaming form equals parsing the whole text and printing it, and fails exactly when the text is not one document. |
| JsonNormalizer.ValueStep | internal/features/lockfile.go:436-448 | The next token decides what is read. |
| Lockfile.StringifyNormal | internal/features/lockfile.go:406-431 | Every lockfile is a fixpoint of normalising its text. |
| Lockfile.EntryText | internal/features/lockfile.go:35-68 | An entry is written as version, resolved and integrity, each with its own value, on lines of their own, two blanks deeper. |
| Lockfile.EntryDependencies | internal/features/lockfile.go:62-68 | Its dependencies, if there are any, follow as a list under dependsOn. |
| Lockfile.LockfileText | internal/features/lockfile.go:35-60 | A lockfile of one Feature, line by line. |
| Lockfile.StringifyInjective | internal/features/lockfile.go:35-60 | Different lockfiles have different texts. |
| Lockfile.Store.WriteLockfile | internal/features/lockfile.go:356-390 | The file and the result of every call: missing, unreadable, frozen, unchanged, rewritten, or left half-written. |
| Lockfile.FrozenLaws | internal/features/lockfile.go:369-383 | A frozen call never changes the file and succeeds exactly when the file holds its lockfile. |
| Lockfile.WriteLaws | internal/features/lockfile.go:374-390 | A call that is not frozen writes the text of its lockfile, unless the file holds that already or cannot be read. |
| Lockfile.WriteHolds | internal/features/lockfile.go:374-389 | A successful write leaves a file that holds its lockfile and no other. |
| Lockfile.HeldStays | internal/features/lockfile.go:374-389 | Frozen calls and calls for the lockfile held leave the file alone. |
| Lockfile.WriteThenStable | internal/features/lockfile.go:356-390 | After any history that ends in a successful write of L, frozen calls and further writes of L never touch the file; a call for L succeeds and a frozen call for another lockfile is a mismatch. |
| Lockfile.FrozenHistory | internal/features/lockfile.go:369-383 | No history of frozen calls changes the file. |
| Substitution.SubstituteTags | internal/config/varsub.go:128-159 | The scan from opener to opener replaces the tags of the text in order; an unterminated one stays, the first that fails gives the error. |
| Substitution.RenderScan | internal/config/varsub.go:128-159 | The pieces of a text make up the text, and a tag ends at its first closing brace. |
| Substitution.UnhandledText | internal/config/varsub.go:150-153 | A pass that handles no tag of the text gives the text. |
| Substitution.Unterminated | internal/config/varsub.go:140-146 | An unterminated tag is kept as it is. |
| Substitution.ScanOutput | internal/config/varsub.go:128-159 | The tags of the result are exactly the tags that were not handled if and only if nothing joins up: no $ and { that stand next to each other in the result, and open none of those tags, have a closing brace after them. |
| Substitution.PassesMergeIffStable | internal/config/varsub.go:58-63 | Two passes are one pass with both replacers, whatever the second one handles, if and only if nothing joins up in the first. |
| Substitution.SecondPass | internal/config/varsub.go:128-159 | Where nothing joins up, a second pass changes nothing. |
| Substitution.QuietIsStable | internal/config/varsub.go:128-159 | Nothing joins up if no value put in holds a $ or stands right after one. |
| Substitution.ScanRender | internal/config/varsub.go:128-159 | A list of pieces is found again in the text they make up if and only if nothing joins up. |
| SubstitutionPhases.EnvDefault | internal/config/varsub.go:227-238 | A default is everything after the second colon, further colons included. |
| SubstitutionPhases.HostErrors | internal/config/varsub.go:215-226 | The only host tags that are errors are env and localEnv without a name. |
| HostTags.FolderText | internal/config/varsub.go:43-63 | A text of one folder tag becomes the folder or its basename, the local tags from the local folder and the others from the container's, with its own tags resolved; it stays when the folder is not known. |
| HostTags.FoldersApart | internal/config/varsub.go:192-208 | The local tags do not depend on the container's folder, nor the others on the local one. |
| HostTags.HostHandles | internal/config/varsub.go:185-208 | The host phase handles env and localEnv, and the tags of a folder that is known; no other. |
| HostTags.IdentityHandles | internal/config/varsub.go:167-176 | The identity phase handles devcontainerId, when there is an id, and no other. |
| HostTags.ContainerHandles | internal/config/varsub.go:177-183 | The container phase handles containerEnv and no other. |
| HostTags.IdentityText | internal/config/varsub.go:58-63 | A text of the id's tag becomes the id, or stays when there is none. |
| HostTags.Basenames | internal/config/varsub.go:319-334 | A basename holds no separator and only separators follow it; on Windows a drive letter goes first. |
| HostTags.LookupIsLast | internal/config/varsub.go:215-230 | A variable has the value of the last entry of its name, on Windows in any case. |
| HostTags.PreparedIs | internal/config/varsub.go:43-52 | The container's folder has the host's tags in it resolved first. |
| HostTags.TreeLaws | internal/config/varsub.go:90-117 | A list or an object is resolved value by value; keys stay, and so do numbers, booleans and null. |
| HostTags.OtherEnvTags | internal/config/varsub.go:215-238 | ${env:NAME} and ${containerEnv:NAME} give the variable of the host and of the container, or the default. |
| SubstitutionPhases.AfterLast | internal/config/varsub.go:319-334 | A basename is the longest ending without separators. |
| SubstitutionPhases.TreesMergeIffStable | internal/config/varsub.go:90-117 | Over a whole value, too, two passes are one, whatever the second one handles, if and only if nothing joins up in any of its texts. |
| SubstitutionPhases.PhasesTwice | internal/config/varsub.go:43-63 | Host and identity phase are one pass; running the host phase first, as the loader does, or everything again changes nothing. |
| SubstitutionPhases.ContainerLast | internal/config/varsub.go:43-63 | The container phase after the other two is part of the same single pass. |
| SubstitutionPhases.JoiningIsNotIdempotent | internal/config/varsub.go:43-63 | With A set to {localEnv:B} and B to x the text $${localEnv:A} becomes ${localEnv:B} and, when the phases run again, x. |
| SubstitutionPhases.TagValueIsNotIdempotent | internal/config/varsub.go:43-63 | So does ${localEnv:A} with A set to ${localEnv:B}. |
| SubstitutionPhases.OwnTagIsUnstable | internal/config/varsub.go:128-159 | With A set to ${localEnv:A} something joins up and yet a second pass changes nothing. |
| LifecycleHooks.RunHooks | internal/lifecycle/hooks.go:93-175 | Runs the items of the plan in order and stops at the first failure, which it returns. |
| LifecycleHooks.RunPhase | internal/lifecycle/hooks.go:129-161 | The commands of a phase in order, then what follows postCreate. |
| LifecycleHooks.PerformedIsPrefix | internal/lifecycle/hooks.go:136-149 | What was run is a prefix of the plan, everything but the last succeeded, and the failure is the last one's. |
| LifecycleHooks.LimitStep | internal/lifecycle/hooks.go:119-172 | The plan ends at updateContent in a prebuild, at waitFor when not blocking, before postAttach when that is skipped, and is empty when postCreate is. |
| LifecycleHooks.WaitingForNoPhase | internal/lifecycle/hooks.go:168-171 | Waiting for a phase that is not run, such as initializeCommand, plans everything as without it. |
| LifecycleHooks.PlannedEntries | internal/lifecycle/hooks.go:108-172 | An entry is in the plan exactly when it is one of its phase and the phase is within the limit. |
| LifecycleOrder.ExecutedInOrder | internal/lifecycle/hooks.go:105-175 | What a run executes is in order: onCreate, updateContent, postCreate, the dotfiles, postStart, postAttach. |
| LifecycleOrder.PlannedIff | internal/lifecycle/hooks.go:95-175 | Exactly which commands are planned: all of their phase, but none when postCreate is skipped, none after updateContent in a prebuild, none after the phase waited for when not blocking, and none of postAttach when that is skipped. |
| LifecycleOrder.WaitForIs | internal/lifecycle/hooks.go:95-103 | The phase waited for is the one asked for, else the configured one, else updateContent. |
| LifecycleHooks.FailureEnds | internal/lifecycle/hooks.go:136-149 | A failure in the first phases ends the run. |
| ParallelCommands.ExecuteCommand | internal/lifecycle/hooks.go:182-224 | An empty command is not run; named commands end in the failure of the least name. |
| ParallelCommands.CommandLaws | internal/lifecycle/hooks.go:247-262 | A line is run as it stands, an ASCII list as a line that splits into its arguments, null not at all. |
| ParallelCommands.ChainedText | internal/lifecycle/hooks.go:263-275 | An object inside an object is its commands that are not empty, joined by &&. |
| ParallelCommands.ExecuteParallel | internal/lifecycle/hooks.go:199-222 | However the scheduler ran the commands, the failure is that of the least failing name. |
| ParallelCommands.CollectErrors | internal/lifecycle/hooks.go:200-214 | Each command's error lands in its own place, whatever the interleaving. |
| ParallelCommands.WaitCompletes | internal/lifecycle/hooks.go:200-215 | When the wait returns, however the goroutines were scheduled, no command has been run twice and every one that is not empty has come to its end, also after another failed. |
| ParallelCommands.EachRunsOnce | internal/lifecycle/hooks.go:203-215 | So each command that is not empty has begun once and ended once, in that order. |
| ParallelCommands.CanGoOn | internal/lifecycle/hooks.go:200-215 | Until the wait returns some step can be taken. |
| ParallelCommands.RunsEnd | internal/lifecycle/hooks.go:200-215 | No schedule goes on for more than three steps a command and one, and then the wait is over. |
| ParallelCommands.ScheduleIrrelevant | internal/lifecycle/hooks.go:199-222 | The result depends on how the commands end, not on how they interleave. |
| LifecycleMarkers.MarkerFolder.MarkerShouldRun | internal/cli/up.go:1390-1400 | The marker and the answer after each outcome of the shell command, including a failed write and a lost reply. |
| LifecycleDue.DueIff | internal/cli/up.go:1390-1400 | A hook is due exactly when its time is not known, or the marker (ENOENT when missing, the time when empty) differs from it and could be written and answered for. |
| LifecycleDue.MarkerAfter | internal/cli/up.go:1390-1400 | A hook that was due has its time in the marker afterwards; any other marker is as it was. |
| LifecycleMarkers.DropRanHooks | internal/cli/up.go:1342-1359 | Every hook is asked for in order and the fields of the hooks that are not due are cleared. |
| LifecycleMarkers.ApplyLifecycleMarkers | internal/cli/up.go:1327-1335 | Nothing happens without a home folder. |
| LifecycleDue.FirstRunKeepsAll | internal/cli/up.go:1327-1359 | The first run in a container without markers keeps all hooks. |
| LifecycleDue.KeptWholeOrDropped | internal/cli/up.go:1342-1359 | Each marked hook is kept whole or dropped; postAttach, the origins and waitFor stay. |
| LifecycleMarkers.AskedTurn | internal/cli/up.go:1342-1359 | Each hook is judged by the marker it had before the run. |
| LifecycleMarkers.KeptOnce | internal/cli/up.go:1327-1400 | Once a hook was due, or was marked without trouble, a later run keeps it exactly when it finds no home folder, or is a prebuild and the hook is updateContent. |
| LifecycleMarkers.AtMostOneStart | internal/cli/up.go:1327-1400 | Over any history of runs and restarts with a home folder and known times: onCreate and postCreate are started by at most one run, updateContent by at most one outside prebuilds, postStart by at most one per start. |
| LifecycleDue.ExactlyOneKeeps | internal/cli/up.go:1327-1400 | Over the runs of one container, or of one start of it for postStart, exactly one keeps each hook: the first. |
| LifecycleDue.KeptIffNewTime | internal/cli/up.go:1327-1400 | Over any history a run keeps a hook exactly when no run came before it, or the last one at another time. |
| LifecycleDue.RestartKeepsPostStart | internal/cli/up.go:1327-1400 | After a restart at a new time the next run keeps postStart again, and no other hook. |
| LifecycleDue.KeptIsStarted | internal/cli/up.go:1327-1400 | A hook that is kept and within the plan is started when nothing fails. |
| LifecycleMarkers.NeverMadeUp | internal/cli/up.go:1342-1359 | A hook that a run marked but did not get to is started by no later run. |
| LifecycleMarkers.UnmarkedRepeats | internal/cli/up.go:1327-1333 | Without a home folder, or with no time known, the same run does the same again. |
| MetadataMerger.MergeConfiguration | internal/imagemeta/merge.go:58-173 | Each of the eight scalars, and each key of the two environments and of portsAttributes, has the value of the last entry that sets it; entrypoints, customizations, capabilities and security options come in the order of their entries; in all it is the left fold of the entries that set something. |
| MetadataMerger.MergeCollections | internal/imagemeta/merge.go:75-116 | The forward pass: commands with origins, lists, maps and all mounts. |
| MetadataMerger.MergeFlags | internal/imagemeta/merge.go:118-131 | init and privileged hold exactly when some entry asks for them. |
| MetadataMerger.MergeScalars | internal/imagemeta/merge.go:133-160 | The reverse scan finds the last entry that sets each scalar. |
| MetadataMerger.DedupeMountsByTarget | internal/imagemeta/merge.go:205-217 | The map of last places keeps the last mount of each target, in order. |
| MetadataMerger.MergeHostRequirements | internal/imagemeta/merge.go:379-418 | The maximum of each requirement, minus infinity of no entries, and nothing at all when every maximum is zero. |
| MetadataMerger.AppendMissing | internal/imagemeta/merge.go:454-466 | The loop over the seen set appends what is missing. |
| MetadataMerger.AppendUniqueLaws | internal/imagemeta/merge.go:454-466 | The result is the union, with the old list in front and no new item twice. |
| MetadataMerger.NonEmptyEntries | internal/imagemeta/merge.go:471-479 | Drops exactly the entries that set nothing. |
| MetadataMerger.GroupCustomizations | internal/imagemeta/merge.go:108-113 | Each value goes under its key, whatever the order the keys come in. |
| MetadataWinners.MergedScalarsWin | internal/imagemeta/merge.go:133-160 | A scalar is unset exactly when no entry sets it, and else that of an entry after which none sets it. |
| MetadataWinners.MergedMapsWin | internal/imagemeta/merge.go:103-116 | The same for every key of containerEnv, remoteEnv and portsAttributes. |
| MetadataWinners.MergedLists | internal/imagemeta/merge.go:91-113 | Entrypoints are all kept in order, customizations grouped by key in order, capabilities and security options kept where they first come. |
| MetadataWinners.MountTargetIs | internal/imagemeta/merge.go:184-203 | The target of a mount: that of an object; of a text, of the first part that names one, or the text itself. |
| MetadataWinners.ByteCounts | internal/imagemeta/merge.go:316-343 | A byte count is digits times 1, 2^10, 2^20, 2^30 or 2^40. |
| MetadataWinners.NoByteCount | internal/imagemeta/merge.go:316-343 | Anything else counts for nothing. |
| MetadataWinners.OriginIs | internal/imagemeta/merge.go:78-78 | A command comes from the Feature of its entry, or else from the configuration. |
| MetadataWinners.BroughtIs | internal/imagemeta/merge.go:79-84 | A hook takes every command but null and the empty string. |
| MetadataWinners.EmptyIff | internal/imagemeta/merge.go:471-479 | An entry is empty exactly when it sets nothing, null commands aside. |
| MetadataMerger.CollectCommand | internal/imagemeta/merge.go:79-84 | A command and its origin are recorded together, or neither. |
| MetadataMerger.MountsFold | internal/imagemeta/merge.go:205-217 | Removing earlier mounts at the end is letting each mount take the place of its target in turn. |
| MetadataMerger.HooksFold | internal/imagemeta/merge.go:75-89 | The commands of a hook are what the entries bring, in order. |
| MetadataMerger.HookOrigins | internal/imagemeta/merge.go:45-48 | The i-th command that is run of a hook keeps the origin of the entry it came from. |
| MetadataMerger.RequiredBounds | internal/imagemeta/merge.go:379-418 | No entry requires more than the merged configuration. |
| MetadataMerger.RequiredAttained | internal/imagemeta/merge.go:379-418 | Each merged requirement is zero or that of an entry. |
| MetadataMerger.DroppedIffNoneAsk | internal/imagemeta/merge.go:404-406 | Requirements are dropped exactly when there are entries and none of them asks for anything. |
| MetadataMerge.ScalarsFromTheEnd | internal/imagemeta/merge.go:133-160 | The fold's scalars are those the search from the end finds. |
| MetadataMerge.KeptIff | internal/imagemeta/merge.go:205-217 | A mount is kept exactly when no later one has its target. |
| MetadataMerge.KeptDistinct | internal/imagemeta/merge.go:205-217 | No two kept mounts have the same target. |
| MetadataMerge.EmptyEntriesDropped | internal/imagemeta/merge.go:471-479 | Dropping entries that set nothing makes no difference as long as one is left. |
| ShellWords.SplitShellWords | internal/cli/compose_up.go:89-126 | The scan by index is the splitter's step taken for each character. |
| ShellWords.BlankEndsWord | internal/cli/compose_up.go:89-126 | A blank, a tab or a line break ends a word. |
| ShellWords.DoubleQuotesKeep | internal/cli/compose_up.go:89-126 | Double quotes keep blanks and single quotes, and make a word of nothing. |
| ShellWords.BackslashKeeps | internal/cli/compose_up.go:89-126 | A backslash keeps the next character, outside quotes and in double ones. |
| ShellWords.LineSplits | internal/cli/compose_up.go:89-126 | Splitting quoted arguments gives them back with each byte written as a rune. |
| ShellWords.SplitUndoesQuote | internal/lifecycle/hooks.go:247-289 | Splitting undoes quoting exactly when all arguments are ASCII; empty ones are kept. |
| ShellWords.QuoteText | internal/lifecycle/hooks.go:284-289 | An argument is put between single quotes, a quote in it written outside them. |
| PathMerge.MergePaths | internal/lifecycle/probe.go:114-126 | The loop with its insertion point gives the merged list. |
| PathMerge.MergeLaws | internal/lifecycle/probe.go:114-126 | The shell's path is a subsequence of the result; exactly the missing permitted entries are added; none is doubled. |
| PathMerge.SbinIff | internal/lifecycle/probe.go:128-131 | What only root gets are the paths that go through a directory sbin below their first one. |
| PathMerge.MergeInOrder | internal/lifecycle/probe.go:117-125 | Entries placed before the insertion point and common ones after it stay in order. |
| PathMerge.MergeIsSupersequence | internal/lifecycle/probe.go:110-126 | For lists without repetitions the container's wanted entries are a subsequence of the result exactly when both lists agree on the order of their common entries. |
| PathMerge.MergeTwice | internal/lifecycle/probe.go:114-126 | Merging again gives the same text. |
| Strings.SplitJoin | internal/lifecycle/probe.go:115-125 | Splitting and joining a list loses nothing. |
| Strings.ComparesLexically | internal/features/order.go:185-303 | Strings are compared character by character, a prefix coming first. |

## Left out

- DockerResolver.Resolver.FindValue: requires a lookup that returns, which those from a stage that settles always do (DockerCycles.SettledReturns); where it does not, the program recurses without end. The forward evaluation is defined only where the chain of FROM settles.
- DockerResolver.Resolver.Replace: requires the same of the lookups for the text.
- DockerResolver.Resolver.FindUserStatement: requires the same of the lookups for the USER that is found.
- FeatureGraph.BuildIsClosed: the processing of a Feature is a deterministic function with a finite closure of (id, options) pairs; where it has none the program need not end.
- FeatureInstaller.ResolveDependencyGraph: requires the same finite closure.
- FeatureOrdering.SortNodes: Go's stable sort is modelled as the insertion it does on lists of up to twenty. Where the comparison is transitive every stable sort gives this result (RoundSort.StableSortIsUnique); where it is not, longer rounds may come out in another order.
- RoundSort.SortsIffTransitive: that it fails without transitivity is about this insertion sort; RoundSort.RoundNotSorted has three nodes.
- Lockfile.Store.WriteLockfile: the file's bytes are its decoded text, so only lockfiles of valid Unicode strings are covered; the mode of the file and LockfilePath are not modelled.
- JsonNormal.NormalizedTwice: how Go formats a number is an unknown function, assumed to leave its own results alone; lockfiles have no numbers, so StringifyNormal needs no assumption.
- JsonNormalizer.Normalizer.NormalizeMembers: the source's one recursive function is three methods here, for a value, a member and the members; Go's decoder splits the text lazily, which makes no difference to what is written.
- JsValues.Decoder.ParseValue: reads tokens, not characters; numbers, true, false and null are opaque.
- Substitution.SecondPass: goes one way only; the other half is false (SubstitutionPhases.OwnTagIsUnstable).
- SubstitutionPhases.PhasesTwice: requires that nothing joins up in the host phase or in both phases together, and the same host values in both runs. A map of the configuration is a list of entries in the order they are visited, and on Windows the environment is a list in which the last name wins, since Go visits maps in any order.
- LifecycleHooks.RunHooks: an entry's outcome is an arbitrary function of what ran before it; ParallelCommands says what one entry does. Logging is omitted.
- LifecycleMarkers.AtMostOneStart: runs are one after the other, nothing else writes the marker files, and the container's user keeps one home folder.
- ParallelCommands.ExecuteParallel: takes as ghost arguments the steps the scheduler chose; a command that never ends keeps the wait from returning, here as in the program. The names of an object are a sorted list.
- ParallelCommands.ExecuteCommand: an object inside an object is joined in the order listed, which Go does in any order.
- MetadataMerger.MergeConfiguration: the result is built in variables and returned as a value. forwardPorts and gpu requirements are left out: what they merge to is decided by how JavaScript writes and reads floating point numbers.
- MetadataMerger.MergeHostRequirements: byte counts are exact and cpus are real numbers, without float64 rounding or overflow to infinity.
- MetadataMerger.DroppedIffNoneAsk: for entries without a gpu requirement, which keeps the others from being dropped.
- ShellWords.SplitUndoesQuote: is exact; the arguments are byte strings, so one that is not ASCII is shown to grow.
- V8Json.SyntaxErrorOf: the wording of the messages is not modelled: which message it is, its position, line and column and the text it quotes are values.
- The collation of Feature ids is an arbitrary function that lists them.
- SHA-256 and the labels hashed for a dev container id: the id is a parameter.
- The regular expression that finds references in a Dockerfile: templates are given as pieces. BuildKit's parser is not part of this model.
- ReadLockfile, GenerateLockfile and the text of file system errors: reading is left to the decoder of Go's library, and writing goes through the functions above.
- Docker, Compose and registry calls, HTTP, credentials, archives and temporary folders: I/O around code that is foreign to the repository.
- Cobra commands, output, logging handlers, doctor and devtools: they hand arguments on and print results, with no algorithm of their own.
- Generated shell and Dockerfile text: templating.
