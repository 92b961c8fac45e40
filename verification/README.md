# Verified model of the NeoFS SDK cores

A Dafny model of the algorithmic cores of the NeoFS client SDK for Go, with proofs of what they keep:

- the payload slicer, which cuts a stream of writes into chained objects that share mutable headers
  (`Objects`, `SlicerSpec`, `Slicer`, `SlicerTheorems`);
- the reader that finds the parts of a split object again (`Relations`), and that it undoes the slicer (`Recovery`);
- the placement engine: filters, selectors and the nodes of a container
  (`Netmap`, `Filters`, `FilterLoops`, `FilterMeaning`, `Selection`, `SelectionMeaning`, `Placement`, `Containers`);
- the policy query language: printer, parser and visitor
  (`PolicyLanguage`, `PolicyRoundTrip`, `PolicyExact`, `VisitorMeaning`, `Grammar`, `QueryGrammar`);
- the alias sampler, the choice of a client and the error counter of a connection pool (`Sampler`, `Pool`);
- buffered streams and chunked upload (`Streams`, `Upload`), slicing a download (`Copying`);
- nested signatures of service messages (`Signing`).

Code that updates state step by step is modelled by classes, arrays and loops, each proved against a
specification function or predicate; the main results are lemmas about those specifications.

`dafny verify dfyconfig.toml` checks everything.

## How the model idealises

- A checksum names the bytes it was taken over, an object identifier the header it was taken over, a signature
  its key and its data. Equal names therefore mean equal contents.
- HRW sorting, sorting by attribute and Go map iteration are arbitrary permutations (`Selection.Permutes`); every
  placement result holds for all of them.
- Random numbers of the sampler are parameters; probabilities are lengths of intervals of draws, over exact reals.
- An object stream takes a number of objects that is a parameter and then fails; a header is recorded as a value
  at the moment it is handed over, so later writes to a shared header do not change what was stored.
- The servers of the chain reader are finite maps from identifiers to replies.

## Where the code and its documentation differ

- `object/slicer/slicer.go:337` says that every round consumes bytes; the round after a buffer was filled exactly
  consumes none, and the recursion ends nevertheless (`Slicer.PayloadWriter.Write`).
- `object/slicer/slicer.go:174-189` drops the bytes a reader returns together with the end of the data, which the
  reader contract of Go allows (`SlicerTheorems.ReaderKeptIffCleanEnd`, `Copying.CopyObject`).
- `object/slicer/slicer.go:412-413` writes the first child of a split under the caller's own header: it carries no
  split identifier of the run, but whatever split fields that header came with (`SlicerTheorems.ChildExact`). If
  these name a predecessor, the backward walk goes on beyond the object (`Recovery.PartsAreChainIff`). A header that still has an identifier and a signature is stored
  unchanged as the first child, with metadata that is not its own (`SlicerTheorems.FirstChildExactIffNotPreset`).
- `netmap/filter.go:71` overwrites a filter of the same name, so an accepted policy can refer to itself and its
  evaluation does not end (`FilterLoops.RedefinitionNeverEnds`). `FilterLoops.EndsIffWalks` says exactly when it ends.
- `netmap/netmap.go:209-210` shadows the replica index: one unnamed replica adds selections to the lines of other
  replicas (`Containers.NamedLineExactIff`, `Containers.WrongLines`), or indexes beyond the result
  (`Containers.IndexOverrun`).
- `netmap/selector.go:114-121` divides by the number of buckets: a selector that asks for no bucket over ungrouped
  nodes with backup factor one makes it divide by zero (`Selection.NoBuckets`). The panic is an
  outcome of its own.
- `netmap/policy.go:684-688`: `FILTER @B AS A` is accepted by the parser, yet means nothing and is rejected when the
  policy is applied (`VisitorMeaning.AcceptedStatementKeepsMeaning`).
- `netmap/policy.go:365-518` prints neither parentheses nor quotes, so only canonical policies can be read back
  (`PolicyExact.RoundTripIffCanonical`).

## Model

| member | source | states |
|---|---|---|
| Objects.ChunksAreChunked | object/slicer/slicer.go:301-349 | cutting into chunks loses nothing: they concatenate to the data, all but the last are full, and a last one after the first is not empty |
| Objects.ChunkingUnique | object/slicer/slicer.go:301-349 | there is only one way to cut data so, hence the result cannot depend on how the bytes arrived |
| Objects.ChunkCount | object/slicer/slicer.go:301-349 | there are max(1, ceil(length/limit)) chunks, and more than one exactly when the data exceeds the limit |
| SlicerSpec.LeadingIsPrefix | object/slicer/slicer.go:301-340 | what a run stored before its end is a proper prefix of what every longer run with the same start stores |
| Slicer.Header.NeedSplit | object/object.go:78-88 | creates the split part of a header once and keeps it afterwards |
| Slicer.Header.SetSplitID | object/object.go:514-518 | sets the split identifier and nothing else |
| Slicer.Header.SetPrevious | object/object.go:384-400 | sets or clears the previous identifier and nothing else |
| Slicer.Header.SetParentID | object/object.go:538-555 | sets or clears the parent identifier and nothing else |
| Slicer.Header.SetChildren | object/object.go:425-439 | sets the children and nothing else |
| Slicer.Header.SetParent | object/object.go:582-588 | links the parent: its identifier and signature are copied, its header is shared |
| Slicer.Header.ClearParent | object/object.go:582-588 | with no parent: clears identifier, signature and header link |
| Slicer.Recorder.Put | object/slicer/slicer.go:484-518 | stores a snapshot of the header with the payload, or fails and stores nothing |
| Slicer.FlushObjectMetadata | object/slicer/slicer.go:441-482 | writes length and checksums of the accumulated bytes into the header, then the identifier and signature over exactly that header |
| Slicer.WriteInMemObject | object/slicer/slicer.go:484-518 | stores the object, forming its metadata first unless it already has an identifier and a signature |
| Slicer.PayloadWriter.constructor | object/slicer/slicer.go:214-266 | a new writer is valid: nothing accepted, nothing stored |
| Slicer.PayloadWriter.WriteBase | object/slicer/slicer.go:540-562 | buffer, whole-payload and per-child accumulators all advance by the same bytes |
| Slicer.PayloadWriter.WriteLimited | object/slicer/slicer.go:596-612 | consumes what fits, never exceeds the limit, and reports overflow exactly when bytes are left over |
| Slicer.PayloadWriter.FormSplit | object/slicer/slicer.go:377-390 | resets the shared stub header and gives it the split identifier and the immediate predecessor, whatever an earlier child left in it except children |
| Slicer.PayloadWriter.StoreFirst | object/slicer/slicer.go:412-413 | the first child of a split is stored under the caller's header |
| Slicer.PayloadWriter.StoreChild | object/slicer/slicer.go:414-422 | a later child is stored under the stub header with its own payload metadata |
| Slicer.PayloadWriter.WriteIntermediateChild | object/slicer/slicer.go:365-422 | appends exactly the specified object to the stream and its identifier to the children, or changes neither |
| Slicer.PayloadWriter.WriteLinkingObject | object/slicer/slicer.go:424-436 | stores the linking object: no payload, no predecessor, all children |
| Slicer.PayloadWriter.WriteLastParts | object/slicer/slicer.go:376-439 | stores the last child and the linking object; the stream always holds a prefix of the specified run |
| Slicer.PayloadWriter.WriteLastChild | object/slicer/slicer.go:372-439 | finishes a whole or a split object and sets the root identifier to the hash of the root header over the whole input |
| Slicer.PayloadWriter.StoreFirstBuffer | object/slicer/slicer.go:312-323 | the first full buffer turns the object into a split one |
| Slicer.PayloadWriter.StoreFullBuffer | object/slicer/slicer.go:312-335 | a full buffer becomes the next object and an empty buffer with reset child metadata follows, the input unchanged |
| Slicer.PayloadWriter.Write | object/slicer/slicer.go:301-340 | terminates by (bytes left, buffer full or not); accepts all bytes in order, or fails holding exactly the leading objects of the data |
| Slicer.PayloadWriter.Close | object/slicer/slicer.go:344-349 | succeeds if and only if the stream takes all objects; the stored objects are the specified run of the accepted bytes, a prefix of it on failure |
| Slicer.InitPayloadStream | object/slicer/slicer.go:154-266 | fails exactly when container or owner is missing; otherwise prepares the caller's header in place and returns a valid writer with the caller's limit, or one mebibyte |
| Slicer.WriteNext | object/slicer/slicer.go:301-340 | one of many writes: afterwards the input so far is accepted, or a proper prefix of the whole run is stored and the stream is full |
| Slicer.WriteAll | object/slicer/slicer.go:301-349 | any sequence of writes and a close store the run of the concatenated bytes, however they were cut into writes |
| Slicer.Drain | object/slicer/slicer.go:173-195 | the loop over a reader stores the run of the bytes read before the end |
| Slicer.Slice | object/slicer/slicer.go:154-198 | the same from a caller's header and options: objects cut at the limit the caller gave, headers with the options' epoch and session; every failure distinguished and a prefix of the run stored on failure |
| SlicerTheorems.PayloadKept | object/slicer/slicer.go:301-349 | payloads of the data objects concatenate to the input, are full but the last, are max(1, ceil(n/limit)) many, and a linking object follows exactly when the input exceeds the limit |
| SlicerTheorems.SlicedInjective | object/slicer/slicer.go:301-349 | different inputs are stored differently |
| SlicerTheorems.ReaderKeptIffCleanEnd | object/slicer/slicer.go:174-189 | a sliced reader is stored whole if and only if it returns no bytes along with the end |
| SlicerTheorems.ChildExact | object/slicer/slicer.go:376-422 | every field of every child of a split run: own metadata, predecessor and split identifier after the first, parent only in the last, the caller's split fields only in the first, no leak from an earlier child |
| SlicerTheorems.FirstChildExactIffNotPreset | object/slicer/slicer.go:484-518 | the first child of every split run describes itself if and only if the caller's header lacked an identifier or a signature |
| SlicerTheorems.PartDepth | object/slicer/slicer.go:388-390 | part i leads back through exactly i more predecessors than the first part |
| SlicerTheorems.PartsDistinct | object/slicer/slicer.go:388-390 | no two parts share an identifier, so the chain cannot loop |
| SlicerTheorems.RootAndLinkDistinct | object/slicer/slicer.go:391-436 | root, linking object and parts all have different identifiers |
| SlicerTheorems.CutAtCallersLimit | object/slicer/slicer.go:154-159 | over the caller's options: all data objects but the last have exactly `payloadLimit` bytes (1048576 if none is given), there are max(1, ceil(n/limit)) of them, and they concatenate to the data |
| SlicerTheorems.MadeForCaller | object/slicer/slicer.go:222-245 | version, epoch, container, owner, session, attributes, type, signing key, split identifier and homomorphic checksum of every stored object, from the caller's header and options |
| Relations.FindSiblings | object/relations/relations.go:70-85 | scanning the search result by loop gives what the recursive scan gives: the first linking object wins, otherwise the last part seen |
| Relations.LinkedWithinChain | object/relations/relations.go:222-247 | every backward path from the last part is a suffix of the chain |
| Relations.ChainUnique | object/relations/relations.go:97-123 | a last part has at most one chain |
| Relations.ChainHasNoDuplicates | object/relations/relations.go:97-123 | a chain never repeats an identifier |
| Relations.NoChainWhenStuck | object/relations/relations.go:105-120 | a backward path that runs into a missing header or into itself proves that no chain exists |
| Relations.Walk | object/relations/relations.go:97-123 | the backward walk ends on every finite store and returns the chain if and only if one exists; otherwise it reports the missing header or the repetition |
| Relations.Get | object/relations/relations.go:51-123 | children through the linking object when it is known, otherwise by the walk, otherwise the right error |
| Recovery.PartsAreChainIff | object/slicer/slicer.go:388-413 | the stored parts of a split run form the chain that ends in the last part if and only if the caller's header names no predecessor |
| Recovery.ScanFinds | object/relations/relations.go:70-85 | the scan finds the linking object if it is listed, in whatever order and repetition |
| Recovery.ReaderRecoversParts | object/relations/relations.go:51-123 | over every store that holds a split run the reader returns exactly the written parts in order: by linking object for every header, by walk for headers without predecessor |
| Recovery.WholeObjectHasNoChain | object/relations/relations.go:51-59 | an object that was not cut has no children if and only if the caller's header carried no split identifier |
| Recovery.StoredRunServes | object/slicer/slicer.go:376-439 | the objects of a run can be stored by identifier without overwriting each other |
| Recovery.WriteThenRead | object/relations/relations.go:51-123 | writing any input in any pieces, storing it and reading the chain gives back the parts, whose payloads concatenate to the input |
| Filters.AcceptedIffEach | netmap/filter.go:15-23 | the filters of a policy pass if and only if each is accepted after those before it |
| Filters.NoErrorIffAcceptable | netmap/filter.go:25-75 | a filter has no error if and only if it is acceptable: proper names, known references, numbers of at most 64 bits |
| Filters.AcceptedIsLegal | netmap/filter.go:25-75 | an accepted filter refers only to earlier filters and compares only with numbers |
| Filters.NumbersCached | netmap/filter.go:48-68 | every number the evaluation of an accepted filter needs was cached |
| Filters.NumbersParsed | netmap/filter.go:58-64 | every cached number is the value of its text |
| Filters.UsableExtends | netmap/filter.go:25-75 | one more accepted filter, also one that replaces another, keeps every stored filter's numbers cached and right |
| Placement.Context.SetCBF | netmap/context.go:71-77 | the backup factor defaults to three and is never zero |
| Placement.Context.ProcessFilter | netmap/filter.go:25-75 | reports the first error of the filter tree, and otherwise extends both caches by exactly what the filter brings |
| Placement.Context.ProcessFilters | netmap/filter.go:15-23 | reports exactly the first error of the filters; success leaves the last definition of every name and all numbers their evaluation needs |
| Placement.Context.MatchKeyValue | netmap/filter.go:102-142 | comparing through the number cache equals comparing with the parsed value |
| Placement.Context.Match | netmap/filter.go:80-100 | the short-circuit evaluation through the caches terminates and gives the answer of the walk wherever that has one |
| FilterLoops.EndsIffWalks | netmap/filter.go:80-100 | for every set of definitions, filter and node, evaluation ends if and only if its left-to-right walk meets no name that is being evaluated, and then gives the answer of the walk |
| FilterLoops.EndsWalk | netmap/filter.go:80-100 | an evaluation that ends never follows a reference to a name still being evaluated |
| FilterLoops.WalkEnds | netmap/filter.go:80-100 | a walk with an answer is an evaluation that ends within a number of nested calls |
| FilterLoops.CompiledWalks | netmap/filter.go:80-100 | definitions with different names that refer only backwards: every walk has the plain meaning (AND is all, OR is some) as its answer |
| FilterLoops.DistinctNamesEnd | netmap/filter.go:15-100 | accepted filters with different names are evaluated to their plain meaning in finitely many calls |
| FilterLoops.RedefinitionMayEnd | netmap/filter.go:70-72 | different names are not necessary: a redefined name without a cycle is evaluated |
| FilterLoops.RedefinitionNeverEnds | netmap/filter.go:70-72 | a policy with a redefined name passes all checks and is not evaluated within any number of calls |
| FilterMeaning.NumbersCompare | netmap/filter.go:102-142 | on a node whose attribute is the number n, a filter against v matches if and only if n > v, n >= v, n < v or n <= v, for all numbers of 64 bits |
| FilterMeaning.AbsentPriceIsZero | netmap/filter.go:111-115 | a node without price or capacity is compared as one with zero |
| FilterMeaning.NoNumberNoMatch | netmap/filter.go:116-125 | an attribute that is absent, no number or too large matches no numeric filter |
| FilterMeaning.TextsCompare | netmap/filter.go:103-107 | EQ and NE compare the texts, an absent attribute being empty |
| FilterMeaning.NumericAcceptedIff | netmap/filter.go:57-64 | a numeric filter is accepted if and only if its number has at most 64 bits |
| Selection.LargeCount | netmap/selector.go:60-65 | groups with at least n nodes number as many as attribute values shared by n nodes, however they were grouped |
| Selection.GroupedPermuted | netmap/selector.go:67-81 | grouping survives every reordering |
| Selection.SplitGroups | netmap/selector.go:83-94 | one pass separates the groups that can be filled from those merely large enough |
| Selection.EnoughCandidates | netmap/selector.go:96-102 | enough buckets are left if and only if enough groups have the required number of nodes |
| Selection.CandidatesByValue | netmap/selector.go:83-125 | any choice from the ordered candidates: nodes of one value per bucket, different values, sizes within bounds, all full if enough full groups exist |
| Selection.TopUp | netmap/selector.go:114-122 | dealing the rest round robin and stopping at the first full bucket deals min(candidates, count*max) nodes with sizes differing by at most one |
| Selection.DealtIsSelected | netmap/selector.go:114-122 | the buckets so dealt are disjoint parts of the matching nodes |
| Selection.SelectFlat | netmap/selector.go:114-125 | the whole selection without attribute, including the one division by zero |
| Selection.NoBuckets | netmap/selector.go:114-122 | asking for no bucket divides by zero exactly when the backup factor is one and some node matches |
| Selection.DistinctNamesPass | netmap/selector.go:142-143 | with different filter names the nodes that pass are those the filter means |
| Selection.SelectedNothingIff | netmap/selector.go:59-125 | a selection is empty if and only if the selector asks for no node |
| Selection.SelectedPass | netmap/selector.go:59-125 | every selected node is in the network map and passes the selector's filter |
| SelectionMeaning.PossibleIff | netmap/selector.go:39-46 | enough nodes, said clause by clause: for SAME one value shared by `count` nodes, otherwise `count` values |
| SelectionMeaning.ResultAnswers | netmap/selector.go:39-125 | every outcome: SAME gives one bucket of at least `count` nodes that share a value, any other clause `count` buckets of pairwise different values; no node twice; sizes within the backup factor; failure exactly when impossible |
| Selection.Choose | netmap/selector.go:63-125 | for every ordering the selection succeeds if and only if enough groups are large enough, and returns what the specification asks for |
| Placement.Context.FilterNodes | netmap/selector.go:142-143 | the nodes that match the filter, in network map order |
| Placement.Context.GroupByValue | netmap/selector.go:147-150 | one entry per attribute value, holding exactly its nodes |
| Placement.Context.EnumerateGroups | netmap/selector.go:154-164 | listing the map in any order and sorting each group in any way gives a grouping of the nodes |
| Placement.Context.GetSelectionBase | netmap/selector.go:134-167 | the matching nodes grouped by attribute, or one by one without attribute |
| Placement.Context.GetSelection | netmap/selector.go:59-125 | the selection of one selector meets the specification, and answers the clause and count asked for, for every ordering |
| Placement.Context.ProcessSelector | netmap/selector.go:13-32 | one more selector: unknown filter, too few nodes or division by zero, each exactly when it happens, or its correct selection stored under its name |
| Placement.Context.ProcessSelectors | netmap/selector.go:12-35 | succeeds if and only if every selector uses a known filter and finds enough nodes; then each name holds a correct selection of its last selector, otherwise the failure is that of the first selector at fault |
| Containers.ValidatePolicy | netmap/policy.go:762-786 | accepts if and only if all filter and selector names used are defined |
| Containers.FlattenNodes | netmap/netmap.go:129-143 | joins the buckets in order |
| Containers.AddSelections | netmap/netmap.go:209-211 | what an unnamed replica does to all lines, and when it runs beyond them |
| Containers.LinesBySelector | netmap/netmap.go:191-222 | each line as a function of the policy and the stored selections, or the failure of the first replica at fault |
| Containers.ServeReplica | netmap/netmap.go:194-207 | one replica of a policy without selectors: min(nodes, count*factor) nodes of the map, none twice, exactly when there are `count` nodes |
| Containers.LinesByDefault | netmap/netmap.go:193-207 | without selectors each line is as said for its replica, or the failure is that of the first replica at fault |
| Containers.ContainerNodes | netmap/netmap.go:175-225 | exactly when the filter and selector stages fail and with which error; a valid policy with accepted filters fails only for lack of nodes, the division by zero or the index overrun; the lines otherwise, for every ordering |
| Containers.NamedLineExactIff | netmap/netmap.go:191-222 | the line of a named replica is its selection if and only if no unnamed replica exists, no selector stands at its position, or the last selector of that name asks for no node |
| Containers.LineIs | netmap/netmap.go:191-222 | every line exactly: the selection at its position once for every unnamed replica, and for a named replica its own selection at its turn |
| Containers.SingleLine | netmap/netmap.go:209-211 | the only replica, unnamed, gets the selection of the only selector |
| Containers.LineNodesPass | netmap/netmap.go:191-222 | every node of every line is in the network map and passes the filter of a selector that stands behind the line |
| Containers.WrongLines | netmap/netmap.go:209-210 | a valid policy for which the result is wrong: the named replica gets its node twice, the unnamed one none |
| Containers.IndexOverrun | netmap/netmap.go:209-210 | a valid policy for which the index runs beyond the result |
| PolicyLanguage.QueryWordsReadable | netmap/policy.go:719-741 | words of the query grammar read as identifiers, values or numbers are read back as themselves |
| PolicyLanguage.GrammarWords | netmap/parser/QueryLexer.g4:3-28 | which token every keyword, operator and symbol of the language is |
| PolicyLanguage.FormatReadsBack | netmap/policy.go:365-475 | decimal printing is undone by decimal parsing |
| PolicyLanguage.WriteStringTo | netmap/policy.go:365-475 | the printing loops produce the specified words |
| PolicyRoundTrip.AndReadsBack | netmap/parser/query_parser.go:1392-1524 | a printed conjunction of any arity is read as one left-nested tree at the precedence of AND |
| PolicyRoundTrip.OrReadsBack | netmap/parser/query_parser.go:1392-1524 | a printed disjunction of leaves and conjunctions is read as one left-nested tree |
| PolicyRoundTrip.VisitNested | netmap/policy.go:690-716 | the visitor turns a left-nested tree of one operation into one filter over its parts |
| PolicyRoundTrip.SelectorReadsBack | netmap/policy.go:658-682 | a printed canonical selector is read back |
| PolicyRoundTrip.FilterReadsBack | netmap/policy.go:684-716 | a printed canonical filter is read back |
| PolicyRoundTrip.CanonicalComesBack | netmap/policy.go:365-518 | printing a canonical policy and parsing the words gives the same policy |
| PolicyExact.PolicyPlain | netmap/policy.go:365-518 | no policy whatever is printed with parentheses |
| PolicyExact.ParsedIsNearlyCanonical | netmap/policy.go:583-758 | whatever is read from words without parentheses is canonical up to bare references |
| PolicyExact.FiltersWithBareFail | netmap/policy.go:477-518 | a bare reference is printed in a form that cannot be read |
| PolicyExact.RoundTripIffCanonical | netmap/policy.go:365-518 | for every policy, printing and parsing returns it if and only if it is canonical |
| PolicyExact.QueryRoundTripIffCanonical | netmap/policy.go:583-758 | the same for the words of the query grammar |
| VisitorMeaning.VisitKeepsMeaning | netmap/policy.go:690-716 | for every parse tree, with or without parentheses, merging nested nodes keeps the set of matched nodes |
| VisitorMeaning.AcceptedStatementKeepsMeaning | netmap/policy.go:684-688 | an accepted filter statement means what its expression means; a bare reference matches nothing and is rejected as an invalid operation |
| Grammar.ParsesIffWords | netmap/parser/query_parser.go:1392-1524 | for all tokens, the parser returns an expression and a rest if and only if the tokens are the words of that expression, parentheses included, with AND binding tighter than OR, followed by that rest |
| Grammar.QueryParsesIffWords | netmap/parser/query_parser.go:1392-1524 | the same for the words of the query grammar |
| Grammar.WordsUnambiguous | netmap/parser/query_parser.go:1392-1524 | no two expressions have the same words |
| Grammar.StatementMatches | netmap/policy.go:684-716 | a filter statement with any parentheses is read, and matches the nodes its expression matches |
| QueryGrammar.ParsedIffQuery | netmap/parser/Query.g4:7-46 | for all tokens and policies, the policy is parsed if and only if the tokens are, to the last one, the words of its replicas, backup factor, selectors and filter statements |
| QueryGrammar.QueryParsedIffQuery | netmap/policy.go:583-758 | the same for the words of the query grammar |
| Sampler.ShareIsLength | pool/sampler.go:61-68 | the draws for which a column answers an index are an interval whose length is the share counted in its mass |
| Sampler.TotalMass | pool/sampler.go:61-68 | the answers of the first k columns take up exactly k: every table is a probability distribution |
| Sampler.ReproducedWeightsAreNormalised | pool/sampler.go:16-58 | a table can only reproduce weights that sum to one |
| Sampler.ZeroWeightNeverAnswered | pool/sampler.go:61-68 | an index of weight zero is not answered for any draw |
| Sampler.PairKeepsBalance | pool/sampler.go:38-48 | pairing a small with a large column keeps, for every index, settled mass plus what is still to be placed |
| Sampler.PairKeepsExcess | pool/sampler.go:38-48 | and keeps the total excess of the unfinished columns |
| Sampler.NotAllShort | pool/sampler.go:53-56 | columns that are short cannot be all that is left, so the loop over left-over small columns has nothing to do |
| Sampler.Partition | pool/sampler.go:31-37 | every column is on exactly one list |
| Sampler.PairNext | pool/sampler.go:38-48 | one round of the pairing loop in place does what the round on values does |
| Sampler.PairOff | pool/sampler.go:38-48 | the pairing loop ends with one list empty and all invariants kept |
| Sampler.CloseRest | pool/sampler.go:49-56 | every column left over gets threshold one, the others keep theirs |
| Sampler.ClosedTableMass | pool/sampler.go:38-56 | without excess no small column is left and the masses are the scaled weights |
| Sampler.EndPairing | pool/sampler.go:16-58 | the finished table reproduces the weights if and only if they sum to one |
| Sampler.Build | pool/sampler.go:16-58 | the construction by loops over arrays yields such a table for all weights that are not negative |
| Sampler.AliasSampler.constructor | pool/sampler.go:16-58 | a sampler holds such a table |
| Sampler.AliasSampler.Next | pool/sampler.go:61-68 | the answer of a draw is the specified one and an index of the table |
| Sampler.ReproducedProbability | pool/sampler.go:61-68 | index i is answered with probability equal to its weight |
| Pool.AdjustWeights | pool/pool.go:1618-1631 | division by the sum: a distribution over the same support, or all zero |
| Pool.Rebalance | pool/pool.go:1575-1616 | the sampler built after a health change is for each healthy client's configured weight divided by the sum of the healthy ones' |
| Pool.DrawIsHealthy | pool/pool.go:1575-1616 | after it every draw answers a healthy client with weight |
| Pool.SharesAreDistribution | pool/pool.go:1594-1631 | these shares sum to one and are zero exactly for unhealthy clients and those without weight |
| Pool.SharesKeepProportions | pool/pool.go:1594-1631 | healthy clients keep the proportions of their configured weights |
| Pool.DrawProbability | pool/pool.go:1575-1631 | and a healthy client is drawn with probability its weight divided by the sum of the healthy weights |
| Pool.InnerPool.Connection | pool/pool.go:1644-1663 | the first healthy answer within three attempts per client, an error if there is none |
| Pool.FirstAttemptSucceeds | pool/pool.go:1644-1663 | right after a rebalance the first attempt succeeds |
| Pool.StatusMonitor.SetHealthy | pool/pool.go:799-801 | follows the step of the counters |
| Pool.StatusMonitor.SetUnhealthy | pool/pool.go:803-805 | follows the step of the counters |
| Pool.StatusMonitor.IncErrorRate | pool/pool.go:811-820 | counts, and trips and restarts at the threshold |
| Pool.StatusMonitor.UpdateErrorRate | pool/pool.go:834-860 | counts every result except success, split information and statuses other than the four named ones |
| Pool.RunCounts | pool/pool.go:799-860 | over every run: overall is the number of counted errors, current is overall modulo the threshold, trips are overall divided by it |
| Pool.Play | pool/pool.go:799-860 | any run of events on a monitor leaves the counters of that run |
| Streams.Copy | client/object_search.go:134-140 | copies as much as fits and touches nothing else |
| Streams.StreamReader.Deliver | client/object_get.go:147-150 | delivered data, tail and messages to come stay the original stream |
| Streams.StreamReader.Receive | client/object_get.go:159-195 | a message is only fetched with an empty tail, and only its surplus becomes the next tail |
| Streams.StreamReader.ReadChunk | client/object_get.go:138-196 | fills the buffer with the next elements of the stream, or reports its end after delivering all of it |
| Streams.StreamReader.Read | client/object_get.go:233-251 | which of success, clean end, premature end, failure and overflow is reported, as a function of stream, declared length and buffer size |
| Streams.StreamReader.Iterate | client/object_search.go:146-160 | visits the stream in order up to and including the element that stops it |
| Upload.ObjectWriter.Write | client/object_put.go:141-195 | sends the chunk in messages of at most 3145728 bytes, never an empty one; the count returned is what was received; succeeds if and only if the stream lasts |
| Upload.MessageCountLeast | client/object_put.go:155-192 | as few such messages as can hold the bytes |
| Upload.PutThenGet | client/object_put.go:141-195 | all writes succeed if and only if the stream takes the messages they need; what was sent is then read back into a buffer of any size |
| Copying.ReadThrough | client/object_get.go:233-251 | reading a complete download in buffers of one size gives full buffers and the remainder along with the end |
| Copying.CopyObject | object/slicer/slicer.go:154-198 | slicing such a reader succeeds if and only if the header is complete and the stream takes the objects, cuts at the caller's limit, and keeps the whole payload if and only if its length is a multiple of that limit |
| Signing.ServiceMessage.Sign | client/sign.go:137-197 | wraps the verification header; the body is signed only the first time |
| Signing.ServiceMessage.Travel | client/sign.go:137-279 | signing and any number of rounds of wrapping and signing leave a message that verifies |
| Signing.VerifiedIffAllLevelsSigned | client/sign.go:255-279 | a message verifies if and only if every level has valid meta and origin signatures and only the innermost one a body signature |
| Signing.VerifiedMessageUnique | client/sign.go:213-279 | one verification header fits one body and one chain of meta headers only |
| Signing.OriginFitsOneHeader | client/sign.go:255-279 | verified headers with equal origin signatures have equal inner headers |
| Signing.OutermostFits | client/sign.go:213-279 | messages that verify and agree in their outermost signatures agree in body, meta headers and all inner headers |

## Left out

- RPC calls, contexts, timers, goroutines, dialling, restarts, session caches and statistics callbacks: plumbing around the cores.
- Float64 rounding in the sampler and the weights: exact reals instead, so `pool/sampler.go:53-56` (left-over small columns, a rounding guard) is proved to have no work when the weights sum to one.
- SHA-256, Tillich-Zemor, ECDSA, base58, protobuf and HRW themselves: ideal functions and arbitrary permutations.
- The ANTLR runtime, error recovery, quoted strings and lexing of raw text: the language is modelled on tokens. A printed word that is not a single token counts as unreadable, and a policy with such a word is not canonical.
- Integer widths outside the policy language: payload lengths, `nodesInBucket * cbf` and the error counters do not overflow in the model.
- Sharing of the hash state between copies of the payload metadata (`object/slicer/slicer.go:522-562`): metadata is a value; the code resets a shared copy only after its last use.
- Slicer.InitPayloadStream: the split fields a caller's header came with are a value; nobody else changes them during the run.
- Slicer.PayloadWriter.Close: the writer is not used after it, as its documentation asks.
- Slicer.Recorder.Put: failures of signing and of the object stream are one failure after a given number of objects.
- Relations.Get: a search by parent answers with a list or fails; the fallback between raw and plain head requests is part of the reply maps.
- Placement.Context.Match: requires that the walk over the filter has an answer, which is exactly when the code does not recurse for ever (`FilterLoops.EndsIffWalks`), and registered nodes, because the accessors called at `netmap/filter.go:112-115` panic on a price or capacity that is no number.
- Containers.ContainerNodes: the same for the filters of all selectors up to the first one at fault; `processedSelectors`, which is written and never read, is not modelled.
- Sampler.Build: requires weights that are not negative.
- Pool.InnerPool.Connection: the random numbers of all attempts are given in advance; the lock around the sampler is not modelled.
- Streams.StreamReader.Read: a stream is a list of messages and an end that repeats; the three readers of the client share one model, the identifier lists without a declared length.
- `DecodeString` validates the receiver's old value (`netmap/policy.go:549`); validation is modelled for `validatePolicy` itself.
- `adjustNodeParams`, `PlacementVectors`, the weight aggregators, message wrappers, getters and setters, JSON and binary forms, statuses, tokens, access control, `audit`, `waiter`, `stat`: they would only add easy members.
