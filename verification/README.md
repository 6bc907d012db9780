# A verified model of the jQuery 1.10.2 core shipped with the sample service

The sample service ships `jquery-1.10.2.js`; its algorithmic parts are the Sizzle selector engine, the callback lists
with Deferred and `when`, and a few registries that live as long as the page. This project models those parts in Dafny
and proves what the library relies on.

**Selector engine.** A selector group means: some chain of nodes satisfies its filters and combinators and is rooted in
the context (`Selectors`, with the combinators spelled out in `Combinators`). `Compilation` turns groups into nested
matchers with that meaning; `Evaluation` says what calling them does, as a function of the marks that ancestor and sibling searches leave on the nodes, and proves that
for each candidate the answer is the cache-free one. `Search` is the engine itself: it computes those functions, drives
them over candidates, caches compiled selectors, and returns exactly the candidates the declarative meaning selects, for
every tree, every sequence of compiled selectors, and every state earlier runs left behind. The proof uses a property
the code needs but does not state: in a list of matchers only the first, which is tried last, may search, so that
nothing fails after a search has succeeded for the current candidate. `SharedRun`, `Robustness` and `BeyondGrammar` are
about elements tried without a new candidate number (`Staircase` builds the trees that serve as witnesses).
`Positional` moves elements between the seed and result arrays, `Stages` says what that comes to, `NthChild` and
`NthArgument` cover positions among siblings, `DocumentOrder` and `Sorting` the order of results, `Tokens`, `TokenCache` and `BoundedCache` the tokenizer
and its cache.

**Callbacks, Deferred, when.** `Callbacks` is one list with its re-entrant `fire` loop; `Deferreds` is a state machine with a
step for every call and return of a callback, so that user code may act at any such point; `Join` is `when`.

**Registries.** `Events` and `Dispatch` are the handler table and the handler queue, `DataIds` the element ids and their free
list, `FxQueue` the effects queue.

Five behaviours depend on a condition, and the conditions are proved exactly:

- `condense` tries several elements under one value of `cachedruns`, and then a recorded failure may hide a match: in
  div > section > (p, p), "div p:last" picks the first p (`SharedRun.LastIsFirst`). No element is ever accepted wrongly
  (`Search.Engine.TryEach`), and for groups of the selector grammar all answers are right, whatever the document, if and
  only if no search keeps marks: the document is XML, or the group has no " " or "~" and either begins with ">" or "+"
  or is run on the document; a group that begins with "+" or "~" selects nothing on the document and is right as well
  (`Robustness.AlwaysRightIff`).
- When a run has several set matchers, one that begins with a positional pseudo and goes on applies the rest to what the
  others have found as well: `:first.b, :last` loses the last element unless it is a `.b` (`Stages.LastIsLost`). Earlier
  results are safe if and only if the group begins with an element filter or is a single positional pseudo
  (`Stages.KeepsEarlierIff`).
- A cache made by `createCache` stays within its length exactly when the length is not zero (`BoundedCache.Cache.Store`).
- The keywords of `:nth-child` are recognized without regard to case but interpreted only in lower case, so `EVEN` selects
  nothing (`NthArgument.ArgumentIsRight`).
- Going through the keys of the handler table removes every matching handler, although keys may be redirected by special
  types, if and only if redirections are settled: a type that bindings are kept under is not itself redirected
  (`Events.SweepsCompleteIff`).

## Model

| member | source | states |
|---|---|---|
| Search.Engine.SearchCached | Kombit.Samples.Service/Scripts/jquery-1.10.2.js:2489-2522 | For any marks on the nodes, the loop for HTML documents gives the answer and leaves the marks that the evaluation function says; the array it writes to after the inner call is still the one on the node |
| Evaluation.SearchExact | Kombit.Samples.Service/Scripts/jquery-1.10.2.js:2489-2522 | A search that reads and leaves marks returns the truth value of the plain search, from any marks exact for the current candidate; marks stay truthful and, unless it succeeds, exact, though several searches overwrite one slot and a failure recorded for this candidate ends it early |
| Search.Engine.SearchPlain | Kombit.Samples.Service/Scripts/jquery-1.10.2.js:2495-2502 | For any marks, the XML loop is the evaluation function |
| Evaluation.PlainExact | Kombit.Samples.Service/Scripts/jquery-1.10.2.js:2480-2502 | The XML loop finds a match exactly when some node on the way satisfies the inner matcher, and for ">" and "+" the nearest stop decides |
| Search.Engine.Nearest | Kombit.Samples.Service/Scripts/jquery-1.10.2.js:2480-2487 | For any marks, asking the nearest stop is the evaluation function |
| Search.Engine.Eval | Kombit.Samples.Service/Scripts/jquery-1.10.2.js:2525-2537 | For any marks, calling a compiled matcher is the evaluation function, filters asked last to first |
| Evaluation.EvalExact | Kombit.Samples.Service/Scripts/jquery-1.10.2.js:2525-2537 | From marks exact for the current candidate, a call gives the cache-free meaning, and adds no marks for searches made later than those it contains |
| Evaluation.EvalTruthful | Kombit.Samples.Service/Scripts/jquery-1.10.2.js:2489-2537 | From any truthful marks, also those a success left under the same cachedruns, a call never accepts a node wrongly |
| Evaluation.EvalWritesBefore | Kombit.Samples.Service/Scripts/jquery-1.10.2.js:2514-2516 | A call at a node leaves the marks of that node and of all nodes not before it as they are |
| Search.Engine.TryEach | Kombit.Samples.Service/Scripts/jquery-1.10.2.js:2539-2558 | Tried one after the other under one cachedruns, no element is accepted wrongly, and a matcher without marking searches is always right |
| Evaluation.EachExactUntilHit | Kombit.Samples.Service/Scripts/jquery-1.10.2.js:2539-2558 | Under one cachedruns, all answers up to and including the first success are right |
| SharedRun.SecondIsMissed | Kombit.Samples.Service/Scripts/jquery-1.10.2.js:2505-2520 | Under one cachedruns answers can be wrong: in div > section > (p, p), "div p" accepts the first p and refuses the second, which it selects |
| SharedRun.CondenseAsks | Kombit.Samples.Service/Scripts/jquery-1.10.2.js:2546-2555 | The pass of condense over an array gets the answers of the matcher tried on its elements in order |
| SharedRun.LastIsFirst | Kombit.Samples.Service/Scripts/jquery-1.10.2.js:2560-2636 | On that document "div p:last" picks the first p |
| Robustness.AlwaysRightIff | Kombit.Samples.Service/Scripts/jquery-1.10.2.js:2489-2558 | Under one cachedruns the answers are right for every tree, filter set, context and element list if and only if the document is XML, or no search of the group keeps marks, or the group asks for a sibling of the document; for every group of the selector grammar |
| Robustness.RobustIsRight | Kombit.Samples.Service/Scripts/jquery-1.10.2.js:2489-2558 | The condition suffices for every group, in the grammar or not |
| BeyondGrammar.NotNecessary | Kombit.Samples.Service/Scripts/jquery-1.10.2.js:2653-2706 | Outside the grammar it is not necessary: "f > ~" keeps marks and is always right |
| Search.Engine.AddCombinator | Kombit.Samples.Service/Scripts/jquery-1.10.2.js:2475-2478 | Every combinator closure gets a name no earlier closure has |
| Search.Engine.MatcherFromTokens | Kombit.Samples.Service/Scripts/jquery-1.10.2.js:2653-2706 | The loop compiles a non-positional group as specified; earlier closures keep their names |
| Compilation.CompiledMeans | Kombit.Samples.Service/Scripts/jquery-1.10.2.js:2653-2706 | The matcher compiled from a group accepts a node exactly when a chain of related nodes satisfying the group exists and ends there (section 8 of Selectors Level 3), in every environment |
| Search.Engine.Compile | Kombit.Samples.Service/Scripts/jquery-1.10.2.js:2809-2834 | Each group gets a matcher that means the group, and every closure made before survives |
| Search.Finder.Compile | Kombit.Samples.Service/Scripts/jquery-1.10.2.js:2809-2834 | A selector found in the compiler cache is as good as a new one, and every selector compiled before stays valid |
| Search.Finder.FindEach | Kombit.Samples.Service/Scripts/jquery-1.10.2.js:2725-2834 | Any sequence of queries, compiling and running any selectors in any order, each over its own document, gives exactly the selected candidates of each, in order |
| Search.SuperMatcher.MatchOne | Kombit.Samples.Service/Scripts/jquery-1.10.2.js:2733-2742 | A candidate is accepted exactly when some group selects it |
| Search.SuperMatcher.Match | Kombit.Samples.Service/Scripts/jquery-1.10.2.js:2725-2760 | An outermost run appends exactly the selected candidates, in order, whatever marks earlier runs left, and leaves marks that cannot mislead later runs, also over a changed document |
| Search.SelectedMeans | Kombit.Samples.Service/Scripts/jquery-1.10.2.js:2731-2742 | A candidate is in the outcome exactly when some group selects it |
| Search.SelectedInOrder | Kombit.Samples.Service/Scripts/jquery-1.10.2.js:2731-2742 | The outcome keeps the order of the candidates, repeats included |
| Evaluation.NextCandidate | Kombit.Samples.Service/Scripts/jquery-1.10.2.js:2743-2746 | Raising cachedruns restores exactness after a candidate that succeeded |
| Evaluation.CloseSearch | Kombit.Samples.Service/Scripts/jquery-1.10.2.js:2503-2522 | A finished search that failed has only exact entries: from each node it failed on, the whole search fails |
| Compilation.CompileStep | Kombit.Samples.Service/Scripts/jquery-1.10.2.js:2675-2702 | Pushing a filter, or wrapping the list in a search, extends the meaning of the token prefix by one token |
| Matchers.SearchMeansRelated | Kombit.Samples.Service/Scripts/jquery-1.10.2.js:2475-2523 | A search succeeds exactly when a node in the combinator's relation satisfies the inner matcher: any ancestor (preceding sibling) for " " ("~"), the nearest one for ">" ("+") |
| Matchers.ChildIsParent | Kombit.Samples.Service/Scripts/jquery-1.10.2.js:1930-1935 | ">" relates an element to exactly its children |
| Combinators.AdjacentMeans | Kombit.Samples.Service/Scripts/jquery-1.10.2.js:1930-1935 | "+" relates an element to a later sibling with no element in between |
| Combinators.SiblingMeans | Kombit.Samples.Service/Scripts/jquery-1.10.2.js:1930-1935 | "~" relates an element to its later siblings |
| Combinators.DescendantMeans | Kombit.Samples.Service/Scripts/jquery-1.10.2.js:1930-1935 | " " relates an element to the nodes below it, by a chain of parents |
| Combinators.ChildMeans | Kombit.Samples.Service/Scripts/jquery-1.10.2.js:1930-1935 | ">" relates an element, or for the context any node, to its children |
| Combinators.PairMeans | Kombit.Samples.Service/Scripts/jquery-1.10.2.js:2653-2706 | Run on the document, "f > g" and the like select exactly the nodes that pass g and to which a node that passes f stands in that relation of parents, positions and node types |
| Combinators.LeadingMeans | Kombit.Samples.Service/Scripts/jquery-1.10.2.js:2653-2671 | "> f" and the like select what passes and stands in the relation to a context node |
| Combinators.ScopedMeans | Kombit.Samples.Service/Scripts/jquery-1.10.2.js:2661-2671 | "f" selects what passes, below a context node unless the run is on the document or XML |
| Selectors.SelectsByTokens | Kombit.Samples.Service/Scripts/jquery-1.10.2.js:2653-2706 | Existence of a chain is the same as taking the tokens one at a time from the right |
| Positional.ApplyPosition | Kombit.Samples.Service/Scripts/jquery-1.10.2.js:1411-1427 | Exactly the occupied matched indices move from seed to matches, each to the same index |
| Positional.MatchIndexes | Kombit.Samples.Service/Scripts/jquery-1.10.2.js:2333-2380 | Each positional pseudo lists exactly its indices, for negative arguments too |
| Stages.PositionsRelate | Kombit.Samples.Service/Scripts/jquery-1.10.2.js:2333-2380 | `:lt(n)`, `:eq(n)` and `:gt(n)` divide every list among them, `:first` and `:last` are `:eq(0)` and `:eq(-1)`, places alternate between `:even` and `:odd`, negative numbers count from the end |
| Positional.Condense | Kombit.Samples.Service/Scripts/jquery-1.10.2.js:2539-2558 | Packs exactly the elements that pass, in order, with the map back to their indices, where an answer may depend on what the filter was asked before |
| Positional.PackedAsked | Kombit.Samples.Service/Scripts/jquery-1.10.2.js:2587-2589 | A filter on the packed elements is asked the same questions as on the elements in their places |
| Positional.ApplyPost | Kombit.Samples.Service/Scripts/jquery-1.10.2.js:2591-2604 | Matches the postFilter does not keep move back to matcherIn at their index, also when both arrays are the same |
| Positional.MoveChosen | Kombit.Samples.Service/Scripts/jquery-1.10.2.js:2621-2633 | The chosen packed elements move from seed to results at their original indices, nothing else changes |
| Positional.Apply | Kombit.Samples.Service/Scripts/jquery-1.10.2.js:2560-2636 | For filters whose answers may change during a pass, a seeded call leaves in seed and results exactly what the index-set definition says, and conserves every element at its index in exactly one of them for every matcher that compilation builds |
| Positional.MatcherFromTokens | Kombit.Samples.Service/Scripts/jquery-1.10.2.js:2683-2698 | The loop builds the set matcher of a group without postFinder |
| Stages.FilteredMeans | Kombit.Samples.Service/Scripts/jquery-1.10.2.js:2560-2698 | A built set matcher that begins with an element filter adds to the earlier results exactly what is left of the seed when its filters and positional pseudos thin it out one after the other, each pseudo counting what is left |
| Stages.PositionalMeans | Kombit.Samples.Service/Scripts/jquery-1.10.2.js:2560-2698 | One that begins with a positional pseudo counts in the seed as it is, holes included, and thins out the new matches together with the earlier results |
| Stages.BuiltStages | Kombit.Samples.Service/Scripts/jquery-1.10.2.js:2560-2698 | On an array without holes and earlier results both say: exactly the survivors of the stages |
| Stages.KeepsEarlierIff | Kombit.Samples.Service/Scripts/jquery-1.10.2.js:2576-2608 | Whatever earlier set matchers of a run have found is safe if and only if the group begins with an element filter or is a single positional pseudo |
| Stages.LastIsLost | Kombit.Samples.Service/Scripts/jquery-1.10.2.js:2576-2608 | In `:first.b, :last` the last element is lost unless it is a `.b` |
| Positional.CompiledConserves | Kombit.Samples.Service/Scripts/jquery-1.10.2.js:2560-2698 | Every set matcher that compilation builds conserves every element, whatever its filters answer |
| Positional.FiltersAscend | Kombit.Samples.Service/Scripts/jquery-1.10.2.js:2683-2698 | No element filter occurs twice in a set matcher, so each is asked in one pass per call |
| Positional.ConservedIff | Kombit.Samples.Service/Scripts/jquery-1.10.2.js:2567-2636 | For other arguments too: conservation holds if and only if there is a preFilter, a matcher, no postFilter, or nothing the postFilter rejects |
| NthChild.PositionCache.SeekFromIndex | Kombit.Samples.Service/Scripts/jquery-1.10.2.js:2093-2114 | From any valid, stale or missing cached index the seek ends within one wrap-around with the element's position among its element siblings, and caches it |
| NthChild.PositionCache.SeekFromStart | Kombit.Samples.Service/Scripts/jquery-1.10.2.js:2116-2137 | The other forms give the position from the right end among the siblings that count, read from the element's own cache or counted, leaving correct positions on the elements passed |
| NthChild.PositionCache.Accepts | Kombit.Samples.Service/Scripts/jquery-1.10.2.js:2057-2144 | An element with a parent is accepted exactly when its position is a*k + b for some k >= 0, by the shortcut as well |
| NthChild.Walker.PositionIsSize | Kombit.Samples.Service/Scripts/jquery-1.10.2.js:2080-2092 | The position is the number of siblings that count (elements, or those of the same name) and are not behind the element in walking order |
| NthChild.PositionCache.BeginRun | Kombit.Samples.Service/Scripts/jquery-1.10.2.js:2722-2723 | After a new run begins every cached position is harmless, even for a changed document |
| NthChild.TestMeansProgression | Kombit.Samples.Service/Scripts/jquery-1.10.2.js:2139-2141 | The remainder and quotient test accepts exactly the arithmetic progression, for zero and negative a and negative b |
| NthArgument.ArgumentIsRight | Kombit.Samples.Service/Scripts/jquery-1.10.2.js:1951-1981 | Prefilter and test select the positions of section 6.6.5.2 of Selectors Level 3 if and only if a keyword is written in lower case |
| NthArgument.RefusedIffEmpty | Kombit.Samples.Service/Scripts/jquery-1.10.2.js:1962-1978 | Only an empty argument is refused |
| NthArgument.EvenInCapitals | Kombit.Samples.Service/Scripts/jquery-1.10.2.js:1970-1973 | `EVEN` denotes the even positions and accepts none |
| NthArgument.FormulasMean | Kombit.Samples.Service/Scripts/jquery-1.10.2.js:1970-1973 | `-n+3` accepts exactly the first three positions, `n+3` all from the third on, `3` the third |
| NthArgument.NumeralIsRead | Kombit.Samples.Service/Scripts/jquery-1.10.2.js:1970-1973 | Digits are read as the number they stand for |
| Sorting.Sorter.Compare | Kombit.Samples.Service/Scripts/jquery-1.10.2.js:1731-1782 | The fallback comparator returns the sign of the preorder of the document and reports equal elements |
| Sorting.Sorter.SiblingCheck | Kombit.Samples.Service/Scripts/jquery-1.10.2.js:1362-1383 | Siblings compare by position; a missing node, the end of a shorter path, comes first |
| Sorting.DecidedAt | Kombit.Samples.Service/Scripts/jquery-1.10.2.js:1760-1781 | The first difference of two ancestor paths decides the preorder |
| DocumentOrder.PreorderIsTotal | Kombit.Samples.Service/Scripts/jquery-1.10.2.js:1731-1782 | Document order is irreflexive, transitive and total |
| DocumentOrder.PrecedesIsLex | Kombit.Samples.Service/Scripts/jquery-1.10.2.js:1758-1781 | Coming earlier in the preorder listing of the document is the lexicographic order of child indices |
| DocumentOrder.AncestorsFirst | Kombit.Samples.Service/Scripts/jquery-1.10.2.js:1739-1747 | Ancestors come before their descendants |
| Sorting.Sorter.UniqueSort | Kombit.Samples.Service/Scripts/jquery-1.10.2.js:1857-1880 | Whatever comparisons the built-in sort makes, if its outcome is justified by the answers, the result is strictly increasing with the same set of elements, with or without detected duplicates |
| Sorting.SortedByNeighbours | Kombit.Samples.Service/Scripts/jquery-1.10.2.js:1866 | The comparator being a total order, neighbours in order make the whole list sorted |
| Sorting.Sorter.SpliceOut | Kombit.Samples.Service/Scripts/jquery-1.10.2.js:1874-1876 | Splicing the recorded indices last to first removes exactly the repeats |
| Tokens.ScanRoundTrip | Kombit.Samples.Service/Scripts/jquery-1.10.2.js:2398-2473 | Group texts, the commas between them and the unconsumed rest are the selector again |
| Tokens.RoundTrip | Kombit.Samples.Service/Scripts/jquery-1.10.2.js:2398-2473 | A single group written out by toSelector is the selector |
| Tokens.ScanText | Kombit.Samples.Service/Scripts/jquery-1.10.2.js:2411-2453 | No pass of the tokenizer loses or moves text |
| Tokens.FilterTakes | Kombit.Samples.Service/Scripts/jquery-1.10.2.js:1983-2009 | A filter token is a non-empty prefix even after its argument is cut, with the recursion on a strictly shorter string |
| Tokens.TokensFit | Kombit.Samples.Service/Scripts/jquery-1.10.2.js:2411-2453 | Every token is what the expression of its kind matches where it stands, and between two groups stands what the comma expression matches |
| Tokens.OnePassFits | Kombit.Samples.Service/Scripts/jquery-1.10.2.js:2423-2447 | A pass reads a combinator if and only if one stands there, then filters, each type at most once and in the order of the types |
| Tokens.CommaOpens | Kombit.Samples.Service/Scripts/jquery-1.10.2.js:2413-2420 | A comma at the start of a pass always opens another group |
| Tokens.CutAtParenthesis | Kombit.Samples.Service/Scripts/jquery-1.10.2.js:1996-2005 | An argument that runs too far is cut right behind the first closing parenthesis that its own tokenizing leaves over |
| TokenCache.Tokenizer.RunLoop | Kombit.Samples.Service/Scripts/jquery-1.10.2.js:2411-2453 | The tokenizer loop computes the specified scan, with cached results for nested arguments |
| TokenCache.Tokenizer.ParseOnly | Kombit.Samples.Service/Scripts/jquery-1.10.2.js:2398-2464 | Parsing only gives the length of the invalid excess whether or not the text is cached |
| TokenCache.Tokenizer.Tokenize | Kombit.Samples.Service/Scripts/jquery-1.10.2.js:2398-2464 | Cached or not, the groups are those of a fresh tokenization, in a new array; every cached entry equals a fresh tokenization of its key |
| TokenCache.Tokenizer.EditForSelect | Kombit.Samples.Service/Scripts/jquery-1.10.2.js:2845-2893 | The shift and splice of select act on a copy: no cached group changes, and selector text and tokens passed on fit together |
| TokenCache.EditedMeans | Kombit.Samples.Service/Scripts/jquery-1.10.2.js:2855-2884 | What is left are all tokens, in order, but a leading ID that served as context and the one that served as seed |
| TokenCache.WriteOut | Kombit.Samples.Service/Scripts/jquery-1.10.2.js:2465-2473 | toSelector concatenates the token texts |
| BoundedCache.Cache.Store | Kombit.Samples.Service/Scripts/jquery-1.10.2.js:1298-1310 | Storing a new key evicts exactly the oldest when the cache is full; the cache stays within its length if and only if the length is not zero |
| BoundedCache.StoreIs | Kombit.Samples.Service/Scripts/jquery-1.10.2.js:1301-1308 | After a store the key list still names each stored key once |
| Callbacks.TurnKeeps | Kombit.Samples.Service/Scripts/jquery-1.10.2.js:3048-3053 | A turn calls the first entry not yet called, after all before it were called once |
| Callbacks.EndKeeps | Kombit.Samples.Service/Scripts/jquery-1.10.2.js:3048-3065 | When the loop ends by itself every listed entry was called exactly once; then the oldest waiting fire begins, or the list rests consistently |
| Callbacks.AddedKeeps | Kombit.Samples.Service/Scripts/jquery-1.10.2.js:3069-3098 | Adding, also from a running callback, keeps the pass exact: the batch is the whole list, entries before the turn were called once, the others not yet |
| Callbacks.RemovedKeeps | Kombit.Samples.Service/Scripts/jquery-1.10.2.js:3100-3119 | Removing, also from a running callback, neither skips nor repeats an entry |
| Callbacks.RemovedLeaves | Kombit.Samples.Service/Scripts/jquery-1.10.2.js:3100-3119 | Removal leaves exactly the entries of functions it was not given, as they are and in order |
| Callbacks.RemovedMoves | Kombit.Samples.Service/Scripts/jquery-1.10.2.js:3106-3113 | While firing, the turn and the end of the batch move back by the number of entries removed at or before them |
| Callbacks.RemovedAtRest | Kombit.Samples.Service/Scripts/jquery-1.10.2.js:3100-3119 | When nothing fires, removal changes nothing else |
| Callbacks.ExtendedHas | Kombit.Samples.Service/Scripts/jquery-1.10.2.js:3071-3087 | Every function given is on the list afterwards, appended in order without `unique` |
| Callbacks.ExtendedUnique | Kombit.Samples.Service/Scripts/jquery-1.10.2.js:3077 | A `unique` list never holds a function twice |
| Callbacks.FiredAtRest | Kombit.Samples.Service/Scripts/jquery-1.10.2.js:3153-3164 | A fire at rest begins with the first entry, and is refused exactly if the list is gone, or was fired and is `once` or locked |
| Callbacks.LockedMeans | Kombit.Samples.Service/Scripts/jquery-1.10.2.js:3141-3147 | A locked list refuses every fire, but with memory still calls what is added |
| Callbacks.EndMeans | Kombit.Samples.Service/Scripts/jquery-1.10.2.js:3054-3065 | After the last fire a repeatable list keeps its entries, a `once` list is emptied or disabled, and a fire cut short is not remembered |
| Callbacks.FiredWithKeeps | Kombit.Samples.Service/Scripts/jquery-1.10.2.js:3153-3164 | A fire during a fire only queues up behind the waiting ones |
| Callbacks.CallbackList.Add | Kombit.Samples.Service/Scripts/jquery-1.10.2.js:3069-3098 | Equals the state function that the laws above are about |
| Callbacks.CallbackList.Remove | Kombit.Samples.Service/Scripts/jquery-1.10.2.js:3100-3119 | The search-and-splice loop equals the state function for removal |
| Callbacks.CallbackList.Fire | Kombit.Samples.Service/Scripts/jquery-1.10.2.js:3040-3065 | For any behaviour of the callbacks the loop and the waiting fires terminate; without stopOnFalse every entry the last loop left on the list was called exactly once with the last data, once-lists included; unless a callback locks or disables, the further fires are exactly those that waited and those asked for meanwhile, in order |
| Deferreds.RunKeeps | Kombit.Samples.Service/Scripts/jquery-1.10.2.js:3180-3253 | Every run of registrations, triggers, calls and returns stays in the invariant |
| Deferreds.SettlesOnce | Kombit.Samples.Service/Scripts/jquery-1.10.2.js:3226-3240 | From every reachable settled state, every further run keeps the state |
| Deferreds.StaysReachable | Kombit.Samples.Service/Scripts/jquery-1.10.2.js:3180-3253 | Whatever happens next leads to reachable states, so the properties below hold after every later run too |
| Deferreds.OneSideOnly | Kombit.Samples.Service/Scripts/jquery-1.10.2.js:3226-3240 | At most one of done and fail ever calls anything, and only the side the state names |
| Deferreds.TriggersAfterSettlement | Kombit.Samples.Service/Scripts/jquery-1.10.2.js:3132-3164 | After settlement no resolve, reject or notify has any effect |
| Deferreds.ExactlyOnce | Kombit.Samples.Service/Scripts/jquery-1.10.2.js:3040-3098 | On the winning side the calls made are always a prefix of the registrations, in order, all with the settling data, and all of them when no loop runs; the other side calls nothing |
| Deferreds.SettlingDataIsFixed | Kombit.Samples.Service/Scripts/jquery-1.10.2.js:3242-3247 | The first resolve or reject fixes outcome and data for every later run |
| Deferreds.Notifies | Kombit.Samples.Service/Scripts/jquery-1.10.2.js:3180-3253 | A notification of a pending Deferred at rest calls every progress callback, in order, once, with its data, and leaves it pending and at rest |
| Deferreds.InitialInv | Kombit.Samples.Service/Scripts/jquery-1.10.2.js:3180-3240 | A new Deferred satisfies the invariant, with its own callbacks first on each list |
| Join.Join.constructor | Kombit.Samples.Service/Scripts/jquery-1.10.2.js:3268-3317 | For any mix of values and promises, settled or open, the master after `when` is decided by the deliveries so far |
| Join.Join.Deliver | Kombit.Samples.Service/Scripts/jquery-1.10.2.js:3278-3289 | A resolution puts its value at its index and counts down, the first rejection breaks the master, later ones change nothing |
| Join.Join.Later | Kombit.Samples.Service/Scripts/jquery-1.10.2.js:3278-3305 | Any later sequence of settlements keeps the master decided by the whole history |
| Join.Join.Verdict | Kombit.Samples.Service/Scripts/jquery-1.10.2.js:3268-3317 | The master is fulfilled exactly when all promises resolved, each with all its arguments in order if there are several, its argument if there is one, in its place; and broken exactly when one was rejected |
| Join.CollectedIsInjective | Kombit.Samples.Service/Scripts/jquery-1.10.2.js:3282 | Promises resolved with different arguments never give the same value |
| Join.DeliverKeeps | Kombit.Samples.Service/Scripts/jquery-1.10.2.js:3278-3305 | `remaining` is the number of arguments without a value after every delivery |
| Join.FailureIsMissing | Kombit.Samples.Service/Scripts/jquery-1.10.2.js:3284-3286 | A rejected join can never count down to zero |
| Events.EventTable.Add | Kombit.Samples.Service/Scripts/jquery-1.10.2.js:4776-4837 | One handler is added to one type; the table keeps delegated handlers in front, each kind in the order of registration |
| Events.EventTable.Remove | Kombit.Samples.Service/Scripts/jquery-1.10.2.js:4869-4907 | Removal for one type changes only the list its bindings are kept under, from which exactly the matching handlers go, the rest in order; an emptied list is dropped |
| Events.EventTable.RemoveAll | Kombit.Samples.Service/Scripts/jquery-1.10.2.js:4861-4867 | For any special types the loop over the keys does what the removal function says, and with settled redirections exactly the matching handlers of every type go |
| Events.SweepsCompleteIff | Kombit.Samples.Service/Scripts/jquery-1.10.2.js:4861-4907 | Removal without a type purges every table that adding handlers can build, for every filter and key order, if and only if redirections are settled: a type that bindings are kept under is not itself redirected |
| Events.MissingSweep | Kombit.Samples.Service/Scripts/jquery-1.10.2.js:4861-4907 | Otherwise one handler alone in the table is missed |
| Events.EventTable.Invariants | Kombit.Samples.Service/Scripts/jquery-1.10.2.js:4828-4833 | The first delegateCount entries are exactly the delegated ones, and no registered list is empty |
| Events.ArrangeOneMore | Kombit.Samples.Service/Scripts/jquery-1.10.2.js:4828-4833 | Inserting behind the delegates, or at the end, is arranging the longer registration history |
| Events.RemovalUndoesAddition | Kombit.Samples.Service/Scripts/jquery-1.10.2.js:4789-4894 | `off` with a handler's own type, function, namespace and selector undoes `on`, wherever its type is redirected to |
| Events.FilterForMatches | Kombit.Samples.Service/Scripts/jquery-1.10.2.js:4880-4885 | Such a filter matches exactly the handlers that agree in all of these |
| Events.RedirectsOneKind | Kombit.Samples.Service/Scripts/jquery-1.10.2.js:4789-4790 | A delegateType redirects delegated bindings only, a bindType direct ones only |
| Events.ArrangeLeft | Kombit.Samples.Service/Scripts/jquery-1.10.2.js:4877-4894 | Removing from the arranged list is arranging what removal leaves of the history |
| Dispatch.HandlerQueue | Kombit.Samples.Service/Scripts/jquery-1.10.2.js:5115-5162 | The queue is that of the climb from the target followed by the direct handlers, with each selector asked once per node |
| Dispatch.QueueMeans | Kombit.Samples.Service/Scripts/jquery-1.10.2.js:5121-5155 | Deepest node first; a delegated handler is queued on a node exactly when the node is the target or above it, strictly below the bound element, an element, not a disabled one that is clicked, and selected |
| Dispatch.ClimbMeans | Kombit.Samples.Service/Scripts/jquery-1.10.2.js:5127 | The walk visits exactly the target and the nodes above it that lie strictly below the bound element, or all of them if that is not on the way |
| Dispatch.MatchingInOrder | Kombit.Samples.Service/Scripts/jquery-1.10.2.js:5133-5147 | The handlers queued at a node keep the order of the list |
| Dispatch.DirectMeans | Kombit.Samples.Service/Scripts/jquery-1.10.2.js:5156-5159 | The direct handlers run last, on the bound element, in list order |
| DataIds.DataStore.EnsureId | Kombit.Samples.Service/Scripts/jquery-1.10.2.js:3594-3608 | An element without an id gets the one freed last or a new one; ids stay unique, live and freed ones apart, and every id ever given out is live or free |
| DataIds.Store.IdIsRecycled | Kombit.Samples.Service/Scripts/jquery-1.10.2.js:3594-3608 | The id an element gives up is the next one given out, before any new one |
| DataIds.WrittenMeans | Kombit.Samples.Service/Scripts/jquery-1.10.2.js:3620-3632 | Writing adds the name to its side and changes nothing else |
| DataIds.ReducedMeans | Kombit.Samples.Service/Scripts/jquery-1.10.2.js:3657-3720 | Exactly the named properties go, and the element is cleaned if and only if everything was to go or nothing is left |
| DataIds.DataStore.RemoveData | Kombit.Samples.Service/Scripts/jquery-1.10.2.js:3657-3745 | Exactly the named data goes; the element is cleaned, freeing its id once, exactly when nothing is left or everything was to go |
| DataIds.Store.RemovedMeans | Kombit.Samples.Service/Scripts/jquery-1.10.2.js:3657-3745 | A removal leaves what the names left say or cleans the element, and other elements keep their data |
| DataIds.DataStore.RemoveEvent | Kombit.Samples.Service/Scripts/jquery-1.10.2.js:4896-4918 | Removing the last event type may clean the element in turn |
| DataIds.Store.EventRemovedMeans | Kombit.Samples.Service/Scripts/jquery-1.10.2.js:4896-4918 | When the last handler of a type is gone the type goes, with the last type the events object, and with the last data the element is cleaned |
| DataIds.DataStore.CleanOne | Kombit.Samples.Service/Scripts/jquery-1.10.2.js:6674-6712 | The element loses its data and its id, and the id is freed exactly once even when event removal has cleaned it on the way |
| DataIds.DataStore.CleanData | Kombit.Samples.Service/Scripts/jquery-1.10.2.js:6664-6715 | A list of elements, repeats included, is cleaned one by one under the same invariant |
| DataIds.Store.AllCleanedFrees | Kombit.Samples.Service/Scripts/jquery-1.10.2.js:6664-6715 | Exactly the accepted elements lose their ids, what was free stays free, and the ids given out stay the same |
| FxQueue.Queue.Push | Kombit.Samples.Service/Scripts/jquery-1.10.2.js:3969-3993 | A function starts at once if nothing runs, else waits behind all others |
| FxQueue.Queue.Next | Kombit.Samples.Service/Scripts/jquery-1.10.2.js:3925-3954 | The next function in push order starts, or the queue is drained and the empty hook fires once |
| FxQueue.Queue.Dequeue | Kombit.Samples.Service/Scripts/jquery-1.10.2.js:3921-3954 | The sentinel heads the queue exactly while a function runs |
| FxQueue.Queue.Return | Kombit.Samples.Service/Scripts/jquery-1.10.2.js:3951-3953 | A returning call never fires the hook a second time, whether `next` came before or after |

## Left out

- Robustness.AlwaysRightIff: for groups with two combinators in a row, which the selector grammar excludes and the tokenizer accepts, only the sufficiency of the condition is proved (`Robustness.RobustIsRight`); there it is not necessary (`BeyondGrammar.NotNecessary`). The witness of a failure tries the same element twice; that different elements fail too is shown for "div p".
- Nested Sizzle runs inside a filter (`:has`, complex `:not`), which share dirruns and cachedruns with the outer run.
- The postFinder of `setMatcher`, seedless positional calls, and the reintegration of set matches in the super matcher.
- Positional.MatchIndexes: arguments are integers; a missing or non-numeric argument (NaN) is not modelled.
- What simple filters test (names, attributes, pseudo-classes): a filter is an arbitrary set of nodes.
- The expressions of the tokenizer: each is an arbitrary function from the text to the length of a matched prefix; token captures beyond the text are not kept.
- `:first-child`, `:last-child` and `:only-child`: two sibling walks without state.
- Sorting.Sorter.Compare: detached nodes, several documents and the sourceIndex shortcut of old browsers are not part of this model.
- Sorting.Sorter.UniqueSort: which pairs the built-in sort compares is a parameter.
- BoundedCache.Cache.Store: the length is fixed; a user who lowers `Expr.cacheLength` later is not modelled.
- `Callbacks.empty`, exceptions thrown by callbacks, and nested arrays of callbacks.
- Callbacks.CallbackList.Fire: a callback acts on its own list only; lists that act on each other are the subject of Deferreds.
- `then`, `always` and `pipe`, which only register further callbacks.
- Join.Join.Deliver: progress values and callback contexts are not modelled.
- The hooks of special event types, namespaces beyond a set of accepted strings, and several types in one call.
- DataIds.DataStore.CleanOne: hooks run during event removal do not touch the store; a hook that frees the element and allocates for another could make the outer call free that id again.
- Data of plain objects, dashed property names, and cloning.
- FxQueue.Queue.Push: the queue is only pushed to and each function calls `next` once; clearing, stopping, delays and other queue types are not modelled.
- The C# projects, which configure WCF, WIF and ASP.NET, and the browser plumbing of the library.
