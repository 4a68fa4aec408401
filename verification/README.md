# Verified models of the di-framework packages

This project models the algorithms and small protocols of the di-framework
monorepo in Dafny and proves what they promise. `dafny verify dfyconfig.toml`
checks all of it.

| modules | what they model |
|---|---|
| `Ebnf`, `EbnfDocument`, `EbnfRoundTrip`, `EbnfLimits`, `EbnfTheorem`, `EbnfSound`, `Scanner`, `Json` | the policy text format of the authz package: printer, four character scanners, parser |
| `Float64`, `Numerals` | the number codec of the Postgres repository |
| `Keywords`, `QueryName`, `QueryNameRoundTrip` | method names compiled to query plans |
| `QueryExec`, `QueryStore` | query plans run against the in-memory repository |
| `Resolution`, `Container` | recursive resolution, singleton caches and property injection |
| `Preflight`, `Lifecycle` | startup order of beans, and start and stop of an application context |
| `StubPruning`, `QueryCost`, `BatchLoader`, `StableJson`, `Connection`, `EventIterator` | the GraphQL layer |
| `PushStream`, `StreamSessions`, `PendingCalls` | RPC streams, the dispatcher's stream sessions, and the client's table of calls awaiting a response |
| `SqlLock` | the promise-chain mutex and the re-entrant context lock |
| `Codegen` | generation against a file map and an ownership ledger |
| `ConfigPath` | merging, flattening and path access of configuration trees |
| `Text`, `Sorting` | strings and the stable sort used by several of them |

Code that works by changing state is a class whose methods are the source's
methods, or, where the source awaits, the runs of code between two awaits;
each concurrent class is tied, step by step, to a function on its state, and
the results about it are lemmas on every run of events of that function, which
a method of the model shows to be the run of the class. Loops are methods with invariants, tied to a function that the lemmas
are about. Everything else is a function.

## What turned out not to hold, or only under a condition

- A printed policy document does not always parse back. A `;` in a string or a
  `|` in an action makes the parser refuse it. So does a rule with conditions
  whose one action ends in a backslash, which defeats the quote tracking of the
  comma scanner. Otherwise the document comes back, and this is exact where
  either no string ends in a backslash, or none holds `(*` and those that do
  end in one are resources or the one action of a rule
  (`EbnfTheorem.RoundTrip`, `EbnfTheorem.ClosingDecided`).
- Where a string ends in a backslash and a later one holds `(*`, the comment
  scanner counts the quotes the wrong way round. A document with the resource
  `x\` and a rule with the single action `f(*b*)z` reads back without an error
  as the document with the action `f z` (`EbnfTheorem.CommentLost`, which states
  it for every such text around and inside the comment). A document whose first
  string that ends in a backslash is the one action of a rule with conditions is
  refused, comments included (`EbnfTheorem.BackslashDocumentFails`).
- One class registered under its name and itself gives two singletons
  (`Container.Container.RegisteredTwice`).
- A constructor parameter without information is skipped, where the comment
  there says it is left undefined: the arguments behind it arrive one place
  early (`Container.ArgumentArrives`).
- When a component's `stop` throws, the context can stay in `stopping` for ever.
  Once the start has succeeded and all stops have ended it is in `stopped`
  exactly when some stop run had no throw among the stops it called
  (`Lifecycle.StoppedExactly`), and so, with one call of `stop`, exactly when no
  component's stop throws (`Lifecycle.StoppedOnce`); two calls made while
  starting can reach `stopped` although one throws (`Lifecycle.TwoStops`).
- A property without a direction behind explicit directions is dropped from
  `OrderBy` (`QueryNameRoundTrip.OrderByRoundTrip`), and an empty segment leaves
  one connective too many (`QueryNameRoundTrip.PredicateAligned`).
- `And` and `Or` have no precedence: a later `And` binds everything before it
  (`QueryExec.FoldMeaning`).
- A query's delete works by entity id. It removes exactly what it matched and
  counts it exactly when the ids of the matched entities are, each once, the
  keys of the entries that hold them (`QueryStore.DeleteExactly`). That holds
  while entities are stored under their own ids, which `compareAndSwap` keeps
  exactly when the mutation keeps the id; `QueryStore.SwappedId` builds a store
  in which a delete of two entities counts one and leaves a match behind.
- When an id is used for a second streaming call while the first one runs, the
  end of the first cuts the second off from its frames
  (`StreamSessions.ReuseCutsOff`).
- A page equals the Relay algorithm's unless `before` is not behind `after`
  and there is something left to return (`Connection.SameAsRelay`).
- A cleaning run throws exactly when the ledger lists one stale owned file
  under two entries (`Codegen.Generator.Generate`), as one that repeats an entry
  does (`Codegen.TwiceListed`). A ledger that a run has written never does
  (`Codegen.WrittenOnce`).

## Model

| member | source | states |
|---|---|---|
| EbnfTheorem.RoundTrip | packages/di-framework-authz/src/ebnf.ts:17-175 | for every well-formed document of which either no string ends in a backslash, or no string holds the mark of a comment and only resources and the one action of a rule end in a backslash, parsing the printed text gives the document back with policies sorted by name and rules by id exactly when no string holds a semicolon, no action a bar, and no rule with conditions has one action ending in a backslash; otherwise the parser refuses the text |
| EbnfTheorem.ClosingDecided | packages/di-framework-authz/src/ebnf.ts:41-62 | documents without a string that ends in a backslash are all among those |
| EbnfTheorem.CommentLost | packages/di-framework-authz/src/ebnf.ts:110-133 | behind a resource that ends in a backslash an action that holds a comment loses it: the document reads back, without an error, as the one with a blank in its place |
| EbnfTheorem.PrintStable | packages/di-framework-authz/src/ebnf.ts:17-32 | for every document that comes back by the round trip, printing, parsing and printing again gives the first text |
| EbnfTheorem.SortIdempotent | packages/di-framework-authz/src/ebnf.ts:19-21 | sorting a document that was sorted for printing changes nothing, for any total preorder of names |
| EbnfTheorem.SeparatorsFail | packages/di-framework-authz/src/ebnf.ts:135-175 | a semicolon in any string, a bar in any action, or a rule with conditions whose one action ends in a backslash makes the printed document unparsable, wherever it is |
| EbnfTheorem.BackslashDocumentFails | packages/di-framework-authz/src/ebnf.ts:41-62 | a printed document is refused when its first string that ends in a backslash is the one action of a rule with conditions, whatever follows, comments inside strings included |
| EbnfTheorem.BackslashFails | packages/di-framework-authz/src/ebnf.ts:41-62 | the statement such a rule is printed as is one that no parser state accepts |
| EbnfRoundTrip.ParsePrinted | packages/di-framework-authz/src/ebnf.ts:135-175 | every well-formed document without separators in its strings whose rules are readable, and which has no trailing backslash or no comment mark in its strings, is what its printed text, in its own order, parses to |
| EbnfRoundTrip.StripPrinted | packages/di-framework-authz/src/ebnf.ts:110-133 | the comment scanner leaves a printed document alone when no string of it ends in a backslash, or none holds the mark of a comment |
| EbnfRoundTrip.RhsShape | packages/di-framework-authz/src/ebnf.ts:41-62 | the comma scanner gives back the fields of every rule whose strings do not end in a backslash, and of every rule that is one action, whatever that ends in |
| EbnfRoundTrip.StripBalanced | packages/di-framework-authz/src/ebnf.ts:110-133 | stripping comments is the identity on text that closes its quotes and has no star outside them |
| EbnfRoundTrip.FieldsJoin | packages/di-framework-authz/src/ebnf.ts:41-62 | splitting at top-level commas undoes joining fields by a comma, from any state outside quotes |
| EbnfRoundTrip.StatementsOfText | packages/di-framework-authz/src/ebnf.ts:136-140 | splitting at semicolons and trimming gives back the statements a text was built from, when the comment scanner leaves that text alone |
| EbnfRoundTrip.ActionsParse | packages/di-framework-authz/src/ebnf.ts:63-68 | a non-empty list of actions without bars parses back from its printed form |
| EbnfRoundTrip.TokensQuotes | packages/di-framework-authz/src/ebnf.ts:69-74 | the token scanner splits quoted strings joined by spaces back into themselves, whatever characters they hold |
| EbnfRoundTrip.ConditionParse | packages/di-framework-authz/src/ebnf.ts:80-109 | every well-formed condition parses back from its printed form |
| EbnfLimits.ConditionCut | packages/di-framework-authz/src/ebnf.ts:80-109 | a printed condition cut inside one of its strings is refused |
| EbnfLimits.ActionsCut | packages/di-framework-authz/src/ebnf.ts:63-68 | a printed action list cut inside one of its strings is refused |
| EbnfLimits.BarredActions | packages/di-framework-authz/src/ebnf.ts:63-68 | an action list one of whose actions holds a bar is refused, whatever its actions end in |
| Scanner.StripComments | packages/di-framework-authz/src/ebnf.ts:110-133 | the comment loop computes the stripping function of its quote state |
| Scanner.SplitPredicates | packages/di-framework-authz/src/ebnf.ts:41-62 | the splitting loop, which looks back one character for a backslash, computes the fields of the quote, question-mark and parenthesis state |
| EbnfSound.ParsePolicies | packages/di-framework-authz/src/ebnf.ts:135-175 | the statement loop over policies, rules and used ids computes the parse function the round trip is about, and what it returns is well formed |
| EbnfSound.ParseSound | packages/di-framework-authz/src/ebnf.ts:135-175 | whatever text is read without an error, the document is well formed: no policy, resource or rule id twice, ids under their policy's name, names of word characters, safe paths only, no empty list of actions, roles or scopes, no key twice in a JSON value |
| EbnfSound.SafePathExactly | packages/di-framework-authz/src/ebnf.ts:75-79 | a path is safe exactly when its first dotted part is `subject` or `resource`, more parts follow, and each of them is a letter, `_` or `$` and then such characters and digits |
| EbnfSound.PolicyHeaderExactly | packages/di-framework-authz/src/ebnf.ts:145-147 | the policy pattern matches exactly the texts of the word, a name, `=` and a literal, with white space where it is needed and where it may be |
| EbnfSound.RuleHeaderExactly | packages/di-framework-authz/src/ebnf.ts:155-156 | the rule pattern matches exactly the texts of `allow` or `deny`, two names, `=` and something |
| EbnfSound.ConditionExactly | packages/di-framework-authz/src/ebnf.ts:80-109 | a condition is read from exactly the texts of its word and its literals, or of a literal and a JSON value, between question marks; every other text is refused |
| EbnfSound.ActionsExactly | packages/di-framework-authz/src/ebnf.ts:63-68 | actions are read from exactly the texts of their literals with bars between them, in parentheses or not |
| Json.RoundTrip | packages/di-framework-authz/src/ebnf.ts:4 | parsing undoes printing for every JSON tree with distinct keys |
| Float64.RoundTrip | packages/di-framework-repo/src/postgres.ts:295-335 | under any rounding that returns representable results unchanged, every binary64 bit pattern reads back as its value, the sign of zero included, and infinities and NaN as their texts |
| Float64.RoundTrip32 | packages/di-framework-repo/src/postgres.ts:295-335 | the same for every binary32 pattern in the float4 layout |
| Float64.SpecialExactly | packages/di-framework-repo/src/postgres.ts:321-331 | in both layouts a tuple is taken for a special value exactly when it is one |
| Float64.DecodeSubnormal | packages/di-framework-repo/src/postgres.ts:332-333 | the two-step branch is exact at exponent -1075, where only the evenness of the mantissa keeps the result representable |
| Float64.OneStepUnderflows | packages/di-framework-repo/src/postgres.ts:332-333 | the single factor 2 to the -1075 is not a double, so one step would not do |
| Float64.CodecInjective | packages/di-framework-repo/src/postgres.ts:428-438 | a finite double and any other read back alike only if their bits are equal |
| Float64.JsonIntExact | packages/di-framework-repo/src/postgres.ts:285-289 | an integer survives the trip to JSON, and travels as a number exactly up to the safe bound |
| Float64.IntegerParameterReturns | packages/di-framework-repo/src/postgres.ts:207-216 | an integral double is accepted as a parameter exactly up to the safe bound, with its own value and as an int4 exactly in the 32-bit range, and comes back from an integer column as the same number unless it is zero |
| Numerals.IntRoundTrip | packages/di-framework-repo/src/postgres.ts:285-289 | the decimal text of any integer reads back as that integer |
| Container.Container.Resolve | packages/di-framework-core/container.ts:285-361 | a key resolves exactly when the uncached parameter graph below it is acyclic, registered and clear of the stack; the stack is restored on every exit, cached instances never change, a cached key answers without building anything, every new instance holds the cached singletons, and an uncached class gives a new instance with all parameters and exactly the resolvable properties |
| Container.Container.Create | packages/di-framework-core/container.ts:338-360 | the try and finally around an instantiation: stack restored whether it throws or not, a singleton cached, a class given a new instance |
| Container.Container.Instantiate | packages/di-framework-core/container.ts:692-778 | a class instantiates exactly when all its parameters resolve; its properties play no part in that, and exactly those whose targets resolve are injected |
| Container.EdgesLead | packages/di-framework-core/container.ts:711-745 | a class leads where its parameters do, each at its place: to the injected key, by type to the registered class or else to its registered name, nowhere for a parameter without information; a factory leads nowhere |
| Container.ArgumentArrives | packages/di-framework-core/container.ts:711-745 | an argument reaches its own parameter exactly when no parameter before it lacks both a target and a type, since nothing is pushed for those |
| Container.Container.Dependencies | packages/di-framework-core/container.ts:711-740 | parameters are resolved in order up to the first failure, one argument for each that has a target or a type, and what was cached on the way changes no later answer |
| Container.Container.InjectProperties | packages/di-framework-core/container.ts:756-775 | property injection never fails: a property is set exactly when its target resolves, however much was cached on the way, and then holds the cached singleton |
| Container.Container.Register | packages/di-framework-core/container.ts:206-226 | registering a class makes two separate definitions, under its name and itself |
| Container.Container.RegisterValue | packages/di-framework-core/container.ts:269-280 | registering a value makes one definition that holds it, shared by token and name |
| Container.Container.ResolveAll | packages/di-framework-core/container.ts:285-361 | over any sequence of calls, which keys resolve is decided by the graph and the cache at the start, and every singleton key gives one instance |
| Container.Container.RegisteredTwice | packages/di-framework-core/container.ts:206-219 | for every class, the class key and the name key each resolve exactly when their parameter graph allows it, and then give two different singletons |
| Resolution.ResolvableIffAcyclic | packages/di-framework-core/container.ts:285-361 | resolvability from an empty stack is the absence of a parameter path that repeats a key or leaves the registered ones |
| Resolution.StackedParameters | packages/di-framework-core/container.ts:338-342 | an uncached key resolves exactly when its parameters do with the key itself on the stack |
| Resolution.EarnedSame | packages/di-framework-core/container.ts:344-348 | caching instances of keys that were resolvable changes no key's resolvability |
| Preflight.Run | packages/di-framework-core/application-context.ts:126-174 | an order is returned exactly when tokens are unique and unclaimed, dependencies known and the bean graph acyclic; it is a permutation of the beans with dependencies first; a reported cyclic path is a dependency path that ends in a cycle; and which error comes first |
| Preflight.Walk.Visit | packages/di-framework-core/application-context.ts:153-170 | the depth-first visit extends the order with the token's factory behind its dependencies, or returns a path that ends in a cycle |
| Preflight.OrderedAcyclic | packages/di-framework-core/application-context.ts:150-174 | an order with dependencies first exists only for an acyclic bean graph |
| Preflight.Permutation | packages/di-framework-core/application-context.ts:150-174 | an order that places each declared token once is a permutation of the declared beans |
| Lifecycle.Reachable | packages/di-framework-core/application-context.ts:47-124 | after every run of events from a new context factories and bootstraps ran at most once, in order; all pushes precede all pops; stops happened in reverse start order, and all of them once a failed start or a stop has ended, with or without throws |
| Lifecycle.RunKeeps | packages/di-framework-core/application-context.ts:47-124 | what holds of calls, stack, phase and stop runs between any two events |
| Lifecycle.Interleaving | packages/di-framework-core/application-context.ts:47-124 | the class, driven by any events, goes through exactly the states of the run the other results are about |
| Lifecycle.ApplicationContext.CallStart | packages/di-framework-core/application-context.ts:47-57 | which promise start returns in each state, and that only a new context starts |
| Lifecycle.ApplicationContext.CallStop | packages/di-framework-core/application-context.ts:59-64 | which promise stop returns in each state, and what a new stop does before its first await |
| Lifecycle.ApplicationContext.StartStep | packages/di-framework-core/application-context.ts:66-84 | each factory and bootstrap is called at its turn, a started component is pushed, a throw turns to undoing |
| Lifecycle.ApplicationContext.CleanStep | packages/di-framework-core/application-context.ts:113-124 | a stop pops one component at a time and reaches stopped exactly when none of its own stops threw |
| Lifecycle.ApplicationContext.UnwindStep | packages/di-framework-core/application-context.ts:85-90 | a failed start pops every component, ignoring what stops throw, and then fails |
| Lifecycle.StoppedExactly | packages/di-framework-core/application-context.ts:59-124 | for all factories, bootstraps and events: once the start has succeeded and every stop that was called has ended, the context is in stopped, whatever comes later, exactly when some stop run had no throw among the stops it called; otherwise it is in stopping |
| Lifecycle.StoppedOnce | packages/di-framework-core/application-context.ts:59-124 | with one stop run the context reaches stopped exactly when no component's stop throws |
| Lifecycle.MarkedExactly | packages/di-framework-core/application-context.ts:113-124 | the error a cleanup remembers is there exactly when a stop it called has thrown |
| Lifecycle.StuckForEver | packages/di-framework-core/application-context.ts:59-64 | once every stop has ended no event changes the context |
| Lifecycle.StopThrows | packages/di-framework-core/application-context.ts:104-124 | an input: one component and one stop, in which it throws, leave the context in stopping whatever comes later |
| Lifecycle.TwoStops | packages/di-framework-core/application-context.ts:59-111 | an input: of two stops called while starting the first throws and the second reaches stopped |
| Keywords.FirstIsLongest | packages/di-framework-repo/src/query-derivation.ts:102-154 | the first keyword of the table that is a proper suffix is the longest one that is |
| Keywords.LaterNotLonger | packages/di-framework-repo/src/query-derivation.ts:102-154 | no keyword of the table ends with an earlier one |
| Keywords.Spelled | packages/di-framework-repo/src/query-derivation.ts:102-154 | each keyword of the table is a spelling of its operator and takes as many values as that operator is compared with |
| QueryNameRoundTrip.RoundTrip | packages/di-framework-repo/src/query-derivation.ts:164-405 | every plan written as subject, conditions joined by connectives, and directed orders, out of segment texts free of the structuring words, parses back to that plan; with a limit of zero it is refused |
| QueryNameRoundTrip.DerivableExactly | packages/di-framework-repo/src/query-derivation.ts:156-198 | a name is a derived query exactly when one of the ten introducing words starts it and the first `By` before a capital letter or an underscore stands behind its start |
| QueryNameRoundTrip.KeywordExactly | packages/di-framework-repo/src/query-derivation.ts:384-398 | the keyword read from a segment is the one written exactly when no longer keyword is a proper suffix of it |
| QueryNameRoundTrip.ConditionRoundTrip | packages/di-framework-repo/src/query-derivation.ts:371-405 | a segment spelled with its longest keyword and an optional IgnoreCase or IgnoringCase reads back as its property, operator and argument count |
| QueryNameRoundTrip.SplitChain | packages/di-framework-repo/src/query-derivation.ts:351-369 | splitting at connectives undoes joining clean segments by them |
| QueryNameRoundTrip.PredicateRoundTrip | packages/di-framework-repo/src/query-derivation.ts:322-349 | a predicate text, with or without the global ignore-case flag, reads back as its conditions and connectives |
| QueryNameRoundTrip.OrderByRoundTrip | packages/di-framework-repo/src/query-derivation.ts:278-320 | explicit directions read back as written; a bare property is ascending when alone and dropped behind explicit ones |
| QueryNameRoundTrip.SubjectRoundTrip | packages/di-framework-repo/src/query-derivation.ts:200-261 | a subject of introducer, Distinct and First or Top with any limit reads back as its kind, flags and limit, and one with the limit zero is refused |
| QueryNameRoundTrip.PathRoundTrip | packages/di-framework-repo/src/query-derivation.ts:408-423 | a dotted path written with capitals and underscores reads back as the path |
| QueryNameRoundTrip.PredicateAligned | packages/di-framework-repo/src/query-derivation.ts:322-349 | there is one connective less than conditions exactly when no segment is empty |
| QueryName.ReadSubject | packages/di-framework-repo/src/query-derivation.ts:200-261 | the token loop computes the subject function, invalid limits included |
| QueryName.Segments | packages/di-framework-repo/src/query-derivation.ts:351-369 | the search loop over the whole text computes the split the round trip is about |
| QueryName.OrderSpecs | packages/di-framework-repo/src/query-derivation.ts:278-320 | the scanning loop computes the orders the round trip is about |
| QueryName.ParseQueryMethod | packages/di-framework-repo/src/query-derivation.ts:164-190 | the compiler with its loops computes the parse function the round trip is about |
| QueryExec.PropertyByParts | packages/di-framework-repo/src/query-derivation.ts:614-622 | a dotted property is read part by part, each a key of what the parts before it lead to or the length of a list |
| QueryExec.FoldMeaning | packages/di-framework-repo/src/query-derivation.ts:497-509 | the left fold holds exactly when some condition that opens the predicate or follows an Or holds and every later And condition does |
| QueryExec.ArgumentsBound | packages/di-framework-repo/src/query-derivation.ts:489-495 | each condition is evaluated on the values given for it, however many the ones before it take |
| QueryExec.NegatedMatches | packages/di-framework-repo/src/query-derivation.ts:497-572 | with every operator that has a negation replaced by it, and And and Or exchanged, a predicate matches exactly the other entities |
| QueryExec.Comparisons | packages/di-framework-repo/src/query-derivation.ts:600-613 | comparing goes by time where either value is a date, by number where both are, and by text otherwise; a date that cannot be read and NaN come out below |
| QueryExec.InAsOrs | packages/di-framework-repo/src/query-derivation.ts:497-546 | being in a list is matching a predicate of one equality for each of its items joined by Or |
| QueryExec.Parts | packages/di-framework-repo/src/query-derivation.ts:548-555 | containing, starting and ending with a text is having it somewhere, at the front, at the end; null values are the empty text and case is dropped where it is ignored |
| QueryExec.EqualExactly | packages/di-framework-repo/src/query-derivation.ts:591-598 | which values are equal: numbers by value, dates with dates, texts and numbers by time, texts with or without regard to case, lists and records never |
| QueryExec.UnaryAsEq | packages/di-framework-repo/src/query-derivation.ts:562-567 | being true, false or null is being equal to that value |
| QueryExec.EmptyExactly | packages/di-framework-repo/src/query-derivation.ts:577-582 | empty are the null values, the empty text and the empty list, and nothing else |
| QueryExec.BetweenAsAnd | packages/di-framework-repo/src/query-derivation.ts:535-539 | between two values is a predicate of two comparisons joined by And, with one argument each |
| QueryExec.FilterEntities | packages/di-framework-repo/src/query-derivation.ts:484-510 | filtering keeps, in order, the entities the fold holds for |
| QueryExec.DistinctByJson | packages/di-framework-repo/src/query-derivation.ts:636-646 | the loop keeps the first entity of each JSON text |
| QueryExec.DistinctChangesNothing | packages/di-framework-repo/src/query-derivation.ts:442-444 | Distinct in a name changes no result while ids are unique |
| QueryExec.OrderedStably | packages/di-framework-repo/src/query-derivation.ts:600-634 | entities whose sorted properties are of one kind come out permuted; of any two, at the first order that tells them apart the earlier one has the smaller value if it ascends and the greater one if it descends, by time, number or text; those that no order tells apart keep their old order |
| QueryExec.MatchedInOrder | packages/di-framework-repo/src/query-derivation.ts:442-452 | so are the entities a query finds, limit and distinctness included |
| QueryExec.TextLessExactly | packages/di-framework-repo/src/query-derivation.ts:611-612 | a text is below another exactly when at some index they part and it ends there or has the smaller character |
| QueryExec.LimitIsPrefix | packages/di-framework-repo/src/query-derivation.ts:446-452 | a corollary: a limited query is the prefix of the full, sorted one of the length asked for |
| QueryExec.MatchedMembers | packages/di-framework-repo/src/query-derivation.ts:432-452 | without a limit exactly the matching entities are found, each once; with one, only such entities |
| QueryStore.ExistsIffCounted | packages/di-framework-repo/src/query-derivation.ts:460-463 | a corollary: an exists query is true exactly when the count query is not zero |
| QueryStore.SingleAnswer | packages/di-framework-repo/src/query-derivation.ts:454-459 | a query for one entity answers none exactly when none matches, else a matching one that every other matching one may follow in the order asked for, and changes nothing |
| QueryStore.ManyAnswer | packages/di-framework-repo/src/query-derivation.ts:454-459 | a query for all answers exactly the matching entities, each once, and changes nothing |
| QueryStore.DeleteExactly | packages/di-framework-repo/src/query-derivation.ts:464-481 | in every store a delete, limited or not, removes exactly what it matched, keeps the rest in order and returns how many that was exactly when the ids of the matched entities are, each once, the keys of the entries that hold them |
| QueryStore.DeleteWithoutLimit | packages/di-framework-repo/src/query-derivation.ts:464-481 | in every store, without a limit, it returns the prior count and keeps exactly what does not match exactly when the ids of the matched entities are, each once, the keys of the matching entries; the count is then zero |
| QueryStore.KeyedOwns | packages/di-framework-repo/src/in-memory.ts:27-34 | both conditions hold for every query while entities are stored under their own ids |
| QueryStore.SwappedId | packages/di-framework-repo/src/in-memory.ts:73-82 | two saved entities, one swapped for an entity with the id of the other: a delete of both returns one and leaves a match in the store |
| QueryStore.RemoveAllExactly | packages/di-framework-repo/src/in-memory.ts:32-34 | deleting keys one by one keeps exactly the entries with other keys, in order, and every delete finds something exactly when the keys are distinct and all there |
| QueryStore.InMemoryRepository.Execute | packages/di-framework-repo/src/query-derivation.ts:432-482 | a query run against the store gives the answer and the remaining items that the lemmas are about |
| QueryStore.SameKey | packages/di-framework-repo/src/repository.ts:17-20 | two ids share a key exactly when they are equal or one is the decimal text of the other |
| QueryStore.InMemoryRepository.Save | packages/di-framework-repo/src/in-memory.ts:27-30 | saving replaces in place or appends, and keeps entities under their own ids |
| QueryStore.InMemoryRepository.SaveIfAbsent | packages/di-framework-repo/src/in-memory.ts:64-71 | saves exactly when the id is free |
| QueryStore.InMemoryRepository.CompareAndSwap | packages/di-framework-repo/src/in-memory.ts:73-82 | stores the mutation's result under the id asked for; entities stay under their own ids exactly when the mutation keeps the id |
| QueryStore.InMemoryRepository.Delete | packages/di-framework-repo/src/in-memory.ts:32-34 | removes the one entry of the id if there is one and says whether there was |
| QueryCost.WalkOfAcyclic | packages/di-framework-graphql/src/schema.ts:518-566 | where no fragment reaches itself, depth and complexity are the nesting height and field count of the query with every fragment inlined |
| QueryCost.RankedExactly | packages/di-framework-graphql/src/schema.ts:518-566 | no fragment reaches itself exactly when the fragments can be ranked so that each spreads only lower ones |
| QueryCost.WalkIsInlined | packages/di-framework-graphql/src/schema.ts:518-566 | the same for any such ranking |
| QueryCost.WalkIsUnfolded | packages/di-framework-graphql/src/schema.ts:524-553 | on any document, cyclic ones included, the walk costs what the selections cost with fragments unfolded except inside themselves |
| QueryCost.UnfoldedInlines | packages/di-framework-graphql/src/schema.ts:532-541 | on an acyclic document no spread is ever cut off |
| QueryCost.WalkSelections | packages/di-framework-graphql/src/schema.ts:524-553 | the accumulating loop terminates on every document, by the fragments not yet active and the selection size, and computes the walk |
| QueryCost.Measure | packages/di-framework-graphql/src/schema.ts:518-566 | with the last fragment of each name, the depth is the longest chain of nested fields and the complexity the greatest number of field places that any operation has, no fragment being entered inside itself |
| QueryCost.NestedExactly | packages/di-framework-graphql/src/schema.ts:524-553 | the height of the unfolded selections is the length of the longest chain of nested fields |
| QueryCost.FieldPlaces | packages/di-framework-graphql/src/schema.ts:524-553 | the unfolded selections have as many fields as there are places of fields, given by the indexes that lead to them |
| StubPruning.GraphBuilder.PruneUnreferencedStubs | packages/di-framework-graphql/src/type-graph.ts:764-799 | the surviving stubs are those reached from roots, interfaces and owned objects, from stub to stub, through types under any list and non-null layers; owned objects stay, all in order; a name leaves the index exactly when a stub of that name is dropped; nothing left names a dropped stub |
| StubPruning.MentionExactly | packages/di-framework-graphql/src/type-graph.ts:61-63 | a type mentions an object exactly when it is that object type under some list and non-null layers |
| StubPruning.GraphBuilder.Referenced | packages/di-framework-graphql/src/type-graph.ts:764-791 | the changed-flag loop terminates with the least set of names closed under the fields of referenced stubs, which is the set of names reached from outside the stubs |
| StubPruning.GraphBuilder.Pass | packages/di-framework-graphql/src/type-graph.ts:784-790 | a pass that changes nothing leaves a closed set, one that does has grown it by needed names only |
| StubPruning.NoneDangling | packages/di-framework-graphql/src/type-graph.ts:793-798 | roots, interfaces and every object that stays name kept names only, arguments and wrapped types included |
| BatchLoader.RunDirect | packages/di-framework-graphql/src/loader.ts:15-67 | in every interleaving of loads, clears, dispatches and answers of an index-wise batch function, every settled promise gives what a direct call gives |
| BatchLoader.RunKeeps | packages/di-framework-graphql/src/loader.ts:15-67 | whatever the batch function answers, a key is loaded once between clears, and when nothing is queued or awaited every promise is settled |
| BatchLoader.Served | packages/di-framework-graphql/src/loader.ts:15-67 | after any run, the dispatch that follows a load leaves nothing queued, and the promise of the key is settled or in one batch in flight, any answer of which settles it |
| BatchLoader.FinishedKeeps | packages/di-framework-graphql/src/loader.ts:52-66 | an answer settles exactly the promises of its batch, none of which was settled before, by index, or rejects all of them when it is no array, of another length, or a throw |
| BatchLoader.OneBatch | packages/di-framework-graphql/src/loader.ts:44-51 | no promise enters two batches, or one batch twice |
| BatchLoader.Interleaving | packages/di-framework-graphql/src/loader.ts:15-67 | the class, driven by any events, goes through exactly the states of the run the other results are about |
| BatchLoader.BatchLoader.LoadKey | packages/di-framework-graphql/src/loader.ts:20-30 | a cached key gives its old promise and queues nothing, another one a new queued promise |
| BatchLoader.BatchLoader.StartDispatch | packages/di-framework-graphql/src/loader.ts:46-50 | a dispatch moves the whole queue into one batch, and none if it is empty |
| BatchLoader.BatchLoader.Settle | packages/di-framework-graphql/src/loader.ts:52-66 | the loop over a batch settles its promises as the specification says, each at most once |
| StableJson.StableInjective | packages/di-framework-graphql/src/resolvers.ts:85-102 | trees with one text are the same tree up to key order, whatever order keys are compared in |
| StableJson.StableExactly | packages/di-framework-graphql/src/resolvers.ts:85-102 | under a strict order of keys, trees within the depth limit share a text exactly when they are the same up to key order |
| StableJson.StableIs | packages/di-framework-graphql/src/resolvers.ts:85-102 | the recursion gives the JSON text of the tree with sorted keys, or the depth error exactly when something lies deeper than 64 |
| StableJson.LoaderKeyInjective | packages/di-framework-graphql/src/resolvers.ts:402-405 | two loader keys are equal only for one class name, one property and one argument text |
| Connection.PageForward | packages/di-framework-graphql/src/connection.ts:103-146 | paging forward from each end cursor visits every item once, in order |
| Connection.PageBackward | packages/di-framework-graphql/src/connection.ts:103-146 | paging backward from each start cursor does the same |
| Connection.SameAsRelay | packages/di-framework-graphql/src/connection.ts:103-130 | on cursors of existing items the page is that of section 4.4 of the Relay Cursor Connections specification exactly unless before is not behind after and something is left to return |
| Connection.ConnectionFromArray | packages/di-framework-graphql/src/connection.ts:103-146 | the page is the contiguous window of the four arguments with its cursors and flags, and which argument error comes first |
| Connection.CursorRoundTrip | packages/di-framework-graphql/src/connection.ts:45-55 | the cursor of an index reads back as the index |
| Connection.SignedOffset | packages/di-framework-graphql/src/connection.ts:50-56 | an offset written with a sign reads with it, so a negative one is no cursor |
| EventIterator.RunNumbered | packages/di-framework-graphql/src/resolvers.ts:538-580 | in every interleaving, with any number of outstanding calls, the k-th call gets the k-th event, the end goes only to calls beyond the last event, and kept events and waiting calls never coexist |
| EventIterator.AcceptedAll | packages/di-framework-graphql/src/resolvers.ts:547-563 | what the iterator takes in is every event that is not skipped, up to the end |
| EventIterator.StepKeeps | packages/di-framework-graphql/src/resolvers.ts:547-570 | a reply given is never changed by a later event, call or end |
| EventIterator.Interleaving | packages/di-framework-graphql/src/resolvers.ts:538-580 | the class, driven by any events, goes through exactly the states of the run the other results are about |
| EventIterator.EventIterator.FinishAll | packages/di-framework-graphql/src/resolvers.ts:556-563 | the loop ends every waiting call |
| PushStream.RunKeeps | packages/di-framework-rpc/src/client.ts:41-108 | in every interleaving what the consumer was given is a prefix of what was accepted, all of it before it sees the end or the first error, and buffered items and waiting readers never coexist |
| PushStream.AcceptedAll | packages/di-framework-rpc/src/client.ts:50-82 | unless the consumer stops early, what is accepted is what is pushed before the first end or error |
| PushStream.StepKeeps | packages/di-framework-rpc/src/dispatcher.ts:34-98 | no step gives anything back, reopens a closed stream or replaces its error |
| PushStream.Interleaving | packages/di-framework-rpc/src/client.ts:41-108 | the class, driven by any events, goes through exactly the states of the run the other results are about |
| PushStream.Drain | packages/di-framework-rpc/src/client.ts:84-107 | a consumer left alone with a closed stream is given everything accepted and then the end or the error |
| PushStream.PushStream.EndStream | packages/di-framework-rpc/src/dispatcher.ts:52-61 | the first end or error closes the stream and releases the waiting reader; later ones do nothing |
| PushStream.PushStream.Advance | packages/di-framework-rpc/src/dispatcher.ts:74-95 | the generator yields buffered items before it returns, throws or waits |
| StreamSessions.FedExactly | packages/di-framework-rpc/src/dispatcher.ts:136-157 | a session whose id is not reused while it runs takes in exactly the values sent to its id from its call up to its last frame or the end of the call, whatever happens to other sessions |
| StreamSessions.GivenInOrder | packages/di-framework-rpc/src/dispatcher.ts:74-98 | its handler is given a prefix of them |
| StreamSessions.RegisteredExactly | packages/di-framework-rpc/src/dispatcher.ts:141-157 | in every run frames reach a session exactly while neither its last frame nor the end of its call has come, nor a call or end of another session with its id |
| StreamSessions.AbortedExactly | packages/di-framework-rpc/src/dispatcher.ts:141-156 | an undisturbed session's signal is aborted exactly when an error frame was sent to its id while it was live |
| StreamSessions.ReuseCutsOff | packages/di-framework-rpc/src/dispatcher.ts:269-271 | the end of a call removes its id even when a later call has taken it, and that call's frames are lost |
| StreamSessions.RunKeeps | packages/di-framework-rpc/src/dispatcher.ts:136-157 | the table leads only to sessions of its ids, and every session's stream stays a channel |
| StreamSessions.Interleaving | packages/di-framework-rpc/src/dispatcher.ts:136-157 | the class, driven by any events, goes through exactly the states of the run the other results are about |
| StreamSessions.RpcDispatcher.DispatchStreamFrame | packages/di-framework-rpc/src/dispatcher.ts:141-157 | a frame pushes to, ends or fails the stream under its id, and the last one takes the id out of the table; others are ignored |
| PendingCalls.RunKeeps | packages/di-framework-rpc/src/client.ts:282-391 | in every run every call is pending or settled, an armed timer or listener means it is pending, and a promise settled stays as it was settled, out of the table |
| PendingCalls.Interleaving | packages/di-framework-rpc/src/client.ts:282-391 | in every interleaving a call leaves the table at most once and its promise is resolved or rejected exactly once, by that very step |
| PendingCalls.RejectedExactly | packages/di-framework-rpc/src/client.ts:371-382 | a failed send settles exactly the calls of its payload that are still pending |
| PendingCalls.RpcClient.Register | packages/di-framework-rpc/src/client.ts:304-351 | a call is entered with its timer and listener, or rejected at once and not entered when its signal has aborted |
| PendingCalls.RpcClient.OnResponse | packages/di-framework-rpc/src/client.ts:282-294 | a response takes a pending call out with its timer and listener, and is ignored otherwise |
| PendingCalls.RpcClient.OnTimeout | packages/di-framework-rpc/src/client.ts:340-347 | a timer that fires finds its call pending, takes its listener away and settles it |
| PendingCalls.RpcClient.OnAbort | packages/di-framework-rpc/src/client.ts:324-334 | an abort listener that fires finds its call pending, clears its timer and settles it |
| PendingCalls.RpcClient.OnSendFailure | packages/di-framework-rpc/src/client.ts:371-382 | the loop over the payload settles what the specification says |
| SqlLock.RunInOrder | packages/di-framework-repo/src/sql-lock.ts:10-57 | in every interleaving tickets are served in call order and at most one lease is active |
| SqlLock.EndedStays | packages/di-framework-repo/src/sql-lock.ts:41-57 | a lease that has ended never becomes active again, and a call made under it takes a ticket like any other |
| SqlLock.TurnTaken | packages/di-framework-repo/src/sql-lock.ts:41-57 | in any run the first ticket not released yet begins, ends and is released by its own events, threw or not, and the next one can then begin |
| SqlLock.TurnsExactly | packages/di-framework-repo/src/sql-lock.ts:41-57 | in the order of turns each ticket begins and ends once, in ticket order, and no turn begins before the one before it has ended |
| SqlLock.Interleaving | packages/di-framework-repo/src/sql-lock.ts:10-57 | in every interleaving turns begin in call order, each ended before the next begins, and only the ticket that has its turn holds a lease |
| SqlLock.Drain | packages/di-framework-repo/src/sql-lock.ts:10-25 | every queued call gets its turn whether the bodies before it return or throw |
| SqlLock.ContextLock.Call | packages/di-framework-repo/src/sql-lock.ts:41-57 | a call under its active lease runs directly and takes no ticket; one whose lease has ended queues like any other |
| SqlLock.ContextLock.Begin | packages/di-framework-repo/src/sql-lock.ts:13-20 | only the oldest unreleased ticket can begin |
| SqlLock.ContextLock.ReleaseMutex | packages/di-framework-repo/src/sql-lock.ts:20-24 | a release lets exactly the next ticket begin |
| Codegen.Generator.Generate | packages/di-framework-codegen/src/generate.ts:86-206 | check mode changes nothing and reports drift exactly when a generated file is missing or different or a stale owned one is listed; a write run leaves exactly the specified files and ledger; every generated and every stale owned file is reported with its status; it throws exactly when it cleans and the ledger lists a stale owned file twice |
| Codegen.CleanThenCheck | packages/di-framework-codegen/src/generate.ts:86-206 | after a cleaning run that ran through, a check reports no drift |
| Codegen.Idempotent | packages/di-framework-codegen/src/generate.ts:86-206 | a write run without cleaning, repeated, changes neither files nor ledger |
| Codegen.WriteTwice | packages/di-framework-codegen/src/generate.ts:86-206 | two write runs without cleaning leave what one leaves |
| Codegen.OthersUntouched | packages/di-framework-codegen/src/generate.ts:154-203 | a path that is not generated is deleted exactly when the run cleans, the ledger lists it and its content begins, behind white space, with the header; otherwise it keeps its content |
| Codegen.HeaderExactly | packages/di-framework-codegen/src/ledger.ts:8-10 | a text is owned exactly when it begins, behind white space, with the header |
| Codegen.WrittenOnce | packages/di-framework-codegen/src/generate.ts:154-206 | a ledger that a run has written lists no stale owned file twice, whatever is there and is generated later, so no cleaning run throws on it |
| Codegen.TwiceListed | packages/di-framework-codegen/src/generate.ts:154-190 | a ledger that repeats the entry of a stale owned file makes a cleaning run throw |
| Codegen.CleanLater | packages/di-framework-codegen/src/generate.ts:86-206 | a cleaning run after a write run of anything leaves its own files up to date and exactly them in the ledger |
| Codegen.AllUpToDate | packages/di-framework-codegen/src/generate.ts:192-198 | after a write run every generated file has its content |
| Codegen.Generator.ProcessStale | packages/di-framework-codegen/src/generate.ts:154-190 | the loop over stale files deletes, keeps or reports the owned ones, and throws exactly when it meets a deleted one again |
| Codegen.Generator.FindStale | packages/di-framework-codegen/src/generate.ts:86-96 | the stale list holds exactly the listed existing files that are not generated, repeats included |
| Codegen.SavedIs | packages/di-framework-codegen/src/ledger.ts:31-44 | the saved ledger is sorted, without repeats, and lists what it was given |
| Codegen.SavedSame | packages/di-framework-codegen/src/ledger.ts:31-44 | the saved ledger depends on which files are listed and not on how |
| ConfigPath.MergedLookup | packages/di-framework-config/src/path.ts:72-110 | a merge is the path-wise right-biased union: source values win, objects merge, nothing is left below a source value that is no object, and uncovered target paths survive |
| ConfigPath.MergedTwice | packages/di-framework-config/src/path.ts:64-110 | merging the same source again changes nothing, not even the order of keys |
| ConfigPath.DeepMerge | packages/di-framework-config/src/path.ts:72-110 | the loop computes the merge, or the depth error exactly when the source nests objects beyond the limit |
| ConfigPath.FlattenEntries | packages/di-framework-config/src/path.ts:116-150 | the stack loop fails exactly when an object lies too deep, and else lists every safe path once, behind the given prefix, with the value reading that path gives |
| ConfigPath.FlattenedExactly | packages/di-framework-config/src/path.ts:116-150 | any reordering of the paths of an object with plain keys lists each dotted path once, reads back its value, and misses none |
| ConfigPath.PathsAre | packages/di-framework-config/src/path.ts:135-147 | the walk lists exactly the paths through safe keys at which there is a value |
| ConfigPath.DottedInjective | packages/di-framework-config/src/path.ts:137-137 | two paths of plain keys with one dotted form are the same path |
| ConfigPath.GetByPath | packages/di-framework-config/src/path.ts:23-33 | the cursor loop computes the reading function the lemmas are about |
| ConfigPath.SetThenGet | packages/di-framework-config/src/path.ts:38-54 | the value written at a path is read there, and a path that neither extends nor is extended by it reads as before |
| ConfigPath.WriteThenRead | packages/di-framework-config/src/path.ts:38-54 | a value written at a path text is read there when the path has a part and none of the three reserved names; any other path writes nothing |
| ConfigPath.ReservedUntouched | packages/di-framework-config/src/path.ts:27-99 | behind `__proto__`, `prototype` or `constructor` nothing is read, and a merge takes nothing from there |

## Left out

- EbnfTheorem.RoundTrip: a string that ends in a backslash is not decided inside a list of several actions or inside a condition, nor, outside `CommentLost` and `BackslashDocumentFails`, in a document that also holds a comment mark in a string.
- EbnfTheorem.RoundTrip: well-formed means what the format's types and its own parser ask for: identifiers for names and methods, safe attribute paths, non-empty action, role and scope lists, distinct names, resources and rule ids.
- Json.RoundTrip: a number is the decimal text the language prints for it, and lone surrogates in strings are not escaped, since characters are Unicode scalar values here.
- Float64.RoundTrip: arithmetic is over reals with a rounding function of which only exactness on representable results is assumed; malformed tuples that pass through unchanged are not modelled.
- Float64.IntegerParameterReturns: the host turns the number -0 into the integer 0; other parameter kinds, row decoding and statements are left out.
- Container.Container.Resolve: service-binding auto-registration, events, telemetry and cron hooks are left out; constructors and factories do not throw and do not call the container; `registerFactory` records definitions as `Register` does; `construct` with overrides is left out.
- Preflight.Run: instantiating configuration classes and reading their bean metadata are left out; the flattened bean definitions are the input.
- Lifecycle.Reachable: calls of start or stop from inside a component's own running code are left out, as is a falsy thrown value, which the source does not take for an error; stopping cron jobs is left out.
- QueryNameRoundTrip.RoundTrip: free descriptive words in a subject, case mapping beyond ASCII letters, and limits beyond the safe integers are left out; the method name stored in the plan is left out.
- QueryExec.OrderedStably: columns of mixed kinds or with NaN are left out of the ordering result, since the comparator is no order on them; string order is by character.
- QueryExec.FilterEntities: pattern matching, string conversion, lower-casing and date reading are parameters; two arrays or objects are never equal, and a date that cannot be read not even to itself, since identity is not modelled; indexes into arrays in a property path read as undefined.
- QueryStore.InMemoryRepository.Execute: the check for a missing id and custom id functions are left out; pagination and lookup by several ids are left out.
- QueryCost.Measure: parsing of documents and the comparison with the configured limits are left out.
- StubPruning.GraphBuilder.PruneUnreferencedStubs: members of unions are not followed, as in the source; the other passes of the graph builder, boundary validation and input reachability are left out.
- BatchLoader.RunDirect: `loadMany` is `load` for each key and left out; a batch function that works index by index is assumed only here.
- StableJson.StableExactly: undefined values and objects shared between two places of one tree, which the source reports as cyclic, are left out; a class is known by its name only, as in the loader key itself.
- Connection.CursorRoundTrip: base64 is taken as an inverse pair with a rejected rest; fractional page sizes, `connectionFromSlice` and `toConnection` are left out.
- PushStream.RunKeeps: undefined items, which are dropped when buffered, and falsy errors, which do not close the stream, are left out; one consumer.
- StreamSessions.FedExactly: what a session sends back, hydration and interceptors are left out; a null id counts as none.
- PendingCalls.RunKeeps: pending streams, batches, interceptors and transports are left out; ids are the sequence numbers that make them unique.
- SqlLock.RunInOrder: the lease of a transaction view and the guarded statement methods, single-branch wrappers of a guard, are left out.
- Codegen.Generator.Generate: manifests, emitters, companion initialisation, directories, diagnostics texts and the JSON text of the ledger are left out; path resolution is a parameter that undoes relativisation.
- ConfigPath.DeepMerge: objects are values, so sharing with the inputs and cycles are left out; inherited properties are not read; indexes into arrays read as undefined.
- ConfigPath.SetThenGet: writing is a function of the object, so update in place is not captured.
- Decorators, metadata registries, routers, transports, the actor runtime, queue workers, cryptography and code emitters are left out: they are plain recording, I/O or library calls.
