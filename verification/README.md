# LightShip: a verified model

LightShip lets people search a ClickHouse table of trace spans under access policies. This project models, in Dafny,
the three parts its safety rests on, and proves what each promises.

**Authorized queries.** A policy is a CEL expression over marked fields and caller attributes. It is converted to a
typed predicate (`Policy`), compiled to SQL text with positional arguments (`Expression`), combined over the programs
of a caller (`Translate`), and embedded in three statements (`Traces`, `Reader`). A user's filter takes the same way
(`Filter`). SQL texts are sequences of tokens; `SqlSyntax`, `SqlRoundTrip` and `SqlText` give a printer and a
recursive-descent reader that consumes placeholders in order, and `SqlSemantics` and `SqlRows` evaluate what was read:
three-valued logic, aggregates, windows, grouping, subqueries, ordering and limits over a table that is a sequence of
rows. The reference is CEL evaluation in which a missing key is an error that `&&` and `||` absorb (Logical Operators
in the CEL language definition). `ExpressionMeaning`, `PolicyMeaning`, `ListMeaning`, `SpansMeaning` and `Access`
connect the two, from the text sent to the database to the traces that come back; `CelExact` says exactly when a
caller's access is what CEL grants. `PolicyAccepts` and `FilterAccepts` say which policies and filters are accepted, as
a grammar and a table; `Entitled` says who sees what in terms of the stored model alone: the roles a session holds and
the texts of their policies.

**The scroll and the export.** `Scroll` composes pages into a whole; `Page` streams one out and reads one in, over the
tokens of JSON (`Json`, sections 4 and 5 of RFC 8259), and `PageAccepts` says which texts are a page; `Export` is the
loop that follows cursors to a file. `Handlers` answers requests and binds a cursor to its filter, `CursorBinding` says
to which filters exactly. Put together: an export holds every span of every visible trace, each once, and whoever
follows the cursors of the list (`Endpoint`) is told of every trace the policies grant and the filter matches, once.

**The versioned access model.** `Store` holds the rows and the transactions that change them, `ModelRuns` the
read-validate-write protocol, `StoreRuns` every interleaving of writers, provisioning and boots. `Cache` is one
replica's snapshot, `CacheRuns` any number of replicas and threads with one clock. `Admin` is the administrator's
credential over boots, environment values, password changes and logins.

Code that works by changing things is imperative here too: the compiler with its two buffers, the statement builders,
the page writer and its sink, the page decoder and its file, the exporter, the database, the cache and the admin store
are classes and loops, each proved against a function of its inputs or of its old state. The lemmas are about those
functions.

## Where the code does not do what is said of it

- `Admin.ReconfiguredIgnored`, `Admin.ReconfiguredApplies`: the comment in `internal/store/store.go:286-287` says that
  a boot without an environment hash clears the tracker, so that configuring a hash again is always a rotation. The
  branch that generates a password keeps the tracker. The model follows the code and gives the exact condition.
- `Translate.DroppedWhole`, `CelExact.EqualExactly`: a program that mentions an attribute the caller lacks is dropped
  whole, where CEL's `||` could have absorbed the error. The result is sound (`Translate.AgainstCel`). It is what CEL
  says on every span unless the dropped program could still have been true and no other program grants everything
  (`CelExact.NothingLost`, for all programs); if so, and no field is compared twice, there is a span that is lost
  (`CelExact.SomethingLost`). A policy such as `user.tenant == tenant && ...` cannot be true without the attribute, so
  nothing is lost by dropping it.
- `Filter.BetweenReordered`: the canonical form of a filter sorts the bounds of `between` as well, so two accepted
  filters that select different spans share a cursor binding, unless the bounds are equal.
- `CursorBinding.SeparatorCollides`: a cursor is meant to be bound to the filter it was produced under
  (`internal/httpapi/traces.go:435-438`). The canonical form joins texts without escaping, so a value that contains a
  separator can be taken for two. Without separators the binding is exact (`CursorBinding.CanonicalExactly`).
- `docs/concepts/policies.mdx:50` says that malformed serialized arrays satisfy no policy. The code has no guard for
  them, so the model makes no such claim.
- A page of spans is ordered by the start of each whole trace and the list by its start within the window. The two
  agree on which traces are on a page, not always on their order within it; `Access.SpansAnswers` says exactly this.

## Model

The main results come first, then what they rest on, file by file.

| member | source | states |
|---|---|---|
| ExpressionMeaning.LowerMeaning | internal/expression/expression.go:183-350 | for every valid predicate, row, caller and polarity, the emitted SQL is TRUE under three-valued logic exactly when the error-absorbing CEL verdict is true (false for the negation); it raises no error itself |
| ExpressionMeaning.CompileMeaning | internal/expression/expression.go:166-181 | a predicate is refused as invalid or as unsatisfiable exactly when it is; otherwise its text reads back as one operand with the meaning CEL gives it |
| PolicyMeaning.ConvertMeaning | internal/policy/policy.go:109-368 | on every span and for every caller the predicate an accepted CEL tree is converted to says what CEL says, including fields on the right, mirrored operators, membership, member calls and exists |
| AccessModel.ProgramMeaning | internal/policy/policy.go:94-107 | a compiled policy says on every span what CEL says about its source text, and names only what is declared |
| Translate.PredicateMeaning | internal/policy/translate.go:22-37 | the predicate of a caller is TRUE exactly on the spans a program that applies says true of, raises no error, and is one bracketed operand that nothing around it can regroup |
| CelExact.EqualExactly | internal/policy/translate.go:22-37 | the exact condition, for programs that compare no field twice: the predicate of a caller and CEL agree on every span if and only if no dropped program can still be true while no program that applies grants everything; both are read off the programs and the attributes |
| CelExact.NothingLost | internal/policy/translate.go:22-37 | for all programs: as long as no dropped program can be true, or one that applies grants everything, the predicate is what CEL says on every span |
| CelExact.SomethingLost | internal/policy/translate.go:26-29 | otherwise there is a span that CEL grants and the caller does not get |
| Access.StatementsReadBack | internal/traces/traces.go:136-161 | whatever predicate, filter, cursor, page and projection, each of the three statements reads back as the one statement it was written for, every placeholder with its own argument |
| ListMeaning.ListIsPage | internal/traces/traces.go:103-186 | evaluated over any table, the statement returns the next page of the scroll: the admitted and matching traces below the cursor, strictly descending in (start, id) through any ties, none skipped, each with a truthful summary |
| SpansMeaning.SpansRun | internal/traces/traces.go:256-323 | for any trace ids, wherever they come from, every span of the authorized ones among them, each once, in order, and no row of another trace |
| Entitled.PermittedExactly | internal/httpapi/traces.go:30-58 | a span is permitted to the request of a session exactly if the session holds the admin role, or some other role of the model with a policy whose text CEL says is true of the span for a caller who has its attributes |
| PolicyAccepts.CompileAccepts | internal/policy/policy.go:94-107 | a text compiles exactly if it parses to a policy: of what is converted, equality and its opposite on strings and truth values, membership, and what is built from these |
| PolicyAccepts.ConvertAccepts | internal/policy/policy.go:109-368 | the trees that are converted are exactly those of a grammar over CEL and the declared names: truth values, and/or/not, a comparison with a field on either side and a value of its type on the other, both forms of in, the member calls and exists |
| Endpoint.WalkVisitsAll | internal/httpapi/traces.go:114-118 | from policies in CEL to the answers of the list: whoever follows the cursors until there is none has been told of every trace the session may see that matches the filter, exactly once, newest first, and of no other |
| Endpoint.AnswerIsPage | internal/httpapi/traces.go:70-120 | whatever is answered is the next page of the traces with a span the session may see and one that satisfies the filter, with the truth about each; it has a cursor exactly if it is full, and that holds its last position and its filter |
| Access.ListAnswers | internal/traces/traces.go:103-189 | end to end from programs to summaries: the next page of the traces visible to the caller and matching the filter, with its last position as cursor |
| Access.SpansAnswers | internal/traces/traces.go:256-323 | the spans of a page are every span of every trace listed on it, each once, and nothing else; applying the policy again removes nothing, and the order is by the start of the whole trace |
| Access.DetailAnswers | internal/traces/traces.go:383-425 | an authorized trace is returned whole in time order; any other is answered like one that does not exist |
| Access.QuantifiersAgree | internal/policy/translate.go:39-49 | for every window: countIf over the group and membership in the subquery both say whether a span in it satisfies the policy, countIf and sum over the whole trace both say whether any does, the first implies the second, and they coincide when every such span is in the window |
| Access.AccessIsMonotone | internal/policy/translate.go:22-37 | adding programs, or attributes beside the ones there are, never removes a trace from the list or from sight |
| Handlers.FilterNarrows | internal/traces/traces.go:119-134 | for any cursor, table and policy at the time of a page, each trace on it has in the window a span the caller may see and one single span satisfying all conditions together |
| FilterAccepts.FilterAccepted | internal/filter/filter.go:81-105 | a filter is accepted exactly if it is not too long and each condition is on a filterable field with an operator and values for its type |
| CursorBinding.CanonicalExactly | internal/filter/filter.go:202-225 | without separators in the texts, two filters have the same canonical form exactly if they are the same but for the order of conditions and of the values of each |
| CursorBinding.CursorFitsReordered | internal/httpapi/traces.go:441-469 | between filters the model accepts, a cursor fits exactly the rearrangements of its own filter |
| Filter.SpansPermuted | internal/filter/filter.go:81-105 | a filter and its rearrangement, with the bounds of between in place, are both accepted and build predicates that are TRUE on the same spans |
| Filter.BetweenReordered | internal/filter/filter.go:206-210 | for every accepted filter of one between: with its bounds exchanged it is accepted too and has the same canonical form, and the two predicates are TRUE on the same spans if and only if the bounds are equal |
| Handlers.PageSurvivesReordering | internal/httpapi/traces.go:70-118 | sent again in another order, the bounds of between in place, a filter gets the same page in the same place |
| Page.PageReadBack | internal/localmcp/localmcp.go:456-513 | a page printed whole is read back as the same binding, rows and cursor |
| PageAccepts.PageExactly | internal/localmcp/localmcp.go:456-513 | a text is accepted exactly if it is a JSON object with spans and nothing after it; read are all its spans in order, its last binding and its last cursor, whatever the order of its members, and unknown members are skipped |
| Page.CutIsRejected | internal/localmcp/localmcp.go:456-513 | a page cut anywhere before its closing brace is refused, even with a torn string, number or literal at its end |
| Export.Exporter.Run | internal/localmcp/localmcp.go:295-392 | the loop ends, never reports a repeated cursor, and publishes only after the last page: a file with every span of every visible trace, each once, with its true span and page counts; it does succeed if every request for the first page or after a readable cursor is answered whole and the file has room |
| StoreRuns.StoredModelCompiles | internal/store/store.go:1075-1218 | in every interleaving of writers, provisioning and boots, at every moment, every reading of what is stored compiles |
| StoreRuns.CommitsAreProposals | internal/store/store.go:1075-1191 | in every run each committed change leaves exactly the proposal that was validated, one version further |
| StoreRuns.VersionIdentifies | internal/store/store.go:1092-1097 | in every run the version never goes back, and equal versions mean equal binding, fields, keys and roles |
| StoreRuns.AdminIsProtected | internal/store/store.go:1156-1198 | in every run the admin role is exactly the bypass policy from the first boot on, and not there before: no change of any writer makes, alters or removes it |
| CacheRuns.RevocationBound | internal/model/model.go:91-153 | in every interleaving of any number of replicas, threads and commits, a get whose freshness was checked a TTL or more after a commit serves that version or a later one; slow and failed loads do not extend the bound |
| CacheRuns.NeverBackwards | internal/model/model.go:91-110 | versions served by one replica never go back across gets that do not overlap |
| CacheRuns.RefreshIsFinal | internal/model/model.go:128-137 | once a refresh has returned, with success or an error, no get begun later serves less than what was stored when it was asked for |
| CacheRuns.LoadsApart | internal/model/model.go:91-110 | two kept loads of one replica with no refresh between them start at least a TTL apart, however many threads ask |
| Admin.ChosenPasswordSurvives | internal/store/store.go:263-281 | a password chosen by the administrator survives any number of boots, logins and sessions with the environment unchanged |
| Admin.FirstsAreGenerated | internal/store/bootstrap.go:52-66 | in every run logins marked first never outnumber generated passwords |
| Admin.FirstLoginOnce | internal/store/bootstrap.go:52-66 | a generated password is followed by exactly one login marked as first, through any changes of the password and any restarts that keep it |
| Admin.SessionsExactly | internal/store/store.go:259-322 | in every run a session is open exactly if it has been opened and neither a rotation nor a password change elsewhere came after, so it survives every other boot |
| Admin.ReconfiguredApplies | internal/store/store.go:285-316 | clearing the environment for one boot and configuring a hash again applies it exactly if a password was stored or the hash is not the one applied last |
| Schema.KeyIdentifies | internal/schema/schema.go:117 | the map and name parts joined by a NUL byte identify a field, in both directions, as long as map names are plain identifiers; the name part is unrestricted |
| SqlRoundTrip.ReadBack | internal/expression/expression.go:176-236 | a printed expression, in front of any tokens that cannot continue it, is read back as the same tree with its i-th placeholder bound to its i-th argument |
| SqlRoundTrip.ReadBackQuery | internal/traces/traces.go:136-161 | the same for whole statements, through subqueries, select lists, grouping, HAVING, ordering and LIMIT |
| SqlText.ReadBackText | internal/expression/expression.go:176-180 | text and arguments as a builder holds them read back as exactly one well-formed expression, and no token or argument is left over |
| SqlText.ReadBackStatement | internal/traces/traces.go:136-161 | text and arguments of a statement read back as exactly one statement |
| SqlText.JoinOneMore | internal/expression/expression.go:198-213 | appending an operator and one more operand to a text gives the text of the chain with one more operand, arguments in step |
| SqlText.CalcText | internal/traces/traces.go:140-142 | the text of a calculation between two operands |
| Expression.Compiler.Emit | internal/expression/expression.go:183-236 | appends to both buffers exactly the text and arguments of the lowered tree, negation pushed to the leaves; fails exactly if lowering is refused |
| Expression.Compiler.EmitConnective | internal/expression/expression.go:198-213 | the loop over the operands leaves one bracketed AND or OR chain in the order of the operands, exchanged under negation |
| Expression.Compiler.EmitLeaf | internal/expression/expression.go:238-350 | guard, comparison and arguments of a leaf, the guard outside the negation |
| Expression.Compiler.EmitTest | internal/expression/expression.go:267-348 | the comparison of a leaf on the text of its operand; the arguments follow the key that the operand mentions |
| Expression.Compiler.EmitMembership | internal/expression/expression.go:292-344 | has, hasAny, hasAll, startsWith and BETWEEN with one placeholder per value |
| Expression.Compiler.EmitExists | internal/expression/expression.go:214-233 | existence of a map key under either polarity; a scalar column always exists |
| Expression.Compiler.EmitValues | internal/expression/expression.go:352-365 | one placeholder and one argument per value, stopping at the first attribute the caller lacks |
| Expression.Compile | internal/expression/expression.go:166-181 | validates first, then compiles with a fresh builder: the result is the decided function of predicate, profile and caller that CompileMeaning is about |
| ExpressionMeaning.LowerRefs | internal/expression/expression.go:367-376 | a predicate is refused exactly when it refers, anywhere, to an attribute the caller lacks |
| ExpressionMeaning.MissingSatisfiesNothing | internal/expression/expression.go:239-264 | a missing key, or a value that does not convert, satisfies no comparison in either polarity |
| ExpressionMeaning.MeaningExtended | internal/expression/expression.go:367-376 | attributes a predicate does not mention do not change what it says |
| ExpressionMeaning.PolicyIsFilter | internal/expression/expression.go:50-95 | whatever validates as a policy validates as a filter and lowers to the same tree |
| ExpressionMeaning.PolicyExactly | internal/expression/expression.go:50-95 | of what validates as a filter, exactly the predicates with a prefix, existence, hasAny, hasAll, an order, between or a number anywhere in them do not validate as a policy |
| ExpressionMeaning.ResolvedTypes | internal/expression/expression.go:97-156 | the values of a validated leaf, once resolved for a caller, have the type its comparison needs |
| Policy.NewEnv | internal/policy/policy.go:34-79 | accepts exactly the field lists without an invalid policy field or a column that is both scalar and map; then declares each column once with its type, and the last field of a key wins |
| Policy.Declare | internal/policy/policy.go:44-75 | one field more: the declarations for all fields so far, or a refusal that the fields deserve |
| Policy.AddRole | internal/policy/policy.go:387-395 | adds the programs of a role and reports exactly the policies that do not compile |
| Policy.BuildRegistry | internal/policy/policy.go:384-401 | succeeds exactly if every policy of every role compiles; then each role name has its programs in order, roles of the same name joined, and otherwise the policies that do not compile are named |
| PolicyMeaning.ConvertWithin | internal/policy/policy.go:333-368 | the result names only policy-marked fields and declared attributes |
| PolicyMeaning.ConvertGrows | internal/policy/policy.go:275-316 | declaring more attributes keeps every accepted tree accepted, with the same result |
| PolicyAccepts.EnvHolds | internal/policy/policy.go:34-79 | what a model declares: under a key the last field marked for policies that has it, for a column the type of the first such field, its attributes, and nothing else |
| PolicyAccepts.ComparisonTurns | internal/policy/policy.go:173-214 | a comparison is accepted exactly when the one turned round is, with the same result |
| PolicyAccepts.BroaderDoesNotCompile | internal/policy/policy_test.go:206-216 | a text with a call such as startsWith or exists anywhere in it, or with an order comparison, does not compile |
| PolicyAccepts.ConvertMentions | internal/policy/policy.go:275-316 | a program refers to exactly the attributes its text mentions |
| AccessModel.Compile | internal/model/model.go:51-65 | succeeds exactly for models that compile, and then yields a coherent environment with the registry of its roles and the admin program |
| AccessModel.CompilesInAnyOrder | internal/model/model.go:51-65 | a model whose rows come in another order, with distinct keys, compiles as well and to the same environment |
| AccessModel.CompilesWithMoreAttrs | internal/store/store.go:790-816 | provisioning attribute keys keeps a compiling model compiling |
| Entitled.RegistryHolds | internal/policy/policy.go:384-401 | the registry has under every name one program for each policy of the roles of that name, in their order; so it has a program exactly if such a policy compiles to it |
| Entitled.CompilesExactly | internal/model/model.go:51-65 | a model compiles exactly if its fields are acceptable and the text of every policy, and of the admin program, parses to a policy |
| Translate.Predicate | internal/policy/translate.go:22-37 | compiles every program, drops those whose attributes the caller lacks, and ORs the rest in order within one pair of brackets; refused exactly if none is left |
| Translate.PredicateReadsBack | internal/policy/translate.go:22-37 | its text reads back as that one tree with every argument in place |
| Translate.RefusedIff | internal/policy/translate.go:14-37 | access is refused outright exactly when every program refers to an attribute the caller lacks |
| Translate.AccessGrows | internal/policy/translate.go:22-37 | more programs, or more attributes beside the ones there are, never hide a span, whatever the programs negate |
| Translate.DroppedWhole | internal/policy/translate.go:26-29 | equality with CEL does fail otherwise: a concrete program that CEL grants to everybody and a caller without the attribute to whom it grants nothing |
| CelExact.MeaningCanBe | internal/expression/expression.go:352-376 | no span brings out a verdict that the shape of a predicate and the attributes of the caller rule out |
| CelExact.Witness | internal/expression/expression.go:238-350 | every verdict they do not rule out is brought out by some values of the fields, as long as no field is compared twice |
| CelExact.ModelIsConsistent | internal/policy/policy.go:34-79 | the programs of one model always tell their fields and columns apart |
| CelExact.DroppedLoses | internal/policy/translate.go:26-29 | the program of DroppedWhole meets the condition for a loss |
| Translate.HavingText | internal/policy/translate.go:39 | countIf(q) > 0 is the text of that tree, the arguments unchanged |
| Traces.TraceIDsText | internal/policy/translate.go:41-49 | the id subquery is the scope and the predicate joined by AND, arguments of the scope first |
| Traces.ListStatement | internal/traces/traces.go:103-161 | the assembled text and arguments are those of one statement: the policy in a subquery on trace ids, filter and cursor in HAVING |
| Traces.ListText | internal/traces/traces.go:136-161 | that statement clause by clause |
| Reader.WidenedKeeps | internal/traces/traces.go:219-242 | widening the projection keeps what was there, adds every column needed and adds none twice |
| Reader.Lists | internal/traces/traces.go:210-242 | refuses exactly the projections with a name that is no identifier; otherwise the inner and outer select lists |
| Reader.SpansStatement | internal/traces/traces.go:256-313 | one placeholder per trace id; the policy is applied again over whole traces, its arguments before the ids |
| Reader.DetailStatement | internal/traces/traces.go:383-415 | the statement for one trace |
| Reader.TraceReader.List | internal/traces/traces.go:103-189 | an empty page without a statement if no program applies; otherwise the rows of the list statement with the position of the last one as next cursor |
| Reader.TraceReader.Spans | internal/traces/traces.go:256-323 | lists first, returns nothing for an empty page, and otherwise sends the span statement for the ids of the page; a cursor only with a full page |
| Reader.TraceReader.Detail | internal/traces/traces.go:383-425 | a refused predicate and an empty result are both answered as not visible |
| ListMeaning.IdsRun | internal/policy/translate.go:41-49 | the subquery yields exactly the ids of the traces with an admitted span in the window |
| ListMeaning.HavingMeaning | internal/policy/translate.go:39 | countIf(f) > 0 is true of a group exactly if some span in it satisfies f |
| ListMeaning.ListKeeps | internal/traces/traces.go:119-161 | the rows grouped are those of the window whose trace has an admitted span in the window |
| ListMeaning.ListGroups | internal/traces/traces.go:126-161 | one group for every trace that is due after the cursor, sorted newest first and cut at the limit |
| Visibility.EarliestIs | internal/traces/traces.go:145-146 | min(timestamp) is the time of one of the spans, and none is earlier |
| Visibility.LatestIs | internal/traces/traces.go:140-142 | max(timestamp) is the time of one of the spans, and none is later |
| Visibility.RootIs | internal/traces/traces.go:143 | argMin(name, timestamp) is the name of a span that is among the earliest |
| ListMeaning.SummaryIsTruthful | internal/traces/traces.go:137-149 | a summary gives the start and name of an earliest span, the milliseconds until the last span starts and the number of spans |
| SpansMeaning.DetailRun | internal/traces/traces.go:383-425 | every span of the trace in time order if some span satisfies the policy, and nothing otherwise |
| Access.Assemble | internal/httpapi/traces.go:30-58 | refused exactly if the model has no binding; the programs are those of the roles held, with the admin role standing for its own program |
| Access.ListedAreOpen | internal/traces/traces.go:119-134 | each trace on a page has in the window a span the policy admits, so it is open to the statements that look at it whole |
| Entitled.ListShows | internal/traces/traces.go:103-189 | from the stored model to a page: the next page of exactly the traces with a span the session may see and one that matches, in the window, with the truth about each |
| Entitled.OpenExactly | internal/traces/traces.go:383-425 | a trace is open to a request exactly if the session may see some span of it |
| Entitled.DetailShows | internal/traces/traces.go:383-425 | a trace is returned whole to a session that may see some span of it, and is not found by any other |
| Filter.Express | internal/filter/filter.go:107-169 | each wire operator with the branch, value checks and error the handler has for it |
| Filter.Build | internal/filter/filter.go:81-105 | refuses too many conditions and unknown or unfilterable fields, and ANDs the rest |
| Filter.Canonical | internal/filter/filter.go:202-214 | the values of each condition and then the conditions sorted as text, joined |
| Filter.ConditionMeaning | internal/filter/filter.go:107-169 | an accepted condition is a valid predicate without attributes that is true of a span exactly if the operator holds of its field |
| Filter.BuildAccepts | internal/filter/filter.go:81-105 | a filter is accepted exactly when it is short enough and each condition is acceptable by itself |
| Filter.BuildMeaning | internal/filter/filter.go:81-105 | the built SQL is TRUE on a span exactly if that one span satisfies all conditions together |
| Filter.BetweenBounds | internal/filter/filter.go:107-169 | an accepted between is on a number and has two numbers for bounds |
| Filter.CanonicalPermuted | internal/filter/filter.go:202-214 | reordering the conditions and the values within them never changes the canonical form |
| Filter.SatisfiedPermuted | internal/filter/filter.go:81-105 | reordering conditions, and the values of every operator but between, does not change which spans satisfy the filter; a between with its bounds in place may be among them |
| Filter.AcceptedPermuted | internal/filter/filter.go:81-105 | reordering conditions and values, even the bounds of between, never changes whether a filter is accepted |
| FilterAccepts.ExprAccepts | internal/filter/filter.go:107-181 | a condition is accepted on a field exactly if its operator takes, for the type of the field, the value or the values it carries, as a table lists them |
| FilterAccepts.FilterableIs | internal/filter/filter.go:85-94 | the field that counts for a key is the last one marked as filterable that has it |
| FilterAccepts.OperatorsFor | internal/filter/filter.go:54-79 | the operators offered for a type are exactly those that some condition on a field of the type can use |
| CursorBinding.AcceptedSame | internal/filter/filter.go:202-225 | for two filters that the model accepts this means that one is a rearrangement of the other |
| CursorBinding.SeparatorCollides | internal/filter/filter.go:202-214 | with a separator in a value two accepted filters that select different spans share a canonical form |
| Handlers.PlanSpans | internal/httpapi/traces.go:191-222 | succeeds exactly if projection, cursor, model and filter are all good and the cursor was issued for this filter, and otherwise names the first of these that fails; policy, binding and filter then come from one snapshot |
| Handlers.ListTraces | internal/httpapi/traces.go:70-120 | the answer to a list request: the first fault of cursor, model and filter, or one page read for the session with its filter from where the cursor stands, and a cursor only with a full page |
| CursorBinding.CursorBelongs | internal/httpapi/traces.go:202-206 | with a digest that tells forms apart, a cursor fits exactly the filters that are its own but for order; with any other the request is refused as belonging to a different filter |
| Handlers.CursorSurvivesReordering | internal/httpapi/traces.go:441-469 | a cursor goes on fitting a filter whose conditions and values have been reordered |
| Scroll.PageExtends | internal/traces/traces.go:126-134 | a page extends what was received without gap, overlap or disorder, and one that is not empty shortens what remains |
| Scroll.ShortPageEnds | internal/httpapi/traces.go:114-118 | a page that is not full completes the scroll |
| Scroll.ScrollVisitsAll | internal/httpapi/traces.go:114-118 | following cursors from the empty one visits every visible trace exactly once, strictly descending |
| Scroll.ScrollEnds | internal/traces/traces.go:318-322 | with a limit of at least one there are no more full pages than traces |
| Scroll.PagesAreUnique | internal/traces/traces.go:126-161 | two requests in the same place get the same positions |
| Handlers.ListFollows | internal/httpapi/traces.go:70-118 | whoever sends each cursor the list hands out gets pages that follow one another |
| Handlers.ListVisitsAll | internal/httpapi/traces.go:70-118 | following the cursors of the list until there is none lists every visible trace that matches exactly once, newest first |
| Handlers.ListEnds | internal/httpapi/traces.go:114-118 | all pages but the last are full, so there are no more of them than the visible traces fill |
| Endpoint.AcceptedIsAnswered | internal/httpapi/traces.go:70-120 | a filter that the model accepts is answered, from the start and from every cursor handed out under it |
| Endpoint.WalkEnds | internal/httpapi/traces.go:114-118 | there are no more answers than the traces that are due fill, and one |
| Json.ReadBack | internal/localmcp/localmcp.go:456-513 | a printed JSON value is read back, whatever follows it |
| Json.ParseKeepsDepth | internal/localmcp/localmcp.go:456-513 | reading a value leaves the nesting of the stream as it was |
| PageAccepts.ParseExactly | internal/localmcp/localmcp.go:456-513 | a value is read exactly off its printed text |
| PageAccepts.SpansAreArray | internal/localmcp/localmcp.go:483-499 | reading the spans token by token is reading an array of JSON |
| Page.DecodePage | internal/localmcp/localmcp.go:456-513 | succeeds exactly on a complete page whose rows fit the file, and has then appended exactly its rows and returned its binding, cursor and count |
| Page.WriteSpanPage | internal/httpapi/traces.go:270-339 | reports success only for a whole page of all rows with the right count; writes nothing before the first row is read and encoded; every other run leaves a cut-off beginning of a page |
| Page.WriteRest | internal/httpapi/traces.go:303-324 | the row loop: after each row exactly the beginning of the page with the rows so far |
| Page.WriteEnd | internal/httpapi/traces.go:325-338 | the end of the array, the cursor and the closing brace complete the page, or leave a beginning of it |
| Page.Put | internal/httpapi/traces.go:270-339 | whatever part of a write gets through, what the client has is a beginning of the page |
| Page.AcceptedIsBalanced | internal/localmcp/localmcp.go:456-513 | only a balanced text that opens an object is accepted, whatever its members |
| Export.ProgressPage | internal/localmcp/localmcp.go:334-372 | a whole page takes the export one page further: its spans are those of the next traces, none missed and none twice, and its cursor is new |
| Export.ReplyReads | internal/localmcp/localmcp.go:414-454 | an attempt yields the page asked for or an error |
| Export.WriterIsHonest | internal/httpapi/traces.go:270-339 | a server that streams a page as above meets what the export assumes of it, however the run and the connection end |
| Store.GroupRoles | internal/store/store.go:1026-1052 | the rows of the join grouped by role: each name once, its policies in order, none lost |
| Store.LoadModel | internal/store/store.go:971-1062 | a model with every stored row of one snapshot once, and its version |
| Store.Database.ReplaceBinding | internal/store/store.go:1101-1125 | commits the binding only at the expected version, raising it by one; otherwise changes nothing |
| Store.Database.ReplaceFields | internal/store/store.go:1129-1153 | replaces the whole marked set, or changes nothing |
| Store.Database.ReplaceRole | internal/store/store.go:1156-1191 | replaces the policies of one role, or changes nothing; the admin role is refused at any version |
| Store.Database.RemoveRole | internal/store/store.go:1195-1218 | removes a role, or changes nothing; the admin role is refused at any version, an unknown one at the current version |
| Store.Database.SetAttrs | internal/store/store.go:790-816 | sets the attributes of a user beside those there are, registers their keys and raises the version exactly if one of them is new; a key that is no identifier changes nothing |
| Store.Database.CreateUser | internal/store/store.go:506-543 | adds a user with their attributes and registers the keys, or changes nothing |
| Store.Database.PatchAttributes | internal/store/store.go:606-653 | a merge patch: named attributes set or removed, the others kept, the result returned; all of it or nothing |
| Store.Database.EnsureAdminRole | internal/store/store.go:219-247 | the admin role then has its bypass policy, nothing else has changed, and the version goes up |
| Store.AppliesExactly | internal/store/store.go:1101-1218 | a change is applied exactly if it does not name the admin role and the tables can hold it: distinct fields of known types, distinct titles, a role that is there |
| ModelRuns.ReplaceInPlace | internal/httpapi/schema.go:258-270 | the copied role list with the role replaced in place or appended |
| ModelRuns.Apply | internal/httpapi/schema.go:26-42 | a proposal is stored only if it compiles and nothing has changed since it was read; a refused or stale one changes nothing |
| ModelRuns.ProposalStored | internal/httpapi/schema.go:165-300 | what is stored after a change is a reading of the proposal, nothing more and nothing less but for the order of rows |
| ModelRuns.EveryReadingCompiles | internal/store/store.go:971-1062 | if one reading of the stored rows compiles, every reading does, in whatever order the rows come |
| ModelRuns.RemovalCompiles | internal/httpapi/schema.go:285-300 | removing a role, which is not compiled first, cannot break the model |
| ModelRuns.KeysUsable | internal/store/store.go:790-816 | provisioning, which is not compiled first, cannot break the model |
| ModelRuns.AdminUsable | internal/store/store.go:219-247 | bootstrap, which is not compiled first, cannot break the model |
| StoreRuns.AdminStep | internal/store/store.go:219-247 | only a boot changes the admin role, and nothing but its bypass |
| StoreRuns.AdminNeverCommitted | internal/store/store.go:1156-1198 | no writer ever commits a change that names the admin role |
| Cache.Cache.RefreshLocked | internal/model/model.go:139-153 | keeps a load only if it took less than a TTL, dated from before it began; a failed one changes nothing |
| Cache.Cache.Refresh | internal/model/model.go:128-137 | the old snapshot is gone even if the reload fails |
| Cache.Cache.Get | internal/model/model.go:91-110 | serves what is fresh at the first look, or what other calls have left that is fresh at the second; otherwise a load, or nothing |
| Admin.AdminStore.EnsureAdmin | internal/store/store.go:219-331 | the three branches of a boot; an invalid hash changes nothing |
| Admin.AdminStore.ConsumeFirstLogin | internal/store/bootstrap.go:58-66 | answers yes exactly if the mark is set, and clears it |
| Admin.AdminStore.SetOwnPassword | internal/store/store.go:730-761 | stores the password and ends every session but the one kept; a hash that is not valid changes nothing |
| Admin.ConfiguredHash | internal/store/store.go:259-286 | a configured hash is tracked from then on; it becomes the password unless it was tracked before |
| Admin.RotationRevokes | internal/store/store.go:263-286 | in every run a session that is open after a rotation was opened after it |
| Admin.ReconfiguredIgnored | internal/store/store.go:294-316 | a run in which a configured hash is passed over |
| Translate.AgainstCel | internal/policy/translate.go:22-37 | sound against CEL for every caller; the plain case of CelExact.NothingLost, with every attribute present, is equality |
| StoreRuns.StaleChangesNothing | internal/store/store.go:1081-1090 | a writer whose model is out of date changes nothing |
| Admin.SameEnvironment | internal/store/store.go:263-281 | a boot with the hash applied last changes neither password nor sessions |
| Admin.GeneratedOnlyIfNone | internal/store/store.go:294-316 | a password is generated exactly if none is stored and no hash is configured |
| Access.RolesAdd | internal/httpapi/traces.go:38-51 | holding a further role keeps every program |

## Left out

- Lexing: texts are sequences of tokens, so the quoting of identifiers, and a column named like a keyword, are not modelled.
- The CEL parser and type checker are a parameter; only the trees they accept are modelled. CEL's refusal of a variable declared twice is part of `Policy.NewEnv`.
- Base64, SHA-256 and the JSON spelling of numbers and strings: cursor and row encodings are parameters with an exact inverse where one is needed. The filter's digest is any function; where it has to tell forms apart (`CursorBinding.DigestTells`) that is an assumption, as the code keeps eight bytes of a hash.
- NaN, nullable scalar columns and malformed serialized arrays: numbers are totally ordered reals, decoding a serialized array is a total function.
- Time: a time is a real number of nanoseconds; that the driver binds the bounds of a window with less precision is not modelled.
- Of several earliest spans, `argMin` names the first in the table's order; a database may pick another. `1e6` is the token of one million, and calculations are read one at a time, as the one statement brackets them.
- CelExact.EqualExactly: for programs that compare a field twice, two comparisons may contradict each other, which the condition does not see; it is then sufficient (`CelExact.NothingLost`) but not necessary.
- Table columns named like the markers the span statements add (`SpansMeaning.NoMarkers`), or like the aliases of the list statement.
- Rows that lack a column: a table has every column a program, a filter or a projection mentions, with values of its type, as a database table does.
- Faults of the database: connections answer each text by what it reads as (`Access.Faithful`); errors of the connection are passed on by the handlers and not modelled further.
- A table that changes during an export: `Export` is about a fixed table; `Handlers.FilterNarrows` is about each page by itself and holds across changes.
- The request an export builds, the parsing of its window (`fixedWindow`) and the file system: a partial file is a list of lines with room for so many, published whole or not at all.
- CursorBinding.CanonicalExactly: assumes that no text has one of the three separators in it; `CursorBinding.SeparatorCollides` shows that it fails otherwise, but not every text with a separator collides with another.
- Previewing a role (`internal/httpapi/server.go:186-217`), which replaces the roles of an administrator's session for one request.
- Paging limits and their defaults (`internal/httpapi/traces.go:176-182`), the projection parser and the audit log.
- The schema endpoints that describe fields and operators, and `expression.Operators`, which lists what `Validate` accepts.
- Checking columns against the live table, discovery and index suggestions.
- Postgres: transactions hold the version row from its lock to their end; other row locks, deadlocks and serialization failures are not modelled. `LoadModel` reads one snapshot.
- Role assignments, API keys, passwords of users other than the administrator and enrolment (`must_change_password`).
- Admin.SameEnvironment: says nothing of sessions created between the check of a password and its change; login reads the hash and opens the session in separate statements, and both are separate events here.
- HTTP routing, MCP tool dispatch, configuration, CLI and the web interface.
