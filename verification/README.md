# PyTagManager: a verified model

This project models the parts of PyTagManager whose correctness is hardest to see by reading, and proves what they promise. `dafny verify dfyconfig.toml` checks all of it.

**Conditions, variables, expressions, validation and preview.** The wildcard matcher is the source's loop with one saved star, proved equal to a recursive matcher on every input and to the glob language on exactly the values without `*`. The memoising variable resolver, with its cache and in-progress set, is proved to return what each variable means when resolved from scratch, on every payload: cycles only ever show in error text. The taint search is exactly reachability of a sensitive variable, and untainted records are independent of what sensitive variables read; what a trace still tells of them is exactly statuses and error messages. Validation reports exactly the errors that are due, and a payload that passes never makes the resolver meet an unknown variable or a cycle.

**Projection to PyTagShield.** A compiler from condition trees to event-name patterns, related to the evaluator and to the preview: when the preview of an event fires the tag of a route that selects it, and exactly which conditions, triggers and routes deliver nothing that the preview would withhold.

**Idempotency stores.** A lazily purging cache and an eagerly purging table, related over whole runs; they agree, and the table's claims are exclusive, exactly as long as no claim is made on an id whose holder outlived the time to live.

**Control plane.** A store of containers with immutable revisions, environments and an audit log, changed by calls that each hold the lock: creating, importing and cloning containers, and calls on any of them. Every state that any mixture of these can reach satisfies one invariant, and containers that begin as one chain with pointers that validate stay so and can be cloned.

**Publication tree, crawler, document walk, diff, journeys, data dictionary.** State machines and loops with the guarantees that other parts rely on: interleaved publishers always leave a tree that the independent checker accepts, workers never overshoot the page cap, selectors address exactly one element, a diff is a patch.

Some promises are false of the code on some inputs. The model keeps the code's behaviour and gives the input and the exact condition: `Glob.MatcherExactIffValueStarFree` and `Glob.MatcherExactIffPatternStarFree`; `Probing.NeverBroadensIffProbesPass`, `Delivery.TriggerNeverBroadensIff` and `Probing.RouteNeverBroadensIffProbesPass`, with short forms for conditions without globs; `Redaction.TracesHideIff`; `DedupeRuns.StoresAgreeIffNoStaleClaim` and `DedupeRuns.TableExclusiveIffNoStaleClaim`; `StoreRuns.ImportHealthyIff`; `ContainerRecords.RunReadableIff`; `EnvironmentHistory.TellsOwnIff`, `EnvironmentHistory.PointerNamesIff` and `PublisherRuns.DigestMatchesIff`; `Crawler.FullIffNoLateFailure`; `Dom.SelectorsUnambiguousIff`; `Diff.ChangedFieldsIff`; `Journey.StartsWithAnchorIff`; `Dictionary.BuildDataDictionary`; and, for the limits of expressions, `ExpressionSyntax.NestingLimitDecides`.

The documentation at python/pytagmanager/control/pytagshield.py:9-10 says that projection never broadens delivery. The code does so on two kinds of input: `equals` and `in` literals that contain wildcards become patterns unescaped, and the patterns of a trigger that expects an event type select events of every other type as well, because a route does not carry the type.

The modules whose names end in `Laws`, `ConditionScope` and `Redaction` say what the operations mean in terms of values, paths, names and payloads alone: types, orderings, paths, conversions, the verdicts of a preview, what an export delivers, what each call on a container does, and what published files say.

Modules follow the source files. `Json` and `Wrappers` hold shared types, `Sorting` the sorting of sets by a key that several modules need. Classes stand for the source's mutable objects. Digests (revision checksums, SHA-256) are values that contain what they digest, so distinct contents have distinct digests; new ids are numbers not used before.

## Model

| member | source | states |
|---|---|---|
| `Glob.PatternMatches` | python/pytagmanager/control/conditions.py:157-185 | The one-saved-star loop terminates on every pattern and value and returns exactly `Accepts`, the recursive matcher in which a star facing a star is eaten as a literal. |
| `Glob.NewerStarSubsumes` | python/pytagmanager/control/conditions.py:173-180 | Why forgetting all stars but the last is right: whatever an older star could still accept, the newer one accepts too. |
| `Glob.ValueEndDecides` | python/pytagmanager/control/conditions.py:183-185 | When the value ends, an earlier way of aligning the segment helps only if the rest of the pattern is all stars. |
| `Glob.AcceptsIsSound` | python/pytagmanager/control/conditions.py:157-185 | On every input, a match means the value is in the glob language of the pattern. |
| `Glob.AcceptsIsComplete` | python/pytagmanager/control/conditions.py:157-185 | For a value without `*`, every word of the language is matched. |
| `Glob.RefuterRefutes` | python/pytagmanager/control/conditions.py:167-173 | For every value with a star there is a pattern that the matcher answers differently from the glob language (for `**` it is `*`). |
| `Glob.MatcherExactIffValueStarFree` | python/pytagmanager/control/conditions.py:157-185 | The matcher decides the language of every pattern on a value if and only if the value contains no `*`. |
| `Glob.DoubledStarRefutes` | python/pytagmanager/control/conditions.py:157-185 | For every pattern with a star there is a value that the matcher answers differently: the pattern itself with its last star doubled. |
| `Glob.MatcherExactIffPatternStarFree` | python/pytagmanager/control/conditions.py:157-185 | The matcher decides a pattern's language on every value if and only if the pattern contains no `*`. |
| `Glob.WildcardFreeMatchesItselfOnly` | python/pytagmanager/control/conditions.py:167-169 | A pattern without wildcards matches exactly itself. |
| `Glob.EveryPatternMatchesItself` | python/pytagmanager/control/conditions.py:167-169 | Every pattern, wildcards included, matches its own text. |
| `ConditionLaws.OrderLaws` | python/pytagmanager/control/conditions.py:225-235 | On numbers the four orderings are one order: `gt` negates `lte`, `lt` negates `gte`, the weak ones are the strict ones or `equals`, never both `gt` and `lt`, and `equals` is `gte` and `lte` together; for any path and context that resolve to the number. |
| `ConditionLaws.OrderDirection` | python/pytagmanager/control/conditions.py:225-235 | `a gt b` if and only if `b lt a`, and the order is transitive, integers and floats mixed. |
| `ConditionLaws.OrderIsNumeric` | python/pytagmanager/control/conditions.py:228-234 | The order is that of the numbers written: `gt` on integers is greater, on floats likewise, and between the two. |
| `ConditionLaws.OnlyNumbersAreOrdered` | python/pytagmanager/control/conditions.py:188-189 | Texts, booleans, null, lists and objects are in no order: all four comparisons fail on them. |
| `ConditionLaws.EqualsIff` | python/pytagmanager/control/conditions.py:143-154 | `equals` accepts a scalar only for itself, except that an integer equals the float of its value; lists equal lists and objects objects of the same normal form. |
| `ConditionLaws.InIsAnyEquals` | python/pytagmanager/control/conditions.py:207-208 | `in` is the disjunction of `equals` over the list. |
| `ConditionLaws.TextLaws` | python/pytagmanager/control/conditions.py:209-218 | On texts `starts_with` holds if and only if the text is the value and a rest, and `contains` if and only if the value stands somewhere in it. |
| `ConditionLaws.OnlyTextsHaveParts` | python/pytagmanager/control/conditions.py:209-224 | What is not a text starts with nothing, matches no glob and, unless it is a list, contains no text. |
| `ConditionLaws.ContainsIsSomeIndex` | python/pytagmanager/control/conditions.py:214-215 | A list contains a value if and only if the path extended by some position, in decimal from zero, equals it. |
| `ConditionLaws.FieldPath` | python/pytagmanager/control/conditions.py:127-140 | One more path segment names a field in an object, and nothing in a scalar or below what is missing. |
| `ConditionLaws.IndexPath` | python/pytagmanager/control/conditions.py:134-137 | In a list it names the element at that position, if there is one. |
| `ConditionLaws.NoIndexPath` | python/pytagmanager/control/conditions.py:135-136 | In a list a segment that is not all digits names nothing. |
| `ConditionLaws.ExistsIff` | python/pytagmanager/control/conditions.py:200-201 | `exists` holds of whatever resolves, null included. |
| `ConditionLaws.MissingSatisfiesNothing` | python/pytagmanager/control/conditions.py:203-235 | A path that resolves to nothing satisfies no comparison. |
| `ConditionSyntax.ValidateNode` | python/pytagmanager/control/conditions.py:82-115 | With the node counter shared by the whole tree: succeeds exactly when the document parses, its nodes still fit the counter and its levels the depth limit; then it returns the parsed condition and a counter advanced by exactly its nodes. |
| `ConditionSyntax.ParsedIsRendered` | python/pytagmanager/control/conditions.py:82-115 | What parses is already written the way its condition is written: normalizing rewrites nothing, and paths and values are well formed throughout. |
| `ConditionSyntax.RenderedParses` | python/pytagmanager/control/conditions.py:82-115 | Round trip: every well-formed condition is read back from the document it is written as. |
| `ConditionSyntax.ValidateCondition` | python/pytagmanager/control/conditions.py:118-124 | Accepts a document if and only if it is the written form of an admissible condition (well formed, within 512 nodes, 33 levels, 65536 bytes), and returns that condition. |
| `SyntaxLaws.OperatorNames` | python/pytagmanager/control/conditions.py:25-38 | Which operator each written name stands for, in conditions and in expressions. |
| `SyntaxLaws.WrittenConditions` | python/pytagmanager/control/conditions.py:82-115 | A document with `all`, `any`, `not` or `exists` is read as that condition over the parts it lists. |
| `SyntaxLaws.WideConditions` | python/pytagmanager/control/conditions.py:83-85 | The node limit, on conjunctions: up to 511 simple parts are admitted and no more. |
| `SyntaxLaws.DeepConditions` | python/pytagmanager/control/conditions.py:86-87 | The depth limit, on nested negations: up to 32 are admitted and no more. |
| `SyntaxLaws.ValidPathsStart` | python/pytagmanager/control/conditions.py:42-58 | A path begins with a part that the context of every event has, is at most 256 characters long, and has no empty segment and no double underscore. |
| `SyntaxLaws.ContextIsReachable` | python/pytagmanager/control/conditions.py:23 | Conversely each part of the context is one that paths may begin with. |
| `SyntaxLaws.ValuesAdmitted` | python/pytagmanager/control/conditions.py:69-79 | An ordering or a text comparison is admitted with a value if and only if some actual value can satisfy it. |
| `SyntaxLaws.LongPaths` | python/pytagmanager/control/conditions.py:42-46 | The length limit of paths, on one segment below `event`: up to 250 characters. |
| `ExpressionSyntax.ValidateNode` | python/pytagmanager/control/expressions.py:46-79 | The same for computed expressions, with argument lists of 1 to 64 members. |
| `ExpressionSyntax.RenderedParses` | python/pytagmanager/control/expressions.py:46-79 | Round trip from a well-formed expression through its document. |
| `ExpressionSyntax.ParsedIsRendered` | python/pytagmanager/control/expressions.py:46-79 | What parses is already in normal form. |
| `ExpressionSyntax.NestingIsCost` | python/pytagmanager/control/expressions.py:38-43 | For every expression, the nesting of its document is its cost: one for each operator on the deepest path, one more for each argument list that is not empty, and the nesting of a literal. |
| `ExpressionSyntax.LevelsWithinCost` | python/pytagmanager/control/expressions.py:46-51 | An expression has no more levels than it costs, so the recursion limit never decides. |
| `ExpressionSyntax.NestingLimitDecides` | python/pytagmanager/control/expressions.py:50-87 | Which expressions the recursion limit allows and the nesting limit refuses: exactly those with at most 17 levels that cost 17 or more. |
| `ExpressionSyntax.CostOfLists` | python/pytagmanager/control/expressions.py:38-43 | With scalar literals and no empty lists, the cost lies between the levels and the levels plus the deepest count of argument lists. |
| `ExpressionSyntax.SevenNestedLists` | python/pytagmanager/control/expressions.py:17-90 | Of argument lists nested in each other around a variable, validation admits exactly those up to seven deep, where the recursion limit allows sixteen. |
| `ExpressionSyntax.ValidateExpression` | python/pytagmanager/control/expressions.py:82-90 | Accepts a document if and only if it is the written form of an expression that is well formed, costs at most 16, and fits the node and byte limits; and returns that expression. |
| `SyntaxLaws.WideExpressions` | python/pytagmanager/control/expressions.py:65-70 | An argument list has one to 64 members. |
| `SyntaxLaws.LargeExpressions` | python/pytagmanager/control/expressions.py:46-49 | The node limit, on two lists of variables side by side: 125 members together. |
| `SyntaxLaws.LargeDocuments` | python/pytagmanager/control/expressions.py:88-89 | The size limit of expressions: up to 32768 bytes. |
| `Expressions.EvalMonotone` | python/pytagmanager/control/expressions.py:119-193 | Turning failing references into succeeding ones never changes an expression that already had a value. |
| `Expressions.EvalDependsOnIds` | python/pytagmanager/control/expressions.py:93-193 | The value of an expression depends on no variable but those `iter_variable_ids` yields. |
| `ConversionLaws.ConvertedType` | python/pytagmanager/control/expressions.py:139-192 | Each conversion yields a value of its own type or an error, never nothing, and hands an error on; only JSON parsing can yield any value. |
| `ConversionLaws.ConvertTwice` | python/pytagmanager/control/expressions.py:139-176 | A value that has the type already is kept, so converting twice is converting once. |
| `ConversionLaws.ToNumberIff` | python/pytagmanager/control/expressions.py:139-155 | To a number convert numbers and the texts that the host reads as one; booleans do not. |
| `ConversionLaws.ToTextIff` | python/pytagmanager/control/expressions.py:156-166 | To a text convert all scalars but null; true becomes `true`. |
| `ConversionLaws.ToBooleanIff` | python/pytagmanager/control/expressions.py:167-179 | To true convert exactly true, 1 and the texts read as true, to false exactly false, 0 and the texts read as false. |
| `ConversionLaws.BooleanRoundTrip` | python/pytagmanager/control/expressions.py:163-179 | Booleans survive the way through text, if the host reads the two words back. |
| `ConversionLaws.ReferencesIff` | python/pytagmanager/control/expressions.py:93-103 | The references of an expression are exactly the variables that occur in it, however deep. |
| `ConversionLaws.ParseIff` | python/pytagmanager/control/expressions.py:180-187 | JSON parsing takes texts and yields what the host reads. |
| `ConversionLaws.LengthIff` | python/pytagmanager/control/expressions.py:188-192 | Exactly texts, lists and objects have a length. |
| `ConversionLaws.ConcatJoins` | python/pytagmanager/control/expressions.py:134-138 | The concatenation of texts is the texts joined in order. |
| `ConversionLaws.ConcatNeedsTexts` | python/pytagmanager/control/expressions.py:134-138 | One argument that is not a text makes it an error, wherever it stands. |
| `ConversionLaws.LengthOfConcat` | python/pytagmanager/control/expressions.py:134-192 | The length of a concatenation is the sum of the lengths. |
| `ConversionLaws.CoalesceIsFirst` | python/pytagmanager/control/expressions.py:128-133 | `coalesce` yields its first argument that is neither missing nor null. |
| `ConversionLaws.CoalesceOfNothing` | python/pytagmanager/control/expressions.py:128-133 | If all are missing or null it is missing, never null. |
| `Resolver.VariableResolver.Resolve` | python/pytagmanager/control/variables.py:95-143 | From any cache left by earlier calls and any in-progress set built by the resolver: terminates, restores the in-progress set, returns a record that serves for the variable, and leaves exactly the cache of the functional run. Outside the in-progress set the record is the variable's meaning from scratch (same status, value and sensitivity on every payload, cyclic or not; same error text when acyclic). |
| `Resolver.VariableResolver.ResolveValue` | python/pytagmanager/control/variables.py:160-207 | Source, default and type check give the from-scratch record although nested resolutions were served from the cache. |
| `Resolver.VariableResolver.EvaluateExpression` | python/pytagmanager/control/variables.py:225-272 | Evaluation through the caching callback yields the value the expression has under the from-scratch meanings. |
| `Resolver.VariableResolver.EvaluateCoalesce` | python/pytagmanager/control/expressions.py:128-133 | The value under the from-scratch meanings, and the value and cache of a run that evaluates arguments up to the first one neither missing nor null. |
| `Caching.LaterArgumentsUntouched` | python/pytagmanager/control/expressions.py:128-133 | Once a coalesce has its value the later arguments are not resolved: neither value nor cache depends on them. |
| `Resolver.VariableResolver.EvaluateConcat` | python/pytagmanager/control/expressions.py:134-138 | All arguments are evaluated before any is checked. |
| `Resolver.VariableResolver.ResolveAll` | python/pytagmanager/control/variables.py:92-93 | One record per declared variable, in order, each the meaning of its variable, whatever order and sharing the cache produced. |
| `RecordLaws.RecordRespectsType` | python/pytagmanager/control/variables.py:168-198 | Type soundness, on any payload: a record that has a value has one of its variable's declared type. |
| `RecordLaws.RecordOfReading` | python/pytagmanager/control/variables.py:160-198 | The record of an enabled variable that is not computed, from what it reads: a value of its type as it is, one of another type as an error; and without one its default, checked alike, or missing. |
| `RecordLaws.WrongTypeIsNamed` | python/pytagmanager/control/variables.py:179-188 | The error of a value of another type names the declared type. |
| `RecordLaws.RecordOfOthers` | python/pytagmanager/control/variables.py:99-123 | The records of a variable that is switched off and of one that does not exist. |
| `RecordLaws.ReferenceSees` | python/pytagmanager/control/variables.py:264-272 | An expression sees of a record its value, or that there is none, or an error when it failed or is switched off. |
| `RecordLaws.StaticReadsDefault` | python/pytagmanager/control/variables.py:211-212 | A static variable reads its default, be it null. |
| `RecordLaws.ReadsAsConditionsDo` | python/pytagmanager/control/variables.py:209-233 | A variable reads from page, data layer, event and consent state what a condition path of the same name resolves to. |
| `RecordLaws.DomTextReads` | python/pytagmanager/control/variables.py:235-249 | A selector alone reads `text`, else `textContent`, else `innerText`; a node that is no object is read itself, a null node counts as none. |
| `RecordLaws.DomAttributeReads` | python/pytagmanager/control/variables.py:250-262 | With an attribute named it reads that: one of the three texts from the node itself, any other from the node's attributes; `text` if none is named. |
| `RecordLaws.DirectlySensitiveIff` | python/pytagmanager/control/variables.py:67-82 | Sensitive in themselves are the variables declared so, those whose path ends in a sensitive key, and those that read a node or attribute by a sensitive name. |
| `RecordLaws.SensitiveIsRedacted` | python/pytagmanager/control/variables.py:33-48 | The trace of such a variable, and of any that reaches it through computed references, shows the placeholder in place of a value. |
| `RecordLaws.OthersAreShown` | python/pytagmanager/control/variables.py:33-48 | The trace of a record that is not flagged shows its value. |
| `Resolver.CycleRecordServes` | python/pytagmanager/control/variables.py:124-135 | A variable met while in progress cannot succeed, and the meeting proves a cycle, so the cycle error stands for its outcome. |
| `Resolver.CacheServesAfter` | python/pytagmanager/control/variables.py:137-143 | Finishing a variable overwrites a cycle record cached for it meanwhile, and the cache stays correct. |
| `Resolver.Sensitive` | python/pytagmanager/control/variables.py:145-158 | With the `seen` set shared between branches: true if and only if a directly sensitive variable is the variable itself or reachable through computed references. |
| `Resolver.SearchSensitive` | python/pytagmanager/control/variables.py:145-158 | The recursive step: a negative answer leaves every newly seen variable searched and clean. |
| `Denotation.PlainHasOutcome` | python/pytagmanager/control/variables.py:95-143 | On every payload, cyclic included: which variables are in progress is invisible in a variable's outcome, the least fixed point of the reference equations. |
| `Denotation.BoundedIsPlain` | python/pytagmanager/control/variables.py:95-143 | Resolution with a depth bound and resolution with an in-progress set have the same successes. |
| `Denotation.OutcomesSolveStep` | python/pytagmanager/control/variables.py:160-207 | Outcomes solve the recursive equation of every enabled variable, up to error text. |
| `Denotation.PlainIgnoresStrangers` | python/pytagmanager/control/variables.py:95-143 | Without cycles, in-progress variables that do not lie below a variable cannot affect its record. |
| `Denotation.AcyclicMeaningIsRecursive` | python/pytagmanager/control/variables.py:95-143 | On acyclic references the meaning is plain recursion over the reference graph, error texts included. |
| `Confidentiality.InsensitiveMeaningUnchanged` | python/pytagmanager/control/variables.py:145-207 | Changing what directly sensitive variables read, from the context, as their own constants or as their fallback defaults, changes nothing about the record of a variable not flagged sensitive, on any payload. |
| `Confidentiality.InsensitiveRecordsUnchanged` | python/pytagmanager/control/variables.py:92-207 | The same for two runs of the caching resolver, constants and defaults of sensitive variables included: an unflagged record has equal status and value in both, and is equal altogether without cycles. |
| `Confidentiality.CycleTextDependsOnOrder` | python/pytagmanager/control/variables.py:95-143 | Two resolvers for one cyclic payload, asked for `a` first and for `b` first: the records of `a` have different error texts and otherwise agree. |
| `Redaction.TraceSameIff` | python/pytagmanager/control/variables.py:33-50 | Two trace records of one variable, taken in worlds that differ only in secrets, are equal if and only if the error messages are and, for a flagged variable, the statuses; of an unflagged variable they are always equal without cycles. |
| `Redaction.TracesHideIff` | python/pytagmanager/control/variables.py:33-50 | Without cycles the traces of a payload are equal in two such worlds if and only if every flagged variable has the same status and error message in both: nothing else of a secret shows. |
| `Redaction.QuietTraceIsDiscreet` | python/pytagmanager/control/expressions.py:139-193 | If no expression that a variable reaches converts to a number or boolean or parses JSON, its error message quotes no value, directly or through a cause, on any payload. |
| `Redaction.ConversionShowsSecret` | python/pytagmanager/control/expressions.py:139-155 | Otherwise it may: a flagged variable that converts a secret text to a number shows the text in its message, while the value of the secret variable itself is redacted. |
| `Redaction.QuotingMessages` | python/pytagmanager/control/expressions.py:139-187 | The messages that quote: the conversions to number and boolean quote their operand, that to text its type, and JSON parsing what the host says. |
| `Redaction.PlainMessages` | python/pytagmanager/control/expressions.py:134-192 | The messages that do not. |
| `Validation.ComputedCycle` | python/pytagmanager/control/validation.py:64-78 | With `visiting` and `done` carried along: true only when a cycle is reachable; false restores `visiting` and leaves `done` closed under computed references and free of cycles. |
| `Validation.HasComputedCycle` | python/pytagmanager/control/validation.py:64-78 | Started with empty sets: true if and only if a cycle of computed variables is reachable from the start. |
| `Validation.SettledHasNoCycle` | python/pytagmanager/control/validation.py:67-68 | A finished variable has no cycle below it, so cutting the search there is sound. |
| `Validation.Validate` | python/pytagmanager/control/validation.py:81-274 | The error list contains exactly the errors that are due (duplicate ids, dangling references of triggers, variables and tags, cycles, unknown adapters, what the adapters find in tags and destinations), and is empty if and only if the payload is valid. |
| `Validation.ValidIffNothingDue` | python/pytagmanager/control/validation.py:81-274 | The declarative notion of a valid payload and the list of possible errors agree. |
| `ConditionScope.ListedIff` | python/pytagmanager/control/validation.py:55-61 | The variables listed for a condition are exactly those that some path of it names, alone or with more segments behind. |
| `ConditionScope.DependsOnListed` | python/pytagmanager/control/conditions.py:192-235 | A condition's answer depends on no variable but those listed for it, in presence or value, unless it looks at all variables at once. |
| `ConditionScope.ValidTriggersLookAtDeclared` | python/pytagmanager/control/validation.py:133-144 | So the triggers of a valid payload look at declared variables only. |
| `ExportLaws.ValidReferencesFound` | python/pytagmanager/control/validation.py:90-230 | A valid payload has one object per id, and the triggers, destinations and variables its tags name exist, so projecting it never misses one. |
| `ValidatedResolution.ValidPayloadIsAcyclic` | python/pytagmanager/control/validation.py:146-169 | A valid payload has acyclic computed references. |
| `ValidatedResolution.ValidatedNeverStructural` | python/pytagmanager/control/variables.py:99-135 | A payload that validates never makes the resolver report "unknown variable" or "computed variable cycle", directly or as the cause of another failure, whatever its cache held. |
| `Preview.ConsentState` | python/pytagmanager/control/preview.py:94-99 | Consent of a purpose is the override's, else the event's, else the stored one, else the default. |
| `Preview.ContextNamesEvent` | python/pytagmanager/control/preview.py:102-124 | Event properties, even one called `name`, never hide the event's own name from conditions. |
| `Preview.EventNameResolves` | python/pytagmanager/control/conditions.py:127-140 | The path `event.name` resolves to a string exactly when the context's event carries it as its name. |
| `PreviewLaws.ContextPaths` | python/pytagmanager/control/preview.py:102-124 | What paths find in an event's context: name and type, the properties (on the event itself too, unless called `name`, `type` or `properties`), the consent state, and the variables. |
| `PreviewLaws.MatchedIff` | python/pytagmanager/control/preview.py:19-28 | A trigger matches if and only if it is enabled, its condition holds, and the event has the type of its own name; triggers on page content and on variables take any type. |
| `PreviewLaws.ReasonOrder` | python/pytagmanager/control/preview.py:175-186 | Disabled comes before all other reasons, and unmet conditions are given only when they are unmet. |
| `PreviewLaws.TriggersByPriority` | python/pytagmanager/control/preview.py:170-173 | The trace lists triggers by falling priority, and those of one priority as declared. |
| `PreviewLaws.PreviewShowsVariables` | python/pytagmanager/control/preview.py:163-166 | In a preview, conditions see of a variable the value in its record, which has the declared type, and see nothing of one without a value. |
| `PreviewLaws.VerdictIff` | python/pytagmanager/control/preview.py:204-260 | The verdict on a tag from the trace itself: selected if and only if it is enabled, one of its triggers matched, and the purpose it names has consent; otherwise the first of these that fails; and it lists exactly its matched triggers. |
| `PreviewLaws.ConsentPrecedence` | python/pytagmanager/control/preview.py:94-99 | Whose word on consent counts: the override, the event, what was stored, the default. |
| `Preview.MatchTriggers` | python/pytagmanager/control/preview.py:168-188 | The matched ids are those of the triggers that fire: enabled, of the event's type, condition true. |
| `Preview.TraceTag` | python/pytagmanager/control/preview.py:204-220 | A tag is selected if and only if it is enabled, has a firing trigger and has consent for its purpose; otherwise the reason given is the first that applies, and the listed triggers are its firing ones in its own order. |
| `Simulation.PreviewEvent` | python/pytagmanager/control/preview.py:145-281 | End to end: consent, the meanings of all variables, the context built from them, triggers in priority then declaration order, and the verdict on every tag. |
| `Simulation.PreviewDetermined` | python/pytagmanager/control/preview.py:145-281 | A preview is determined by payload, event and consent, on cyclic payloads too: two of them differ at most in the text of variable errors. |
| `Projection.PatternImpliesCondition` | python/pytagmanager/control/pytagshield.py:73-124 | Never broadens: an event name selected by a projected pattern that no wildcard `equals`/`in` literal produced satisfies the condition. |
| `Projection.ConditionImpliesPattern` | python/pytagmanager/control/pytagshield.py:73-124 | Without an `all` of several children nothing is lost: an event that satisfies the condition is selected. |
| `Projection.ProjectionExact` | python/pytagmanager/control/pytagshield.py:73-124 | With wildcard-free literals and no conjunctions, patterns select exactly the events that satisfy the condition. |
| `Projection.FaithfulNeverBroadens` | python/pytagmanager/control/pytagshield.py:9-10 | The documented promise holds for every condition, globs included, whose wildcard literals did not become patterns. |
| `Projection.PatternsAreContributed` | python/pytagmanager/control/pytagshield.py:73-124 | The patterns are exactly the names the condition contributes: named by every child of an `all` and by some child of an `any`. |
| `Projection.ProjectedIff` | python/pytagmanager/control/pytagshield.py:73-124 | Which conditions have patterns: comparisons of the event name with texts, conjunctions of such with a pattern in common, and disjunctions; only the empty conjunction leaves the name open. |
| `Projection.NeverBroadensIffLiteralsPlain` | python/pytagmanager/control/pytagshield.py:81-95 | For conditions without `matches_glob` the exact condition is short: the projection keeps the promise if and only if no literal that it contributes contains a wildcard. For all conditions see `Probing.NeverBroadensIffProbesPass`. |
| `Projection.WildcardLiteralBroadens` | python/pytagmanager/control/pytagshield.py:81-95 | The smallest failure: `equals "a*"` selects the event `ab`, which the condition rejects. |
| `Projection.ConjunctionLosesEvents` | python/pytagmanager/control/pytagshield.py:99-113 | Intersecting patterns can lose an event that satisfies the condition; losing is the allowed direction. |
| `GlobProbes.EveryNameHasProbe` | python/pytagmanager/control/conditions.py:157-185 | Finitely many names stand for all: to the matcher, every name is like one over the letters of the given words and one other character whose length is at most two to the number of questions about suffixes of the words. |
| `GlobProbes.SomeOther` | python/pytagmanager/control/conditions.py:157-185 | The one other character always exists: one that no word contains, or any at all if the words contain every character. |
| `GlobProbes.Shortened` | python/pytagmanager/control/conditions.py:157-185 | A longer name has a part that can be left out without any of the words noticing, as pattern, as pattern after a star, or as literal. |
| `Probing.NeverBroadensIffProbesPass` | python/pytagmanager/control/pytagshield.py:73-124 | For every projectable condition, globs included: the projection keeps the promise if and only if it does on finitely many event names that the condition's words determine, so the promise can be decided before any event arrives. |
| `PyTagShield.AliasName` | python/pytagmanager/control/pytagshield.py:358-371 | The alias tells destination and purpose; if that is taken it adds the short id and the fewest underscores that make it unused. It is never one used before. |
| `PyTagShield.UnusedName` | python/pytagmanager/control/pytagshield.py:368-369 | Terminates with the given text followed by the fewest underscores that make it unused. |
| `PyTagShield.ProjectDestination` | python/pytagmanager/control/pytagshield.py:450-474 | One entry per (destination, purpose) pair: a known pair reuses its alias, a new one gets a fresh alias whose entry carries the purpose; earlier aliases keep delivering. |
| `PyTagShield.ProjectDestinations` | python/pytagmanager/control/pytagshield.py:424-475 | No error exactly when the tag has destinations and all are known and projectable; then every alias selected delivers to its destination under the tag's purpose. |
| `PyTagShield.ProjectTriggers` | python/pytagmanager/control/pytagshield.py:477-514 | The tag's patterns are those of its enabled projectable triggers; no error exactly when all its triggers are fine and some pattern exists. |
| `PyTagShield.ProjectTag` | python/pytagmanager/control/pytagshield.py:423-548 | A tag yields a route exactly when it is projectable, with its events and aliases, named by tag and short id with the fewest underscores that make the name unused; otherwise an error. |
| `PyTagShield.Project` | python/pytagmanager/control/pytagshield.py:374-577 | Routes are exactly those of the projectable tags, in order, with distinct names and distinct destination aliases; the export is free of errors if and only if salt and policy are given, there are tags, and every tag is projectable; the consent purposes are those of the entries. |
| `Delivery.TriggerNeverBroadensIff` | python/pytagmanager/control/pytagshield.py:127-137 | The promise for an enabled trigger, over events of every type: whatever event its patterns select fires it, if and only if the trigger expects no event type and its condition's projection keeps the promise. |
| `Delivery.ClickTriggerBroadens` | python/pytagmanager/control/pytagshield.py:127-137 | A click trigger on the event name `signup` also routes a custom event of that name, which the preview reports as a type mismatch. |
| `Delivery.RouteNeverBroadensIff` | python/pytagmanager/control/pytagshield.py:477-547 | For a route whose untyped triggers use no globs the exact condition is short: whatever event selects it fires a trigger of its tag, if and only if the route is disabled or each of its patterns is free of wildcards and is a name that an untyped trigger of the tag accepts. For all routes see `Probing.RouteNeverBroadensIffProbesPass`. |
| `Probing.RouteNeverBroadensIffProbesPass` | python/pytagmanager/control/pytagshield.py:477-547 | For every route, globs included: whatever event selects it fires a trigger of its tag, if and only if the route is disabled or, of finitely many names, each that its patterns select is accepted by a trigger of the tag that expects no event type. |
| `Probing.RoutedIsUntypedProjectable` | python/pytagmanager/control/pytagshield.py:477-514 | What that presupposes holds of every projectable tag if trigger ids are unique: its triggers that expect no event type constrain the event name. |
| `Delivery.NameDecides` | python/pytagmanager/control/pytagshield.py:73-124 | A projectable condition has the same answer on all events of one name. |
| `Delivery.SelectedRouteFires` | python/pytagmanager/control/pytagshield.py:477-547 | A selected route belongs to an enabled tag with triggers, and the tag fires as soon as one of its own triggers of the event's type contributes a matching pattern that no wildcard literal produced. |
| `Delivery.PlainTagFiresIff` | python/pytagmanager/control/preview.py:174-186 | Exactly which events fire a tag without conjunctions and wildcard literals in its triggers: those that a trigger of the event's type selects by name, or leaves unconstrained. |
| `Simulation.RoutedTagIsPreviewed` | python/pytagmanager/control/preview.py:204-220 | Projection against preview, for events of any type: when a route selects an event, the preview never reports its tag as disabled or without trigger; it is not withheld for unmet conditions when one of its triggers vouches for the event or the route keeps the promise; for plain triggers it is so withheld exactly when none of them covers the event; and otherwise it is selected exactly when its purpose has consent. |
| `Simulation.AliasesCarryPurpose` | python/pytagmanager/control/pytagshield.py:450-475 | Every alias a route names is the name of exactly one destination entry, and that entry is gated by the tag's purpose. |
| `ExportLaws.EntriesAreDestinations` | python/pytagmanager/control/pytagshield.py:449-474 | Every exported entry is that of a destination of the payload for a tag that names it: enabled if and only if the destination is, with the kind and settings resolved for it, gated by the purpose, and named after both. |
| `ExportLaws.ReachedIsEnabled` | python/pytagmanager/control/pytagshield.py:423-548 | Under the export an event reaches a destination only if the destination is enabled, an enabled tag names it, and an enabled trigger of that tag selects the event's name; and then under that tag's purpose. |
| `ExportLaws.EnabledIsReached` | python/pytagmanager/control/pytagshield.py:423-548 | And if so, and the tag is projectable, it does reach it. |
| `ExportLaws.UnconditionalTrigger` | python/pytagmanager/control/pytagshield.py:127-137 | A trigger without conditions can be expressed only if it is for page views, and then selects the events named `page_view`. |
| `Dedupe.DedupeCache.Claim` | python/pytagmanager/ingest/dedupe.py:45-54 | Purges what has expired, then answers completed, in flight or claimed, and records only the last. |
| `Dedupe.DedupeCache.Complete` | python/pytagmanager/ingest/dedupe.py:56-63 | The id leaves the in-flight set and is remembered until now + TTL; over capacity one completion that expires first is dropped. |
| `Dedupe.DedupeCache.Release` | python/pytagmanager/ingest/dedupe.py:65-67 | Only the in-flight set changes. |
| `Dedupe.SQLiteDedupeStore.Claim` | python/pytagmanager/ingest/dedupe.py:154-177 | Deletes every expired row, then answers from the row or inserts one that expires with the claim TTL. |
| `Dedupe.SQLiteDedupeStore.Complete` | python/pytagmanager/ingest/dedupe.py:179-201 | Upserts a completed row and deletes the excess of completed rows, oldest update first. |
| `Dedupe.SQLiteDedupeStore.Release` | python/pytagmanager/ingest/dedupe.py:203-209 | Deletes the row only while it is in flight. |
| `Dedupe.SQLiteDedupeStore.PruneCapacity` | python/pytagmanager/ingest/dedupe.py:240-259 | Deletes exactly the excess, none of it updated later than a completed row that stays. |
| `DedupeRuns.RunKeepsInv` | python/pytagmanager/ingest/dedupe.py:45-259 | In every state of every run with increasing times: in-flight and completed ids are disjoint, completions fit the capacity, and lazy cache and eager table hold the same unexpired completions. |
| `DedupeRuns.TableWithinCapacity` | python/pytagmanager/ingest/dedupe.py:240-259 | The table never keeps more completed rows than the capacity. |
| `DedupeRuns.StepAgreesUnlessStale` | python/pytagmanager/ingest/dedupe.py:45-209 | From corresponding states both stores answer alike if and only if the operation is not a claim on an in-flight id whose holder outlived the claim TTL, and then they correspond again. |
| `DedupeRuns.StoresAgreeIffNoStaleClaim` | python/pytagmanager/ingest/dedupe.py:45-259 | The two stores give the same answers throughout a run if and only if no operation of the run is such a stale claim. |
| `DedupeRuns.CompletionIsRemembered` | python/pytagmanager/ingest/dedupe.py:45-259 | An id completed at time t answers "completed" to every claim before t + TTL, in both stores, unless `capacity` other ids were completed in between. |
| `DedupeRuns.ClaimIsExclusive` | python/pytagmanager/ingest/dedupe.py:45-209 | Between a granted claim and its holder's complete or release, any other claim of the id is told "inflight"; in the table within the claim TTL. |
| `DedupeRuns.TableExclusiveIffNoStaleClaim` | python/pytagmanager/ingest/dedupe.py:154-209 | In every run the cache never grants an id again while a granted claim on it is neither completed nor released; the table never does if and only if no operation of the run claims an id whose holder outlived the claim TTL. |
| `DedupeRuns.LateReleaseBreaksExclusivity` | python/pytagmanager/ingest/dedupe.py:203-209 | A run of both stores in which the table grants an id to a second holder after the claim TTL, the first holder's late release deletes that claim, and a third is granted while the second still works. |
| `ControlPlane.NewRevision` | python/pytagmanager/control/models.py:563-617 | A revision as created passes its own checksum verification. |
| `Service.LatestRevision` | python/pytagmanager/control/store.py:290-299 | Scanning finds the revision with the highest number. |
| `Service.NextSequence` | python/pytagmanager/control/store.py:327-335 | One more than the highest sequence number of the log. |
| `Service.Resolve` | python/pytagmanager/control/service.py:561-589 | By id first, else by case-folded name when exactly one environment has it; several are ambiguous. |
| `Service.ControlPlaneService.CreateContainer` | python/pytagmanager/control/service.py:239-281 | Created exactly when no container's id folds to the same text; every other container is untouched, and the store invariant is kept, imported and cloned containers included. |
| `Service.ControlPlaneService.CreateRevision` | python/pytagmanager/control/service.py:321-368 | On any reachable store, imported and cloned containers included: the specified effect and reply on the one container, nothing else changes, and the store invariant is kept. |
| `Service.ControlPlaneService.CreateEnvironment` | python/pytagmanager/control/service.py:396-434 | The same for environments, which are refused under a name taken up to case. |
| `Service.ControlPlaneService.ActivateEnvironment` | python/pytagmanager/control/service.py:648-755 | The same for activation, with its refusals in the order of the code. |
| `Service.ControlPlaneService.RollbackEnvironment` | python/pytagmanager/control/service.py:757-859 | The same for rollback. |
| `Service.ControlPlaneService.RecordFailure` | python/pytagmanager/control/service.py:625-646 | A refused change appends one failed event and changes no environment. |
| `Service.ControlPlaneService.ImportContainer` | python/pytagmanager/control/service.py:957-1075 | The import step of the store: rejects what does not parse, changes nothing unless it imports, stores under a key that was free, and keeps the invariant; new ids stay clear of the imported ones. |
| `Service.ControlPlaneService.CloneContainer` | python/pytagmanager/control/service.py:937-955 | The clone step of the store, for any container in it, imported or cloned itself: under a free id, and absent a failing write, it succeeds exactly when every parent in the source is older than its child. |
| `StoreRuns.StoreInvariant` | python/pytagmanager/control/service.py:239-1227 | In every state that creating, importing, cloning and calling can reach: every container is stored under its folded id, keeps its revisions and environments under their own ids with distinct numbers, distinct names and known pointers, and has an audit log numbered 1..n that explains every environment's pair from where the container began. |
| `StoreRuns.StepHealthIff` | python/pytagmanager/control/service.py:239-1227 | From a store in which every container is healthy (one linear chain 1..n, pointers to revisions that validate), an operation leads to such a store if and only if it is not an import that stores a document that is not good. |
| `StoreRuns.StoreHealthyIff` | python/pytagmanager/control/service.py:239-1227 | Over every run: every container in every state is healthy if and only if each document that an import stored was good; in particular without imports. |
| `StoreRuns.ImportHealthyIff` | python/pytagmanager/control/service.py:957-1075 | An import of either kind gives a healthy container if and only if its document is good: revisions numbered 1..n, each naming the one before as parent, and the environments that remain (all under a new id, the last with each id otherwise) pointing at revisions that validate. |
| `StoreRuns.GoodStoreClones` | python/pytagmanager/control/service.py:937-1075 | Over every run with good imports, in particular none: cloning any container under a free id, with no write that fails, stores an isomorphic copy that is healthy too. |
| `StoreRuns.HealthyParentsOlder` | python/pytagmanager/control/service.py:1164-1180 | In a healthy container every parent is older than its child, which is what the renaming of revisions asks for. |
| `ControlPlaneInvariant.LoggedKeepsAudited` | python/pytagmanager/control/store.py:327-335 | Appending an event that says what was done to the environments keeps the log gap-free and explaining every environment's pair from the start, with consecutive moves chaining. |
| `ControlPlaneInvariant.EffectApplies` | python/pytagmanager/control/service.py:321-859 | Every call leaves the container alone or makes one of four changes that are allowed to it and records it: a next revision, a new environment, a refusal, a move of one environment. |
| `ControlPlaneRuns.EffectKeepsInv` | python/pytagmanager/control/service.py:332-859 | Every call keeps the invariant of any container, and the health of a healthy one. |
| `ControlPlaneRuns.EmptyLogExplainsIff` | python/pytagmanager/control/service.py:957-1075 | An empty log explains a container if and only if its environments point where they did at the start: nowhere for a created one, where the document says for an imported one. |
| `ControlPlaneRuns.ReachableInv` | python/pytagmanager/control/service.py:321-859 | Over every history of a container that was created, imported or cloned: revisions and environments kept under their own ids with intact checksums, distinct numbers and names, known pointers, an audit log numbered 1..n whose replay from the container's beginning yields each environment's (current, previous) pair, consecutive moves chaining; and if it began as one linear chain 1..n with pointers that validate, it still is. |
| `ControlPlaneRuns.RefusalOnlyLogs` | python/pytagmanager/control/service.py:625-646 | A refused call adds one failed event with the next sequence number and changes nothing else; not found, conflict and no-op change nothing at all. |
| `ControlPlaneRuns.RollbackSucceedsIff` | python/pytagmanager/control/service.py:757-859 | On a reachable container a rollback succeeds if and only if there is a previous revision, protection is absent or waived, the expected current revision matches, and the previous revision validates; otherwise it is refused. |
| `CallLaws.ActivateSucceedsIff` | python/pytagmanager/control/service.py:648-755 | What an activation does on a reachable container, case by case: it succeeds exactly when protection is absent or waived, the environment points where expected, and the revision (asked for, or the newest) exists, validates and is not current; which reason a refusal gives; where the environment then points and what is logged. |
| `CallLaws.NothingToActivate` | python/pytagmanager/control/service.py:666-671 | With no revision, and none asked for, nothing is found. |
| `CallLaws.RollbackOutcome` | python/pytagmanager/control/service.py:757-859 | The same for a rollback. |
| `CallLaws.CreateRevisionIff` | python/pytagmanager/control/service.py:321-368 | A revision is created unless a parent is expected that is not the newest; it follows the newest, is numbered one higher, and holds what was given. |
| `CallLaws.CreateEnvironmentIff` | python/pytagmanager/control/service.py:396-434 | An environment is created unless one of that name is there, letter case aside; it points nowhere and is protected if so asked. |
| `CallLaws.ResolvesIff` | python/pytagmanager/control/service.py:561-589 | A call means the environment with the id given, if there is one, and otherwise the only one of that name, letter case aside. |
| `CallLaws.UnresolvedReply` | python/pytagmanager/control/service.py:561-589 | A call that means no environment finds nothing, or conflicts if several have the name, which cannot happen on a reachable container. |
| `ControlPlaneRuns.HealthyRollbackValidates` | python/pytagmanager/control/service.py:813-825 | On a healthy container a rollback is never refused as invalid. |
| `ControlPlaneRuns.TwoRollbacksRestore` | python/pytagmanager/control/service.py:757-859 | Two rollbacks of one environment restore every environment exactly. |
| `ControlPlaneRuns.RevisionsOnlyGrow` | python/pytagmanager/control/store.py:271-276 | No call changes or removes a stored revision. |
| `ControlPlaneRuns.SameParentOnlyOnce` | python/pytagmanager/control/service.py:332-343 | Over any run, of two creators that expect the same parent at most one succeeds: the later one conflicts and changes nothing. |
| `Transfer.Export` | python/pytagmanager/control/service.py:917-935 | The document lists every revision once, by number, and every environment once. |
| `Transfer.ParseRevisions` | python/pytagmanager/control/service.py:1078-1118 | Accepts exactly the lists with verified checksums, matching container, distinct versions and numbers from one, and parents within the list; returns them sorted. |
| `Transfer.ParseEnvironments` | python/pytagmanager/control/service.py:1120-1153 | Accepts exactly the lists of environments of the document's container with distinct folded names and pointers to listed revisions. |
| `Transfer.RemapRevisions` | python/pytagmanager/control/service.py:1164-1193 | Succeeds exactly when every parent precedes its child; then the version map is fresh and every copy keeps number, payload and notes, its parent mapped. |
| `Transfer.RemapEnvironments` | python/pytagmanager/control/service.py:1195-1227 | Copies keep name and protection; pointers commute with the version map. |
| `Clone.WriteContainer` | python/pytagmanager/control/service.py:1052-1064 | Writes that fail at any point leave the store as it was. |
| `Clone.Import` | python/pytagmanager/control/service.py:957-1075 | Rejects exactly what does not parse; a taken id is reported present exactly for equal fingerprints of a plain import and conflicts otherwise; success stores exactly the document or its renamed copy; any other reply leaves the store unchanged. |
| `CloneProperties.ExportParses` | python/pytagmanager/control/service.py:1078-1153 | The export of any container in the store parses, and its parents precede their children if and only if every parent has a smaller number than its child. |
| `CloneProperties.ListedIsChain` | python/pytagmanager/control/store.py:290-299 | Listing a container's revisions by number gives its chain in order. |
| `CloneProperties.ImportedCopyIsCopy` | python/pytagmanager/control/service.py:1164-1227 | A stored copy is isomorphic to the original: injective version map, parents and pointers commute, payloads, numbers and notes kept. |
| `CloneProperties.CopyIsWellFormed` | python/pytagmanager/control/service.py:1164-1227 | A copy of a well-formed container is well formed. |
| `CloneProperties.CopyIsHealthy` | python/pytagmanager/control/service.py:1164-1227 | A copy of one linear chain with pointers that validate is that again. |
| `CloneLaws.CopyKeepsRevision` | python/pytagmanager/control/service.py:1164-1192 | The copy of a revision is a draft with the same number, payload and notes, after the copy of its parent. |
| `CloneLaws.CopyKeepsEnvironments` | python/pytagmanager/control/service.py:1195-1227 | Each environment has exactly one copy, with its name and its protection, pointing at the copies of what it points at: a clone loses no protection. |
| `CloneLaws.SameFingerprintsSameRevisions` | python/pytagmanager/control/service.py:1155-1162 | Lists of revisions with equal fingerprints are equal but for status and notes. |
| `CloneLaws.ChecksumCovers` | python/pytagmanager/control/models.py:522-545 | A checksum covers container, version, number, parent and payload. |
| `CloneProperties.CloneContainer` | python/pytagmanager/control/service.py:937-955 | For any source in the store, a free id and no failing write, cloning succeeds if and only if every parent in the source is older than its child, and stores an isomorphic copy; a taken id conflicts; nothing else in the store changes. |
| `CloneProperties.ReimportExport` | python/pytagmanager/control/service.py:917-1075 | Export, import, export returns the same revisions and environments, and importing again reports them present and changes nothing. |
| `PlainImport.StoredIsWellFormed` | python/pytagmanager/control/service.py:1078-1153 | Whatever document the parser accepts is stored as a well-formed container. |
| `PlainImport.HealthyIff` | python/pytagmanager/control/service.py:1078-1153 | Which accepted documents a plain import turns into one linear chain with pointers that validate: exactly those whose revisions are numbered 1..n, each naming the one before as parent, and whose environments (the last with each id) point at revisions that validate. |
| `PlainImport.AcceptedButNotLinear` | python/pytagmanager/control/service.py:1094-1117 | Documents that parse and give no chain: a single revision numbered 2, and one that is its own parent. |
| `CopiedImport.CopyHealthyIff` | python/pytagmanager/control/service.py:1009-1064 | Which accepted documents give a healthy container under a new id: exactly those whose revisions are numbered 1..n, each naming the one before as parent, and all of whose environments point at revisions that validate. |
| `ContainerRecords.Registry.CreateContainer` | python/pytagmanager/control/service.py:239-281 | Every record of the organization is read first, and a record whose name is not valid stops the call; then id, name and what is stored under which name. |
| `ContainerRecords.Registry.ImportContainer` | python/pytagmanager/control/service.py:977-1056 | The same for an import; a copy without a name of its own gets the old name with a suffix, which is not checked. |
| `ContainerRecords.Registry.CloneContainer` | python/pytagmanager/control/service.py:937-955 | The export reads the source record, then the import as above. |
| `ContainerRecords.CloneStoredIff` | python/pytagmanager/control/service.py:937-1064 | As long as all records read back, a clone is stored if and only if the source exists, the new id is valid and free, the name given (if any) is valid, and nothing fails. |
| `ContainerRecords.CreateStoredIff` | python/pytagmanager/control/service.py:239-281 | A container is created if and only if its id is valid and free in any spelling, all records read back, and the name given is valid; without one the id is its name. |
| `ContainerRecords.ReadableIff` | python/pytagmanager/control/service.py:1032-1036 | Then all records still read back if and only if the call did not store a copy, without a name of its own, of a container whose name has more than 189 characters. |
| `ContainerRecords.RunReadableIff` | python/pytagmanager/control/service.py:239-1075 | Over every run of creating, importing and cloning: all records read back if and only if no such copy was stored. |
| `ContainerRecords.FrozenAfterOverlong` | python/pytagmanager/control/service.py:268-281 | After such a copy no container of the organization is ever created, imported or cloned again. |
| `ContainerRecords.GenerationIff` | python/pytagmanager/control/ids.py:64-74 | How often copies can be copied under default names: the n-th copy of a copy has a valid name if and only if the first name has at most 200 - 11n characters. |
| `ContainerRecords.OneCloneFreezes` | python/pytagmanager/control/service.py:1032-1036 | The input: a container with a valid name of 190 characters or more, cloned once. |
| `ContainerRecords.ValidNameMeans` | python/pytagmanager/control/ids.py:64-74 | A valid name has no white space at its ends and no control characters. |
| `ContainerRecords.IdsAdmitted` | python/pytagmanager/control/ids.py:41-58 | Ids that look like those of other products are admitted, and paths are not. |
| `Publisher.FilesystemCDN.WriteImmutable` | python/pytagmanager/distribution/publisher.py:114-120 | Succeeds exactly when the path is new or holds the same bytes, and never changes an existing file. |
| `Publisher.FilesystemCDN.Commit` | python/pytagmanager/distribution/publisher.py:231-303 | The locked part file by file, stopping at the first conflict with the files before it left in place; the cache policy and the index of pointers are updated exactly on success. |
| `Publisher.FilesystemCDN.Verify` | python/pytagmanager/distribution/publisher.py:495-543 | Reports exactly the faults of the tree: each listed revision's configuration missing, altered, not intact or misidentified, and a pointer that differs from its manifest. |
| `PublisherRuns.MergedEntries` | python/pytagmanager/distribution/publisher.py:342-370 | The merged manifest has no version twice, the new entry, every old version, and nothing else, with the highest number first. |
| `PublisherRuns.ImmutableWritesGrow` | python/pytagmanager/distribution/publisher.py:232-251 | The immutable writes conflict exactly when configuration or SDK asset is stored with other contents, and keep the tree in order wherever they stop. |
| `PublisherRuns.PublishedNeverChanges` | python/pytagmanager/distribution/publisher.py:114-120 | Under every interleaving of publishers at the lock, the bytes of a configuration, SDK asset or checksum never change once written. |
| `PublisherRuns.ManifestIsHistory` | python/pytagmanager/distribution/publisher.py:322-379 | The manifest under a slug lists exactly the versions ever published to that slug, so it never shrinks; its current version is the last one published, is listed, and equals the latest pointer. |
| `EnvironmentHistory.TellsOwnIff` | python/pytagmanager/distribution/publisher.py:192-379 | Seen from an environment, whose slug is made from its name: manifest and pointer tell of exactly its own publications if and only if no publication of another environment with the same slug interferes, that is, brought a version the environment never published, or is the last one to the slug with another version than the environment's last. |
| `EnvironmentHistory.DistinctSlugsTellOwn` | python/pytagmanager/distribution/publisher.py:192-379 | So they do if the published environments of the container have distinct slugs. |
| `EnvironmentHistory.OtherEnvironmentOverwrites` | python/pytagmanager/distribution/publisher.py:192-303 | The run where they do not: two environments with one slug publish in turn; the second replaces the pointer of the first and adds to its manifest, and `verify` reports nothing. |
| `EnvironmentHistory.TwoNamesOneSlug` | python/pytagmanager/distribution/public_config.py:249-258 | Names of that kind that one container may have both: `Prod EU` and `Prod-EU`. |
| `EnvironmentHistory.PointerNamesIff` | python/pytagmanager/distribution/publisher.py:201-279 | Pointer and manifest carry the name of the environment published, if and only if the revision had not been seen published before for an environment of another name, whose configuration is then reused. |
| `EnvironmentHistory.PromotedKeepsName` | python/pytagmanager/distribution/publisher.py:201-279 | One revision published for one environment and then for another: the pointer of the second carries the name of the first. |
| `Slugs.EnvironmentSlug` | python/pytagmanager/distribution/public_config.py:249-258 | The loop that halves runs of dashes ends with every run collapsed to one dash. |
| `Slugs.SlugShape` | python/pytagmanager/distribution/public_config.py:249-258 | At most 96 lower-case letters, digits and single dashes, the first no dash; a name has no slug if and only if it has no letter and no digit. |
| `Slugs.SeparatorsDoNotCount` | python/pytagmanager/distribution/public_config.py:249-252 | Names that differ only in which other characters stand between their letters and digits have one slug. |
| `Slugs.PlainNamesAreSlugs` | python/pytagmanager/distribution/public_config.py:249-258 | A name of lower-case letters and digits is its own slug, as far as 96 characters go. |
| `Slugs.CaseDoesNotCount` | python/pytagmanager/distribution/public_config.py:250 | Names that differ in letter case only have one slug. |
| `PublisherRuns.SoundTreeVerifies` | python/pytagmanager/distribution/publisher.py:495-543 | On a tree left by publishers the independent checker finds nothing but the absence of any publication. |
| `PublisherRuns.VerifyAcceptsOnceLocked` | python/pytagmanager/distribution/publisher.py:495-543 | After any interleaving of attempts `verify` is clean if and only if some attempt reached the lock; before that it says only that nothing is published. |
| `PublisherRuns.PublishSucceedsIff` | python/pytagmanager/distribution/publisher.py:192-303 | An attempt succeeds if and only if the name of its environment has a slug, its asset is available and unaltered, and the configuration it saw, in its unlocked looks, is its own or not yet published differently. |
| `PublisherRuns.DigestMatchesIff` | python/pytagmanager/distribution/publisher.py:201-278 | After a publication the pointer's SHA-256 is that of the stored configuration, and its integrity digest is the stored one's if and only if the configuration was not stored, built otherwise, between the publisher's two unlocked looks. |
| `PublisherRuns.RaceLeavesOtherDigest` | python/pytagmanager/distribution/publisher.py:201-278 | A run with that race: two publishers of one revision leave a pointer whose digest is not that of the stored file, and `verify` reports nothing. |
| `PublisherRuns.CachedForEverIsFixed` | python/pytagmanager/distribution/publisher.py:421-464 | Over every run, a path that the cache policy calls immutable is stored and keeps its bytes in every later tree. |
| `PublisherLaws.PublicationRecorded` | python/pytagmanager/distribution/publisher.py:201-379 | What a publication leaves behind: a pointer with version, number, date and digest of the configuration published, the SHA-256 of the stored bytes and of the stored SDK asset, the checksum of the pointer, and the same entry in the manifest, whose other entries stay. |
| `PublisherLaws.KeptEntries` | python/pytagmanager/distribution/publisher.py:333-341 | Of an older manifest, whoever wrote it, those entries are kept that have a version, the last of each. |
| `PublisherLaws.VerifyCleanIff` | python/pytagmanager/distribution/publisher.py:495-543 | On any tree, whoever wrote it: `verify` finds nothing if and only if something is published, every manifest reads, every revision listed is stored with the checksum listed, intact and of that version, and every pointer beside a manifest reads and names its current version. |
| `PublisherLaws.PolicyOfPublications` | python/pytagmanager/distribution/publisher.py:421-464 | After a publication the configuration and the SDK asset may be cached for ever, and pointer and manifest must be asked for again. |
| `PublisherLaws.IndexIsPublications` | python/pytagmanager/distribution/publisher.py:381-419 | The index has an entry for exactly the slugs ever published to, naming the version last published there. |
| `PublisherLaws.DigestCoversAll` | python/pytagmanager/distribution/public_config.py:220-247 | Two intact configurations with one digest are one. |
| `Crawler.StepKeepsInv` | src/crawler/orchestrator.rs:318-460 | Every atomic step of every worker, failed weak exchanges included, keeps: counter = pages stored + fetches in flight, between zero and the cap, and each popped item held by one worker or completed once. |
| `Crawler.RunKeepsInv` | src/crawler/orchestrator.rs:318-460 | So in every state of every interleaving. |
| `Crawler.PagesWithinCap` | src/crawler/orchestrator.rs:342-360 | The page list never exceeds `max_urls`, and the counter exceeds it by exactly the fetches in flight. |
| `Crawler.CompletedExactlyOnce` | src/crawler/orchestrator.rs:318-473 | Every popped item is completed at most once, not while held, and exactly once when all workers are done; nothing else is completed. |
| `Crawler.StoppedOnlyAtCap` | src/crawler/orchestrator.rs:345-349 | The crawl is stopped only if at some moment all slots were taken. |
| `Crawler.FullIffNoLateFailure` | src/crawler/orchestrator.rs:342-460 | With no fetch in flight, exactly `max_urls` pages are stored if and only if at some moment all slots were taken and no fetch has failed since. |
| `Crawler.StoppedIsFullWithoutFailures` | src/crawler/orchestrator.rs:342-460 | A stopped crawl with no failed fetch, and none in flight, has stored exactly `max_urls` pages. |
| `Crawler.StoppedWithoutPages` | src/crawler/orchestrator.rs:345-459 | A run that shows the cap is only an upper bound: with one slot a failed fetch can leave the crawl stopped with no page and work pending. |
| `Sitemap.SeedFromSitemap` | src/crawler/orchestrator.rs:512-547 | Terminates on every server, cyclic indexes included; with fan-out at most B makes at most 1+B+B²+B³ fetches; on a steady server pushes exactly the URLs listed within the depth limit and makes exactly the fetches of the recursive count. |
| `Sitemap.CountsIff` | src/crawler/orchestrator.rs:523-530 | A response counts if and only if its status is in the 200s and its body reads as a sitemap. |
| `Sitemap.BoundIsReached` | src/crawler/orchestrator.rs:512-547 | The bound is tight: an index listing itself B times is fetched exactly that often. |
| `Dom.Walker.SiblingIndexByTag` | src/dom/parser.rs:92-103 | Counting backwards gives the XPath position among siblings of the same tag. |
| `Dom.Walker.SiblingIndexAll` | src/dom/parser.rs:105-113 | Counting backwards gives the nth-child position among elements. |
| `Dom.Walker.Walk` | src/dom/parser.rs:31-90 | Appends the records of exactly the element and everything below it, in document order, each numbered by its position, after its parent, with selectors that select it. |
| `Dom.ParseHtml` | src/dom/parser.rs:11-29 | The graph of a document: every element under the root exactly once, node i has id i, parents first. |
| `Dom.SelectorsAddress` | src/dom/parser.rs:44-50 | Followed from the top, each nth-child path and each location path reaches its element and no other (Selectors Level 3, section 6.6.5.2; XPath 1.0, section 2.5). |
| `Dom.SelectorsInjective` | src/dom/parser.rs:44-50 | No two nodes share a selector of either kind. |
| `Dom.SelectorsUnambiguousIff` | src/dom/parser.rs:45-50 | Used as ordinary unanchored selectors, the CSS paths all match their own element only, if and only if no other element of the document has the root's tag and the root's place among its element siblings. |
| `Dom.HtmlInSvgIsAmbiguous` | src/dom/parser.rs:45-50 | A parsed tree in which they do not: an `html` element that foreign content (`svg`) keeps as a first child. |
| `Diff.CollectObjects` | python/pytagmanager/control/diff.py:79-84 | One entry per key, the last object under it. |
| `Diff.DiffPayloads` | python/pytagmanager/control/diff.py:93-123 | Strictly ordered keys, one change per differing object, of the right kind with before and after. |
| `Diff.DiffUnique` | python/pytagmanager/control/diff.py:93-123 | That description determines the diff. |
| `Diff.ChangeIff` | python/pytagmanager/control/diff.py:93-123 | An object has a change of a kind if and only if it was added, removed or written differently; before and after are what the two sides hold. |
| `Diff.ChangesInOrder` | python/pytagmanager/control/diff.py:99 | Changes are listed tags first, then triggers, variables and destinations, and by id within a type. |
| `Sorting.FirstDifferenceDecides` | python/pytagmanager/control/diff.py:99 | The order of texts: the first difference decides, and a beginning comes before the whole. |
| `Diff.PatchIsCorrect` | python/pytagmanager/control/diff.py:93-123 | Applied to the old objects the diff gives the new ones. |
| `Diff.ReverseIsInverse` | python/pytagmanager/control/diff.py:93-123 | The diff in the other direction is the inverse, change by change. |
| `Diff.SummaryAddsUp` | python/pytagmanager/control/diff.py:49-58 | New count plus removed equals old count plus added; the counts partition the changes; no changes if and only if the objects are the same. |
| `Diff.LooseEqualIffSameNormalForm` | python/pytagmanager/control/diff.py:87-90 | Python equality of JSON values is equality of normal forms, in which booleans and integers are the real numbers they count as, at every level. |
| `Diff.ChangedFieldsIff` | python/pytagmanager/control/diff.py:87-122 | For objects as they are written, a changed record names exactly the fields whose normal forms differ, and names none if and only if the whole documents have one normal form: they differ only in writing some number as a boolean, an integer or a float. |
| `Diff.DefaultChangesSilently` | python/pytagmanager/control/diff.py:87-122 | Such a change: the default of a `json` variable goes from true to 1, which the diff reports as changed in no field. |
| `Journey.SortIsChronological` | python/pytagmanager/correlation/journey.py:116 | Sorting by time is chronological and a permutation. |
| `Journey.SortIsStable` | python/pytagmanager/correlation/journey.py:116 | Events with tied times keep their order. |
| `Journey.CorrelateEvents` | python/pytagmanager/correlation/journey.py:108-145 | One journey per interaction, in order, with exactly the members that belong to it. |
| `Journey.JourneysBegin` | python/pytagmanager/correlation/journey.py:108-118 | A journey begins at each click, submit, change and scroll depth, and at nothing else. |
| `Journey.AttributionIsPartition` | python/pytagmanager/correlation/journey.py:120-133 | No event is in two journeys; an interaction is in exactly its own; any other event is in a journey if and only if that journey's interaction is the last at or before it and less than the window away, ties included. |
| `Journey.AttributedIff` | python/pytagmanager/correlation/journey.py:120-133 | Which events are attributed at all. |
| `Journey.JourneySpan` | python/pytagmanager/correlation/journey.py:139-140 | A journey's times are its interaction's and its latest member's, equal or less than the window apart. |
| `Journey.StartsWithAnchorIff` | python/pytagmanager/correlation/journey.py:62-71 | A journey's first observation is its interaction if and only if no other event tied with the interaction was sorted before it into the same journey, and otherwise the first of those; the anchor selector is the interaction's if and only if there are none or the first of them has the same selector. |
| `Journey.TiedPushComesFirst` | python/pytagmanager/correlation/journey.py:62-71 | A journey where it is not: a data-layer push tied with the click and recorded before it comes first, and the anchor selector is not the click's. |
| `Dictionary.RecordedSummarizes` | python/pytagmanager/dictionary/build.py:137-144 | Recording one more observation keeps the accumulator a summary (types, counts, pages, first and last time) of all of its variable's observations. |
| `Dictionary.Builder.Flatten` | python/pytagmanager/dictionary/build.py:100-118 | Records exactly the dot-joined fields of nested objects down to the depth limit. |
| `DictionaryLaws.FlattenedIff` | python/pytagmanager/dictionary/build.py:100-118 | Read off the values: observed below an item are exactly the fields that names lead to, up to seven of them, each under its dotted path and with its type; lists are not entered. |
| `DictionaryLaws.ItemIff` | python/pytagmanager/dictionary/build.py:170-185 | An item contributes its event and its fields under the event's name, `event` itself not among them. |
| `DictionaryLaws.EventNamed` | python/pytagmanager/dictionary/build.py:173 | What names an item: a text or number under `event`, or true; where it is null, empty, zero or false the item is unnamed, and a non-empty list or object cannot be a name. |
| `DictionaryLaws.EventUnnamed` | python/pytagmanager/dictionary/build.py:173 | Without `event` it is unnamed. |
| `DictionaryLaws.OnlyObjectsCount` | python/pytagmanager/dictionary/build.py:171-172 | What is no object contributes nothing. |
| `DictionaryLaws.SnapshotIff` | python/pytagmanager/dictionary/build.py:155-185 | A snapshot contributes its cookies, local and session storage, each under its own source, and the items of its data layer. |
| `DictionaryLaws.LinesInOrder` | python/pytagmanager/dictionary/build.py:187-199 | Lines are ordered by source, and within a source by name: texts as texts, numbers as numbers. |
| `Dictionary.BuildDataDictionary` | python/pytagmanager/dictionary/build.py:147-199 | Succeeds if and only if no event is named by a non-empty list or object and events are not named by texts and numbers both; then gives exactly one line per observed variable, sorted, each the summary of its observations. |
| `Dictionary.CountsSumToObservations` | python/pytagmanager/dictionary/build.py:55-57 | The per-type counts of a variable sum to its number of observations. |
| `Dictionary.OrderDoesNotMatter` | python/pytagmanager/dictionary/build.py:147-199 | Permuting the snapshots gives the same dictionary. |
| `Dictionary.OrderDoesNotPrevent` | python/pytagmanager/dictionary/build.py:147-199 | Nor does permuting them change whether there is one. |
| `Dictionary.NotBuildable` | python/pytagmanager/dictionary/build.py:170-176 | Snapshots on which it fails: an event named by a list, and events named `"click"` and 1 together. |

## Left out

- Projection.NeverBroadensIffLiteralsPlain: stated for conditions without `matches_glob` within the size that validation allows; the general result, with a longer condition, is `Probing.NeverBroadensIffProbesPass`.
- Delivery.RouteNeverBroadensIff: stated for tags whose untyped triggers use no globs and spend fewer than 1,048,576 characters on literals; the general result is `Probing.RouteNeverBroadensIffProbesPass`.
- Dictionary.BuildDataDictionary: equal numbers are one key; which of `true`, 1 and 1.0 is shown for it, the first one met, is not modelled.
- DedupeRuns.StoresAgreeIffNoStaleClaim: times are non-negative and strictly increasing; with equal times the source leaves open which completion is evicted.
- Dedupe.SQLiteDedupeStore.Release: one statement, taken as atomic like the transactions of the other operations; SQLite itself, files and clocks are not modelled.
- Publisher.FilesystemCDN.Commit: the environment's protection flag in pointer and manifest, the order of the index, content types, and crashes between two writes are not modelled.
- Publisher.FilesystemCDN.Verify: issues carry the kind of fault and not the message text.
- Service.ControlPlaneService.CreateContainer: the names of containers and the form of their ids are modelled in `ContainerRecords`, apart from the revisions and environments; descriptions, site URLs and external references are not modelled; one organization and one workspace.
- Service.ControlPlaneService.ActivateEnvironment: audit events omit actor, timestamp and free-form details; a crash between saving the environment and appending the event is not modelled.
- Clone.Import: field-by-field checks of the document (`from_dict`), scopes and creation metadata are not modelled.
- Validation.Validate: warnings are not modelled; what the adapters find in a tag or destination is a parameter.
- Resolver.VariableResolver.Resolve: the `type` field of a record is not part of it; `Redaction.Trace` adds it.
- Simulation.PreviewEvent: normalization of the raw event, adapters and the trace's JSON are not modelled; the trace of a variable is, in `Redaction`.
- PyTagShield.Project: translation of one destination's settings and its secrets is a parameter that succeeds or not; warnings are left out.
- Crawler.StepKeepsInv: fetching, rendering, robots and politeness are choices of a step; the frontier is a set. Progress of a crawl is not claimed.
- Sitemap.SeedFromSitemap: XML and URL parsing are parameters.
- Dom.ParseHtml: the HTML parser, attributes, text and stable selectors are not modelled; a document is a forest of elements with one root, as the parser delivers.
- Diff.DiffPayloads: objects are maps of JSON fields; that `canonical_json` is injective on them is assumed, and -0.0 is not told from 0.0.
- Journey.CorrelateEvents: business-event naming, status and journey ids are left out.
- ConditionSyntax.ValidateCondition: which characters count as alphanumeric and the size of a document as canonical JSON are parameters; error messages are not modelled.
- Numbers: JSON numbers are integers or reals, so rounding, infinities and NaN do not occur; conversion of text to numbers, JSON parsing in expressions, `repr`, what the host says when these fail, and the test for sensitive keys are parameters.
- Case folding, slugs and digit tests cover ASCII.
- Error messages are structured values; their wording is modelled only for variables, in `Redaction`.
- Browser, HTTP, analytics and audit code, the command line, report rendering, exporters, GTM import and export, event contracts and diagnostics: input and output, or independent single checks.
- File locking, fsync, permissions and temporary files: one map update per write, one lock holder at a time.
