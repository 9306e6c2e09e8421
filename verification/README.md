# Litelog, modelled and proved in Dafny

Litelog is an entity-attribute-value store over SQLite with a Datalog compiler. An
append-only log (`datoms`) records every assertion and retraction; a second table
(`current_datoms`) holds what is true now; views read the past from the log alone. This
project models five parts of it and proves what they promise, or exactly when they keep
that promise.

**The store** (`Values`, `Store`, `Transact`, `Invariants`, `TempIDs`, `Failures`,
`Outline`, `Concrete`, `Database`, `Runs`). `Database.DB` is a class with the tables, the
schema cache and the two counters as fields; its methods change them in place and are proved
against the functions of `Transact`; `Concrete` says what these come to for single datoms and
TempIDs. `Runs` lets clients take ids, commit in any order, fail, define attributes
and reopen. Main results: `Runs.EveryRun`, `TempIDs.TempIDsShareExactlyWhenLinked`,
`TempIDs.FirstPassAcceptsExactly`, `Outline.OutcomeExactly`, `Failures.AtomicExactly`,
`Values.FloatOrderIsTotalOrder`.

**The query compiler** (`Datalog`, `Algebra`, `Sql`, then `Algebrize`, `Translate`,
`QueryApi`, `Compilation` as they run, and the lemma modules `Places`, `Placeholders`,
`Compiler`, `Negation`, `Correctness`, `Shapes`, `Inputs`, `Substitution`, `Markers`,
`Success`, `Uncorrelated`, `Correlation`, `Acceptance`). `Datalog` gives queries their
meaning by assignments; `Sql` gives a product of tables, a conjunction of conditions and
positional parameters theirs. The two are shown equal. `Reals`, `Decoded` and `Asked` lead
from a compiled statement down to the numbers, texts and bytes that were stored. Main results: `Compilation.CompileQuery`, `Substitution.CompiledQueryIsDatalog`,
`Substitution.BindingIsSubstitution`, `Success.CompilesExactly`, `Correlation.MixedExactly`,
`Placeholders.PlaceholdersTakeTheirParameters`, `Asked.ComparingReturns`,
`Compilation.ReturnsOverRows`.

**Time travel** (`TimeTravel`, `AsOf`, `Pull`, `EndToEnd`) joins the two. Main results:
`EndToEnd.TimeTravelExactly`, `Pull.PullTravelsExactly`, `TimeTravel.RulesAgreeExactly`.

**Recursive rules** (`Rules`, `RuleMeaning`, `HeadConstants`, `Fixpoint`, `SemiNaive`,
`RulePlan`, `PlanRuns`, `PlanExecutes`, `RulePatterns`): the statements
emitted for a rule set against its least model. Main results: `Fixpoint.SoundAsEmitted`,
`PlanRuns.WholePlanExactly`,
`SemiNaive.SemiNaiveReachesLeast`, `HeadConstants.StatementDealsOut`,
`RulePatterns.OnePatternInserts`.

**The EDN reader** (`Edn`, `EdnParser`, `EdnCompose`, `EdnPrint`, `EdnErrors`): a lexer with a
cursor and a parser with a one-token buffer, against a reading defined on positions. Main results:
`EdnPrint.RoundTrip`, `EdnErrors.FlawsAreReported`, `EdnCompose.ReadingComposes`.

Every lemma switches automatic induction off and writes its induction out.

## Where the code and its documentation differ

The model follows the code; each difference is stated and proved.

- A batch is said to be atomic (transact.go:11), but `withWriteConn` hands its deferred
  `endFn` an `err` that `return fn(conn)` never sets (pool.go:141-147): a failing batch
  commits what it did so far (`Failures.AtomicExactly`).
- A retraction deletes from `current_datoms` before the insert into the log that may fail
  (transact.go:271-291): the one way the two tables part (`Failures.GapHappens`; when,
  `Outline.OutcomeExactly` and `Outline.NothingTakenBackNoGap`).
- Query's AsOf filter lacks the guard "later than the assertion" that Pull's has
  (query_api.go:381, pull.go:310-311): exact conditions in `TimeTravel` and `EndToEnd`.
- The pass that resolves TempIDs depends on the order of the batch
  (`TempIDs.FirstPassAcceptsExactly`), and its lookup leaves out entity 0
  (transact.go:188, `Failures.FirstRefused`).
- All encodings are said to preserve order (README.md:521), integers for positive values
  (README.md:523); the exact condition is "of one sign", so instants before 1970 sort after
  those from 1970 on (`Values.IntOrderExactlyWithinASign`).
- A correlation whose outer table index is small is read inside the subquery
  (query/translate.go:303, `Correlation.MixedExactly`, `Uncorrelated.NegationForgetsExactly`).
- An input used in two ways, in a negation or as a result keeps a table index of -1
  (query/algebrize.go:415-424, `Markers.DanglesExactly`, `Success.TranslatesExactly`).
- `encodeParams` is documented to encode constants; it never changes one
  (`QueryApi.Statement.EncodeParams`).
- Head constants of a rule are bound in the wrong order (query/recursive.go:312-346,
  `RuleMeaning.MismatchedNeverRight`, `HeadConstants.StatementDealsOut`), and the emitted
  iteration clears the deltas it is about to read (query/recursive.go:112-118,
  `PlanRuns.WholePlanExactly`).
- `loadState` resets counters that are 0, which they never are there (pool.go:195-205).

## Model

| member | source | states |
|---|---|---|
| Values.IntRoundTrip | values.go:17-28 | Decoding an encoded int64 gives the same integer. |
| Values.IntRoundTripBytes | values.go:17-28 | Encoding a decoded 8-byte buffer gives the same bytes. |
| Values.IntOrderExactlyWithinASign | values.go:17-22 | Byte order of encoded integers agrees with integer order on a pair exactly when both have the same sign. |
| Values.BigEndianOrder | values.go:18-43 | Byte order of two big-endian words of one width is the order of their numbers, and equal words are equal numbers. |
| Values.FloatRoundTrip | values.go:30-55 | Decoding an encoded float gives the same 64 bits, NaN payloads included. |
| Values.FloatRoundTripBytes | values.go:30-55 | Encoding a decoded 8-byte buffer gives the same bytes. |
| Values.FloatOrderIsTotalOrder | values.go:29-43 | Byte order of encoded floats is the totalOrder predicate of section 5.10 of IEEE 754-2008, defined here on sign, exponent and fraction, for all pairs of 64-bit patterns. |
| Values.MagnitudeOrder | values.go:29-43 | The magnitude that exponent and fraction stand for is ordered as the low 63 bits are. |
| Values.EncodeFloat64 | values.go:31-43 | The in-place bit flips and PutUint64 produce the specified encoding. |
| Values.ValueRoundTrip | values.go:58-167 | What encodeValue accepts, decodeValue of the same type gives back, and the bytes are well formed. |
| Values.DecodeRoundTripExactly | values.go:58-167 | Re-encoding a decoded buffer gives the buffer back exactly when it is well formed; decodeValue ignores the tail of longer ones. |
| Values.EncodingIs | values.go:58-121 | Which value encodes under which type, and to which bytes: integers, references and instants as eight bytes that spell n, or n + 2^64 when negative, the first byte counting most; true as 1, false as 0; strings and bytes as they are. |
| Values.DecodingIs | values.go:124-168 | decodeValue fails exactly on a buffer shorter than its type needs, reads the first eight bytes of a longer one, and takes any byte but 0 for true. |
| Store.ReplayKeepsLast | transact.go:268-389 | A fact survives the replay of a log exactly when the last row about it is an assertion. |
| Store.TypedEqualityExactly | transact.go:80-113 | Comparing two stored values by their typed column and by their BLOB agree exactly unless the comparison is of a NaN with itself or of the two zeros. |
| Decoded.ColumnsWritten | transact.go:80-113 | Beside the BLOB of an encodable value the row has v_int n for an integer or reference, 1 or 0 for a boolean, the milliseconds of an instant, v_text the bytes of a string, v_float a real equal to a finite float and the infinity itself; all other typed columns, and those of NaN and bytes, are NULL. |
| Decoded.ColumnsRead | transact.go:80-113 | The same for any stored BLOB, told by what it decodes to. |
| Invariants.ReplaceKeeps | transact.go:311-360 | CardOne replacement logs one retraction and deletes every value of (e, a); because there was only one, current_datoms stays the view of the log, and nothing is left at (e, a). |
| Invariants.RetractGap | transact.go:268-291 | A retraction that collides with a logged one finds its fact current exactly when the fact was asserted again after the logged retraction: the one way to delete without logging. |
| Invariants.StepKeeps | transact.go:221-394 | Every datom, successful or not, keeps CardOne, Identity, distinct rows and typed-column agreement, and keeps current_datoms the view of the log unless it fails in that gap. |
| Invariants.RunKeeps | transact.go:220-397 | The same for a whole batch. |
| Invariants.DefineKeeps | attributes.go:77-128 | Defining an attribute keeps every table invariant; an attribute once made never changes. |
| Invariants.ExtendKeeps | attributes.go:77-128 | Every table invariant survives a longer schema. |
| Invariants.CommitKeeps | transact.go:115-409 | A transaction keeps every invariant, appends only rows of its own and reports exactly these; the view of the log is kept exactly when the batch did not end in the gap, which Outline.OutcomeExactly tells beforehand. |
| Invariants.CommitRecords | transact.go:206-215 | A transaction leaves its row in the transactions table unless it stopped in the upsert pass, which changes no table. |
| Invariants.CommitReports | transact.go:403-408 | A transaction that succeeds reports the id it was given and the time it recorded. |
| Invariants.CommitReportsRows | transact.go:284-394 | And every row it logged, in order, each with its entity, attribute, decoded value, transaction and direction. |
| Invariants.CurrentIsLastRow | transact.go:374-386 | Where current_datoms is the view of the log, a current fact has the type, columns, transaction and valid_from of the last row about it. |
| Concrete.OneAssertion | transact.go:297-394 | Asserting one value of a numbered entity succeeds unless another entity holds it as an Identity value; then the fact is current with this transaction and valid time, and so is, unchanged, everything that was, but for the other value of a CardOne attribute. |
| Concrete.OneAssertionLogged | transact.go:311-375 | The log gains the assertion, after a retraction of the value it replaces exactly when a CardOne attribute had one, each with its entity, attribute, bytes, type, transaction and valid time. |
| Concrete.OneRetraction | transact.go:268-295 | Retracting one value always succeeds, is logged and reported, and takes this fact out of current_datoms and no other. |
| Concrete.HeldIdentity | transact.go:168-206 | After a successful batch that asserts for a TempID an Identity value some entity other than 0 holds, the TempID names that entity. |
| Concrete.SharedIdentity | transact.go:168-206 | Two TempIDs for which a successful batch asserts one Identity value name one entity. |
| Concrete.NewEntity | transact.go:229-250 | A TempID for which no Identity value is asserted names an entity that nothing else does, neither another TempID nor a current fact. |
| Invariants.ReloadKeeps | pool.go:160-208 | Reopening keeps every invariant. |
| TempIDs.FirstPassShares | transact.go:168-206 | After the upsert pass two resolved nodes share an entity exactly when they are linked through Identity values and existing holders. |
| TempIDs.TempIDsShareExactlyWhenLinked | transact.go:168-250 | After a successful transaction every TempID of the batch is resolved, two TempIDs name one entity exactly when they are linked, and one names an entity that existed before exactly when it is linked to that entity as holder. |
| TempIDs.FirstPassAcceptsExactly | transact.go:168-206 | The upsert pass accepts a batch exactly when every datom it looks at can be encoded and, where the datoms before it name its TempID and its value is held or asserted by then, they already link the two. |
| TempIDs.FirstPassOrderMatters | transact.go:188-205 | So order matters: the same two datoms are accepted when the held value comes first and rejected when the new value comes first. |
| TempIDs.BelowCounterKept | transact.go:115-409 | Entities in use stay below the counter through every transaction that names no id at or above it: the premise of the theorem above. |
| Database.DB.constructor | pool.go:33-98 | A new store has empty tables and both counters at 1. |
| Database.SchemaCache.Put | attributes.go:53-58 | Both indexes of the cache get the attribute. |
| Database.DB.AllocEntityID | pool.go:211-217 | Returns the counter and advances it by one. |
| Database.DB.AllocTxID | pool.go:220-226 | Returns an id that no recorded transaction has, and advances the counter. |
| Database.DB.LoadState | pool.go:160-208 | The counters become one more than the maxima of the tables, or 1, and every invariant holds again. |
| Database.DB.AsOfTxTime | query_api.go:91-109 | The latest transaction recorded at or before the time, or none exactly when there is none. |
| Database.DB.DefineAttribute | attributes.go:77-128 | A known ident is accepted exactly when value type, cardinality, indexed, unique, identity and isComponent all agree, and nothing changes; a new one takes the next entity id and is stored, in both indexes of the cache and in the table, with the seven fields that were asked for, every other attribute, the tables and the transaction counter unchanged. |
| Database.DB.LookupHolder | transact.go:44-54 | The row that LIMIT 1 picks is the only holder, so the lookup is a function of the table. |
| Database.DB.ResolveRef | transact.go:57-78 | A lookup ref resolves to the holder of its Identity value, with each of the four errors in its case. |
| Database.DB.ResolveTempIDs | transact.go:164-206 | The loop over the batch with its maps tempids and pending computes the upsert pass, errors included. |
| Database.DB.InsertDatom | schema.go:10-23 | A row is appended unless it duplicates one on all six key columns, and then nothing changes. |
| Database.DB.RetractDatom | transact.go:268-295 | The fact is deleted from current_datoms first and then logged; the log may refuse. |
| Database.DB.ReplaceExisting | transact.go:311-360 | The existing CardOne value is logged as retracted, reported, and removed with everything at (e, a). |
| Database.DB.AssertDatom | transact.go:297-394 | Identity check, CardOne replacement, log row, current row: the new tables, or the error and the tables at that point. |
| Database.DB.ResolveEntityOf | transact.go:229-250 | TempID, id, lookup ref or error; only an unseen TempID takes a new id. |
| Database.DB.RunBatch | transact.go:216-397 | The loop over the datoms leaves the tables that the fold over the batch describes, at the first error or at the end. |
| Database.DB.CommitAs | transact.go:127-409 | The body under the write lock equals the specified transaction and keeps the state valid, failing batches included. |
| Database.DB.Transact | transact.go:19-33 | The log only grows, by rows of this transaction with the valid time asked for, which are what the caller gets beside the id and time of the transaction; success, and whether current_datoms stays the view of the log, are what the outline of the batch says from the state before. |
| Failures.AtomicByStep | pool.go:141-147 | In any state a failing batch leaves log and current_datoms as they were exactly when it failed in the upsert pass or on its first datom; nothing is rolled back. |
| Failures.LookupMeans | transact.go:57-78 | A lookup ref fails exactly when its attribute is unknown or no Identity, its value does not fit, or nothing holds it; and otherwise names the only holder. |
| Failures.FirstRefused | transact.go:221-309 | The first datom stops the batch exactly when its attribute is unknown, its entity fails, its value does not fit, or another entity holds its Identity value: no duplicate row can stop it. |
| Failures.AtomicExactly | transact.go:11-19 | A failing batch leaves log and current_datoms as they were exactly when the upsert pass does not accept it (the condition of TempIDs.FirstPassAcceptsExactly) or its first datom is refused by one of these four guards: all of it seen from the batch and the state before. |
| Failures.FailingBatchCommitsItsPrefix | pool.go:141-147 | A concrete batch fails on its second datom and leaves its first one in current_datoms. |
| Failures.GapHappens | transact.go:271-291 | A concrete batch ends with a fact that the log holds and current_datoms does not. |
| Outline.StepFollows | transact.go:221-394 | What a datom comes to, success, failure or gap, follows from three sets of facts, those current, retracted and asserted, without a look at rows or the log. |
| Outline.OutcomeExactly | transact.go:115-409 | A transaction succeeds exactly when the outline of its batch goes through, then leaves exactly the facts the outline says, and parts current_datoms from the log exactly when the outline says so: all settled by the batch, schema, counter and current facts. |
| Outline.SuccessKeepsView | transact.go:216-397 | A transaction that succeeds keeps current_datoms the view of the log. |
| Outline.NothingTakenBackNoGap | transact.go:268-291 | In any state the view is kept unless the batch retracts a value it asserted before, of a CardOne attribute or after retracting the same. |
| Outline.HarmlessKeepsView | transact.go:268-291 | A batch that never retracts an attribute and value it asserted before keeps the view, whatever the state and schema. |
| Runs.EveryRun | transact.go:115-409 | In every state reached by any interleaving of id allocation, commits, definitions and reopenings: at most one value per CardOne (e, a), at most one holder per Identity value, typed columns that agree with BLOBs, and current_datoms equal to the replay of the log after every commit as long as no batch ended in the gap. |
| Runs.HarmlessRunsAreGapFree | transact.go:115-409 | A run of such batches, in any interleaving and with failures, has current_datoms equal to the replay of the log after every commit. |
| Runs.SerialRunsAreOrdered | transact.go:116-127 | When every transaction commits before the next id is taken, commits follow id order. |
| TimeTravel.QueryShowsLess | query_api.go:378-391 | Every row shown by Query's AsOf rule is shown by Pull's, for any log. |
| TimeTravel.RulesAgreeExactly | pull.go:304-312 | The two AsOf rules select the same facts at every time exactly when no fact has an assertion at or after one of its own retractions. |
| TimeTravel.UndoneShows | pull.go:304-312 | A fact asserted and then retracted by one transaction is shown by Pull although that transaction left it out of current_datoms. |
| TimeTravel.PullExact | pull.go:304-312 | Pull's rule recovers every past state from an ordered log exactly when no transaction retracted a fact after asserting it. |
| TimeTravel.RevivalHides | query_api.go:378-391 | A fact asserted again after a retraction is in the state its transaction left but not shown by Query's rule. |
| TimeTravel.QueryExact | query_api.go:378-391 | Query's rule recovers every past state from an ordered log exactly when no fact, once retracted, was asserted again for good. |
| TimeTravel.LaterRetractionsSuffice | query_api.go:378-391 | Where the two rules agree, both are exact. |
| TimeTravel.OrderedLog | transact.go:256-389 | In a run whose commits follow id order the log is sorted by transaction and has each fact at most once per transaction and direction. |
| TimeTravel.SnapshotIsReplay | transact.go:268-389 | The replay of the rows up to t is current_datoms as it was after the last transaction with id at most t. |
| TimeTravel.PullTimeTravel | pull.go:304-312 | For every run in id order: Pull's rule on AsOf(t) selects, for all t, the facts current_datoms had after t exactly when no transaction retracted a fact after asserting it. |
| TimeTravel.QueryTimeTravel | query_api.go:378-391 | The same for Query's rule, exactly when no fact was ever revived. |
| Pull.TemporalParams | pull.go:296-322 | For each kind of view, the table, the conditions and their parameters; the conditions take exactly these parameters and hold of exactly the rows the view shows, on every database. |
| Pull.PullSelects | pull.go:325-340 | The wildcard statement and the one for a single attribute, with their parameters in order, select the shown rows of the entity, or of the entity and attribute. |
| Pull.PullTravelsExactly | pull.go:296-322 | For every run in id order: on AsOf(t), for every t, Pull reads for every entity exactly the facts current_datoms had for it after t, exactly when no transaction retracted a fact after asserting it. |
| Placeholders.PlaceholdersTakeTheirParameters | query/translate.go:148-203 | For every algebraic query, raw filters and negations included, there are as many placeholders as parameters and the i-th takes the constant meant there. |
| Places.EqualByKind | query/algebrize.go:19-30 | On values of one kind SQL equality is equality. |
| Places.CellOfPlace | query/translate.go:243-254 | The column chosen for a place holds the value of that place. |
| Compiler.TableMeans | query/translate.go:149-172 | A table's conditions hold of a row exactly when the pattern's constants match it. |
| Compiler.JoinsMean | query/algebrize.go:345-365 | The star joins, in any order, hold exactly when all places of every variable agree. |
| Compiler.VarArgMeans | query/algebrize.go:408-437 | A variable in a filter reads the value its assignment gives it, whichever typed column was recorded last. |
| Compiler.FiltersMean | query/translate.go:206-240 | The filters hold of rows exactly when the expressions hold of the assignment they make. |
| Compiler.FindMeans | query/translate.go:92-129 | The columns of a :find element read back as the variable's value. |
| Negation.CorrelationMeans | query/translate.go:297-315 | A correlation join compares the inner first place of a shared variable with the outer one. |
| Negation.InnerExprsMean | query/algebrize.go:480-535 | Filters resolved as the body is read mean what they mean in the whole body. |
| Correctness.NotMeans | query/translate.go:257-335 | NOT EXISTS holds exactly of the assignments with which the body cannot be satisfied, when every shared variable first stands in an outer table whose index the body does not have and is stored alike. |
| Uncorrelated.NegationIgnoresItsRow | query/translate.go:297-315 | When every join of a body is taken for an inner one, the clause holds of every outer row or of none. |
| Uncorrelated.MarkedCompiled | query/translate.go:297-315 | (not [?x :ident _]) whose ?x first stands as entity of the first pattern compiles to "nothing has the attribute". |
| Uncorrelated.MarkedMeans | README.md:322-328 | In Datalog the same clause says that this entity does not have the attribute. |
| Uncorrelated.NegationForgetsExactly | query/translate.go:297-315 | The two agree exactly when the entity has the attribute or nothing has it. |
| Correlation.JoinsMeanRaw | query/translate.go:297-315 | The joins of any body compare stored columns, a shared variable with a small outer table index inside the body and any other with the outer row. |
| Correlation.CompiledNotMeans | query/translate.go:257-335 | For any body with a place for every expression variable: the clause holds of outer rows exactly when no rows satisfy the patterns and expressions with the variables so compared. |
| Correlation.DatalogNotMeans | README.md:322-328 | In Datalog it holds exactly when no rows satisfy them along with the outer rows. |
| Correlation.NegationExactly | query/translate.go:257-335 | For any body the clause is right about outer rows exactly when rows of the first kind exist just when rows of the second kind do. |
| Correlation.MixedExactly | query/translate.go:297-315 | The two kinds differ in the hidden variables alone: among rows that fit patterns, expressions and the variables compared outside, the clause is right exactly when some have hidden variables equal to the outer row just when some have them equal to the columns of the body they are compared with. |
| Correlation.NothingHiddenIsRight | query/translate.go:297-315 | With no hidden variable the clause is right. |
| Correlation.SelfComparedExactly | query/translate.go:297-315 | With hidden variables compared with themselves, as in most one-pattern bodies, it is right exactly when some candidate agrees with the outer row or there is no candidate. |
| Substitution.CompiledQueryIsDatalog | query/translate.go:37-89 | For every well-typed query of patterns, expressions and correlating negations, the SQL with its positional parameters returns exactly the projections of the assignments that satisfy every clause, whatever order the joins came in. |
| Substitution.IntEqualsReal | query/algebrize.go:19-30 | An integer equals a float in SQL exactly when the two numbers are equal, by their multiples of 2^1074. |
| Reals.FloatsCompare | query/algebrize.go:19-30 | Finite 64-bit floats compare in SQL as the real numbers they stand for, defined by sign, exponent and fraction. |
| Reals.IntComparesReal | query/algebrize.go:19-30 | And so do an integer and a finite float. |
| Decoded.ParamIs | query/translate.go:220-224 | A constant is bound as the value itself: an integer, 1 or 0, a text, a BLOB, a real equal to the float. |
| Decoded.OperatorNames | query/translate.go:196-203 | The six names <, >, <=, >=, = and != are the six operators. |
| Decoded.NullComparison | query/translate.go:206-240 | No comparison holds of NULL, on either side. |
| Decoded.IntComparison | query/translate.go:206-240 | Each of the six operators, between constants and variables, is the relation of that name on integers. |
| Decoded.TextComparison | query/translate.go:206-240 | On text it is the relation of that name on byte strings in lexicographic order. |
| Decoded.FloatComparison | query/translate.go:206-240 | On finite floats it is the relation of that name on real numbers. |
| Decoded.MixedComparison | query/translate.go:206-240 | On a finite float and an integer too. |
| Decoded.MatchesByPosition | README.md:297-311 | A row is an instance of a pattern exactly when entity, attribute, value and transaction each equal the constant or variable that stands where they belong. |
| Decoded.UntypedPosition | query/algebrize.go:256-312 | Where a pattern names no attribute its value is the stored BLOB, which equals constants of bytes only. |
| Asked.PositionHolds | transact.go:80-113 | The value position of a row of a known attribute is the number, text or bytes that its BLOB decodes to. |
| Asked.ReferenceNames | README.md:297-311 | The value of a reference equals the entity of another row exactly when it names that entity. |
| Asked.ConstantMatches | query/translate.go:149-172 | A value position equals a constant of its type exactly when the stored BLOB is the encoding of the constant; zeros, NaN and instants aside. |
| Inputs.BindInputsBinds | query_api.go:201-308 | Every input used as it may be is written where it belongs and nowhere else, and no error is reported. |
| Inputs.SubstQueryParts | query_api.go:201-308 | Substitution acts on patterns and expressions and leaves negations alone. |
| Substitution.PlacedIsSubst | query_api.go:220-251 | Matching where the inputs were placed, with the star joins, is matching the substituted patterns at every occurrence. |
| Substitution.BindingIsSubstitution | query_api.go:201-308 | Binding succeeds and the bound query returns exactly the Datalog answers of the query with every occurrence of its inputs replaced, for inputs used in patterns only or in one expression position only. |
| Markers.DanglesExactly | query/algebrize.go:415-424 | After binding, a reference to no table is left, in filters, results or negations, exactly when some input is a result, stands in a negation, in a pattern and an expression, or in two expression positions. |
| Success.BindsExactly | query_api.go:201-308 | Binding goes through exactly when there are enough arguments and each input has a first pattern or else a use, and fits it. |
| Success.TranslatesExactly | query/translate.go:22-89 | A bound query translates, with or without a view, exactly when it and every negation has a pattern and no input is misused. |
| Success.EncodesExactly | query_api.go:417-493 | encodeParams accepts the bound query exactly when bytes are compared with bytes outside negations. |
| Success.CompilesExactly | query_api.go:156-198 | An accepted query compiles exactly under these three conditions, on the query, its arguments and the schema; view and order of joins play no part. |
| Success.InputInNegation | query/algebrize.go:565-578 | [:find ?e :in $ ?x :where [?e a ?x] (not [?e b ?x])] never translates, although its input is used in patterns only: the negation starts from the marker. |
| AsOf.RetractsMeans | query_api.go:376-394 | The raw subquery holds of a row exactly when its fact is retracted by the given transaction. |
| AsOf.AddedMean | query_api.go:312-412 | The filters and raw filters added table by table say that every table row is shown by the view. |
| AsOf.AsOfIsQueryOverShown | query_api.go:312-412 | An AsOf query over the log returns what the same query returns over the rows the view shows, taken as current_datoms. |
| EndToEnd.AlgebraIsTimeless | query/algebrize.go:151-253 | A query that mentions no transaction compiles to a form that reads no time column. |
| EndToEnd.BindingKeepsTimeless | query_api.go:201-308 | Binding inputs keeps it so. |
| EndToEnd.AlikeAnswers | query/translate.go:37-89 | Such a query cannot tell rows apart that differ only in their times. |
| EndToEnd.TimeTravelEndToEnd | query_api.go:312-412 | In a run in id order without revivals such a compiled query, inputs bound, returns on AsOf(t) from the log exactly what it returned on current_datoms right after t. |
| EndToEnd.RevivalShows | query_api.go:378-391 | After a revival there is a time at which the query for all facts does not. |
| EndToEnd.TimeTravelExactly | query_api.go:312-412 | Every such query travels to every past transaction exactly when no fact was ever revived. |
| EndToEnd.AsOfTxTimeExactly | query_api.go:91-109 | The id found for a time covers exactly the transactions recorded by then, for every time, exactly when transaction times never decrease with ids. |
| EndToEnd.AsOfTxTimeOfRun | query_api.go:91-109 | The same for the transactions table of every run; and no transaction is found exactly when none was recorded by then. |
| Algebrize.Algebrizer.RecordVar | query/algebrize.go:338-342 | The place is appended to those of the variable. |
| Algebrize.Algebrizer.AddPattern | query/algebrize.go:256-312 | The state after one more pattern: its table, its places in order, its type; or the error, which depends on the attribute only. |
| Algebrize.Algebrizer.BuildJoins | query/algebrize.go:345-365 | Over the variables in any order, exactly the star joins. |
| Algebrize.Algebrizer.ResolveFilterArg | query/algebrize.go:408-437 | A variable reads its first place, an :in variable the marker, and an unknown one is refused. |
| Algebrize.Algebrizer.ResolveFilter | query/algebrize.go:368-405 | The resolved filter with its constants typed, exactly when all variables resolve. |
| Algebrize.Algebrizer.ResolveFindElem | query/algebrize.go:440-461 | The place of a result variable, or the error. |
| Algebrize.Algebrizer.BuildSubqueryJoins | query/algebrize.go:538-582 | Exactly the joins from the outer first place of each shared variable to the inner one. |
| Algebrize.Algebrizer.AlgebrizeSubquery | query/algebrize.go:480-535 | A body is accepted exactly when its attributes are known and every expression comes after what binds it; then its tables, star joins and filters. |
| Algebrize.Algebrize | query/algebrize.go:151-253 | A query is accepted exactly under stated conditions, and what it becomes is its algebraic form. |
| Translate.BuildSelect | query/translate.go:92-129 | The output columns, exactly when every result has a table. |
| Translate.BuildFilter | query/translate.go:206-240 | The condition and its parameters side by side. |
| Translate.BuildWhere | query/translate.go:148-203 | All conditions and parameters in the order tables, joins, filters, raw filters, exactly when every index is a table. |
| Translate.BuildNotExists | query/translate.go:257-335 | The subquery with its parameters; an empty body is refused. |
| Translate.Translate | query/translate.go:22-89 | Succeeds exactly when every index refers to a table, and gives the statement that the theorems above are about. |
| QueryApi.FirstErrorWins | query_api.go:214-305 | The first input that fails decides the error. |
| QueryApi.AlgebraicQuery.BindInTables | query_api.go:220-251 | Only the first table with the variable changes; value, then entity, then transaction position. |
| QueryApi.AlgebraicQuery.BindInFilters | query_api.go:252-301 | Only the first filter argument that refers to the input changes, encoded by the type beside it. |
| QueryApi.AlgebraicQuery.BindInputArgs | query_api.go:201-308 | The in-place rewriting equals the specified binding, or reports its error. |
| QueryApi.AlgebraicQuery.ApplyView | query_api.go:312-412 | The in-place rewriting equals the specified temporal query. |
| QueryApi.Statement.EncodeTables | query_api.go:432-460 | The index walk touches exactly the tables' slots, and changes none. |
| QueryApi.Statement.EncodeFilters | query_api.go:462-490 | The walk over the filters' constants ends behind the last one, changes none, and fails exactly when one compared with bytes is not bytes. |
| QueryApi.Statement.EncodeParams | query_api.go:417-493 | For a translated query the walk ends at the number of table bindings plus filter constants, and the slots before are theirs; it never changes a parameter and fails exactly when a constant compared with bytes is not bytes. |
| QueryApi.OnlyBytesEncode | query_api.go:442-486 | The only type encodeParams would encode is bytes, which encode as they are. |
| Compilation.WellUsedAccepted | query/algebrize.go:151-253 | A query whose variables, inputs and negations are used well is accepted by Algebrize. |
| Compilation.WellUsedTranslates | query/translate.go:22-89 | With inputs bound and a view applied, it refers to no table that does not exist. |
| Compilation.WellUsedCompilable | query_api.go:156-198 | It compiles exactly when it compares bytes with bytes. |
| Compilation.WellUsedCompiles | query_api.go:156-198 | If it makes no calls, it does, so it compiles. |
| Compilation.ViewedMeans | query_api.go:156-198 | Bound and under a view, the query returns the Datalog answers of the substituted query over the rows the view shows. |
| Compilation.CompileQuery | query_api.go:156-198 | The five stages run in order, on objects rewritten in place; success exactly when the query is accepted and compilable, both conditions on query, arguments and schema; and on success the statement, read with its :find elements, returns exactly the Datalog answers on every database. |
| Compilation.ReturnsOverRows | query_api.go:131-138 | What a compiled query returns under each kind of view, by the rows of the tables: current_datoms when there is neither transaction nor valid time, and else the assertions of the log, with a transaction those by then without a retraction by then, with a valid time those valid from no later; a valid time alone suffices to read the log. |
| Acceptance.AcceptedExactly | query/algebrize.go:151-253 | A query is accepted exactly when its patterns name known attributes, and every variable of its expressions and its :find clause is an input or stands in a pattern outside negations; in a negation, in a pattern before the expression. |
| Asked.BothCompile | query_api.go:156-198 | [:find ?e :where [?e a c]] and [:find ?e :where [?e a ?v] [(op ?v c)]] compile for every known attribute, constant of its type and operator, under every view. |
| Asked.HavingReturns | query_api.go:156-198 | What the first compiles to returns e exactly when some row it is about has entity e, the attribute, and the encoding of c. |
| Asked.HavingIsCurrent | transact.go:374-386 | Without a view: exactly when the fact is in current_datoms. |
| Asked.HavingWasAsserted | query_api.go:352-394 | On AsOf(t): exactly when the log has the fact asserted by t and never retracted by t. |
| Asked.HavingWasValid | query_api.go:396-411 | On a valid time alone: exactly when the log has the fact asserted from that time or an earlier one. |
| Asked.ComparingReturns | query/translate.go:196-240 | On an attribute of integers the second returns e exactly when some row it is about has entity e, the attribute, and decodes to an integer in that relation to c. |
| Asked.InputReturns | query_api.go:201-308 | [:find ?e :in ?x :where [?e a ?x]] with the argument c returns what the first returns. |
| Asked.ComparingInputReturns | query_api.go:201-308 | [:find ?e :in ?x :where [?e a ?v] [(op ?v ?x)]] on an attribute of integers, with the argument m, returns what the query with m in its place returns. |
| Asked.ComparingInputCompiles | query_api.go:156-198 | And it compiles, for every operator and under every view. |
| RuleMeaning.TrackMeans | query/recursive.go:186-200 | Rows meet the gathered conditions exactly when every position holds under the values at the first places. |
| RuleMeaning.StatementIsRule | query/recursive.go:207-351 | The statement of an accepted, aligned rule inserts exactly the tuples the rule derives, reading derived or delta tables as told. |
| RulePatterns.PatternFinds | query/recursive.go:220-264 | A pattern of a rule holds exactly when some datom has the id of its attribute as attribute, or the value of its attribute variable, and its entity, value and transaction are the constants and the values of the variables there. |
| RulePatterns.ApplicationFinds | query/recursive.go:266-292 | An application holds exactly when its name stands for a tuple that has the constants and the values of the variables in their places. |
| RulePatterns.OnePatternInserts | query/recursive.go:207-351 | The statement of an accepted, aligned rule of one pattern inserts a tuple exactly when some datom of that attribute fits pattern and head under one assignment. |
| RulePatterns.LinkedPlannable | query/recursive.go:38-94 | (name ?x ?y) [?x :attr ?y] can be planned exactly when the attribute is known. |
| RulePatterns.LinkedRuns | query/recursive.go:38-111 | Planned and run from empty tables, its table holds exactly the entities and values of the datoms of that attribute. |
| RuleMeaning.MismatchedNeverRight | query/recursive.go:312-346 | If the head's constants are not the first of all parameters, the statement never inserts a tuple that the rule derives, for all data and tables. |
| RuleMeaning.MismatchedExactly | query/recursive.go:312-346 | So on given data it is right exactly when nothing is derived and nothing inserted. |
| HeadConstants.TrackDealt | query/recursive.go:207-351 | Rows meet the gathered conditions with any parameters exactly when every position holds with its constants taken from these. |
| HeadConstants.StatementDealsOut | query/recursive.go:312-346 | For every accepted rule, constants where they may: the statement inserts exactly the tuples of rows that satisfy the rule once its constants, body first and then head, are dealt out again, head first and then body. |
| HeadConstants.RightOnlyIfHeadMatches | query/recursive.go:312-346 | A statement that is right on all data and tables has its head constants first among its parameters; and one whose two orders of parameters are one list is right on all. |
| RuleMeaning.ConstantGoesAstray | query/recursive.go:312-346 | A concrete rule with a constant in its head inserts a tuple that it does not derive. |
| Fixpoint.LeastIsModel | query/recursive.go:14-36 | The least model is closed under the rules. |
| Fixpoint.LeastIsLeast | query/recursive.go:14-36 | It is part of every model. |
| Fixpoint.SoundAsEmitted | query/recursive.go:96-136 | Any number of executions of the emitted statements, in any order, keep every derived table inside the least model and every delta table inside its derived table. |
| Fixpoint.RoundAddsNothing | query/recursive.go:112-136 | As emitted, an iteration clears the deltas its variants read, so it adds no tuple. |
| Fixpoint.RoundsAddNothing | query/recursive.go:112-136 | Nor do any number of iterations. |
| Fixpoint.CompleteExactly | query/recursive.go:96-136 | Sound derived tables hold the least model exactly when they are closed under the rules. |
| Fixpoint.PlanCompleteExactly | query/recursive.go:96-136 | However often the emitted iteration runs, it ends with the least model exactly when it started from a set already closed under the rules. |
| SemiNaive.OneVariant | query/recursive.go:120-136 | A body that holds only thanks to a new fact holds with one application reading the new facts, when no name is applied twice. |
| SemiNaive.UniverseBounds | query/recursive.go:207-351 | Accepted rules never lead out of the finite set of tuples over the active domain: the measure of the loop. |
| SemiNaive.SemiNaiveReachesLeast | query/recursive.go:96-136 | The intended loop, with one delta variant per referenced rule name, ends with exactly the least model when no body applies one name twice. |
| PlanRuns.VariantsFindExactly | query/recursive.go:120-136 | With the new facts in the deltas and all facts in the derived tables, the emitted variants insert exactly what a round of that loop finds. |
| SemiNaive.ChainEnds | query/recursive.go:120-136 | In a chain of edges the ends are connected ... |
| SemiNaive.TwiceAppliedMisses | query/recursive.go:120-136 | ... but with a body that applies its rule twice the loop ends without that tuple. |
| RulePlan.VarTracker.Record | query/recursive.go:188-194 | A first occurrence is remembered, a later one becomes a join with it. |
| RulePlan.BodyWriter.AddPattern | query/recursive.go:220-264 | Conditions, parameters and joins of one pattern, attribute first; refused exactly for a bad or unknown attribute. |
| RulePlan.BodyWriter.AddExpr | query/recursive.go:354-381 | The expression with its parameters, exactly when its variables have been seen. |
| RulePlan.RuleBodyToSQL | query/recursive.go:207-351 | A rule is accepted exactly under stated conditions, and its statement is the one the theorems are about. |
| RulePlan.RuleIsRecursive | query/recursive.go:150-159 | True exactly when the body applies one of the names. |
| RulePlan.BodyRuleRefs | query/recursive.go:162-172 | Exactly the names that the body applies. |
| RulePlan.Arities | query/recursive.go:38-66 | One arity per name, refused exactly when two heads of a name differ in length. |
| RulePlan.PlanRecursive | query/recursive.go:38-146 | Planning succeeds exactly when there are rules, arities agree and every rule is accepted; the plan holds exactly the base inserts, seeds, clears and delta variants. |
| RulePlan.PlansAreRounds | query/recursive.go:96-136 | Every plan it returns is one that the soundness and completeness theorems speak about. |
| PlanRuns.BaseRuns | query/recursive.go:96-111 | BaseSQL, from empty tables, leaves exactly what the rules without applications derive from the datoms. |
| PlanRuns.WholePlanExactly | query/recursive.go:96-136 | The whole plan as emitted, from empty tables and with any number of iterations, ends with exactly that, and so with the least model exactly when the other rules derive nothing more from it. |
| PlanRuns.PlannedIsReady | query/recursive.go:38-146 | Every plan of a plannable, aligned rule set meets the premises of these theorems. |
| PlanExecutes.LeastIsFinite | query/recursive.go:207-351 | Accepted rules derive only tuples over the values of the datoms and the constants of the heads. |
| PlanExecutes.PlansRun | query/recursive.go:79-146 | Every plan of a ready rule set can be run from empty tables, BaseSQL and any number of iterations: what each statement asks of the tables after it can be met. |
| Edn.AtomsAreNotEmpty | edn/lexer.go:158-173 | No atom is empty and the empty-atom error is never reported. |
| EdnParser.Lexer.SkipBlanks | edn/lexer.go:46-66 | The loop stops at the first character that is neither blank nor in a comment. |
| EdnParser.Lexer.ReadString | edn/lexer.go:117-155 | The unescaped text, or the error with its position, and the cursor behind the quote. |
| EdnParser.Lexer.ReadAtom | edn/lexer.go:158-173 | The text up to the next delimiter. |
| EdnParser.Lexer.NextToken | edn/lexer.go:78-114 | The token at the cursor, with line and column, and the cursor behind it. |
| EdnParser.Parser.NextToken | edn/parser.go:47-57 | Takes the buffered token if there is one; the position of the parser is that of the text not yet consumed. |
| EdnParser.Parser.PeekToken | edn/parser.go:60-70 | Shows the next token and consumes nothing. |
| EdnParser.Parser.ReadNode | edn/parser.go:73-106 | One value, by the specified reading; ends, by the text left. |
| EdnParser.Parser.ReadUntil | edn/parser.go:144-164 | The values up to the closing delimiter, or the first error. |
| EdnParser.ParseAll | edn/parser.go:27-44 | The loop over the stateful parser reads what the specification reads. |
| EdnCompose.SameTokenSameAll | edn/parser.go:47-70 | Reading depends on a position only through the next token. |
| EdnCompose.ReadingComposes | edn/parser.go:27-44 | If a can be read, a, newline, b reads as a followed by b up to positions, and fails exactly when b fails. |
| EdnCompose.CommentsAreIgnored | edn/lexer.go:54-63 | If a can be read and c has no newline, a, a semicolon, c, newline, b reads as a, newline, b up to positions. |
| EdnCompose.LastComment | edn/lexer.go:54-64 | A comment at the end of a text needs no newline. |
| EdnCompose.OnlyAComment | edn/lexer.go:54-64 | A text that is one comment holds nothing. |
| EdnPrint.GapSkipped | edn/lexer.go:46-67 | After any mix of spaces, tabs, newlines, returns, commas and comments comes the token that would come without it. |
| EdnPrint.PrintableEnds | edn/lexer.go:69-75 | The ASCII characters that end an atom are the brackets, the quote, the semicolon, the comma, the hash and white space. |
| EdnPrint.IntTextReads | edn/parser.go:167-196 | The decimal text of an integer classifies as that integer. |
| EdnPrint.DecimalReads | edn/parser.go:185-188 | The decimal text of a number, with or without a sign, is that integer exactly when int64 can hold it. |
| EdnPrint.UnknownEscape | edn/lexer.go:135-151 | An escape that is none stands for its two characters. |
| EdnPrint.StringReads | edn/lexer.go:117-155 | The escaped text of a string, in quotes, reads as the string. |
| EdnPrint.TreeReads | edn/parser.go:73-196 | A tree's text reads as the tree wherever it stands, an atom's before something that ends an atom. |
| EdnPrint.RoundTrip | edn/parser.go:27-196 | Parsing the text of any trees, with any mix of white space, commas and comments around their elements, none needed but between two atoms, gives the trees back up to positions. |
| EdnErrors.PositionIs | edn/lexer.go:34-44 | A line is one more than the newlines before it, a column one more than the characters since the last of these. |
| EdnErrors.FlawsAreReported | edn/parser.go:73-163 | Behind any trees, white space and comments, and however deeply nested, an open string or escape, a stray closing delimiter, a hash without a brace, a map with an odd number of elements and an unclosed collection each get their own error, at their own line and column. |

## Left out

- SQLite, its connection pool, WAL, pragmas, migrations, hot and cold files: tables are sequences, maps and sets with the keys of schema.go, and the part of a transaction under the write lock is one step.
- Database.DB.AllocEntityID: does not model int64 wrap-around of the counters, which would take 2^63 allocations; where a theorem needs ids to fit, it says so.
- Database.DB.DefineAttribute: does not model a definition that another client makes between the lookup and the insert, or during a batch; the id is taken, the row inserted and the cache updated in one step, and the failing insert is left out.
- Database.DB.Transact: does not model the rollback that the documentation intends; it states what the code commits. The clock is a parameter. Ids taken by a concurrent client before the lock are modelled in Runs.
- Failures.AtomicExactly: does not speak about the row in the transactions table, which a batch that fails on its first datom leaves behind; and asks that no entity in use be at or above the counter, which TempIDs.BelowCounterKept keeps. Failures.AtomicByStep is without that premise.
- TempIDs.FirstPassAcceptsExactly: asks the same, because a fresh id could otherwise be an entity in use.
- Outline.OutcomeExactly: states its condition as a run of the outline, not as one formula over the batch, because lookup refs and replaced values depend on the datoms before; Outline.NothingTakenBackNoGap and Outline.HarmlessKeepsView read the batch alone and are sufficient, not exact.
- Values.ValueRoundTrip: does not model time zones or times outside int64 milliseconds; an instant is its millisecond count. Go's int and int64 are one kind of integer.
- Values.IntOrderExactlyWithinASign: does not promise order across signs, which the encoding does not keep.
- Correctness.NotMeans: does not cover variables shared through an outer table whose index the body also has, or stored differently inside and outside, which the translation compares wrongly; Correlation.NegationExactly covers every body, and Correlation.MixedExactly those stored alike.
- Substitution.CompiledQueryIsDatalog: does not cover queries that compare values of different kinds, where SQLite's affinity rules apply, nor stored NaN, which SQLite turns into NULL, nor, beside negations, stored negative zero.
- Substitution.BindingIsSubstitution: does not cover inputs that are results, that stand in negations or as attributes, or that are used in two ways; Success.CompilesExactly says which of these compile at all.
- Compilation.CompileQuery: does not model the parsing of the query text, and states exact success for queries that name no input twice in :in.
- Compilation.ViewedMeans: does not cover negations under a view, whose tables stay on current_datoms.
- EndToEnd.TimeTravelEndToEnd: does not cover queries that look at transactions, for which the past and the log differ by design.
- QueryApi.AlgebraicQuery.BindInTables: does not state what a failing binding leaves in the query, which is then discarded.
- Algebrize.Algebrizer.AddPattern: does not state the state after an error, for the same reason.
- Translate.Translate: does not model the text of the statement, INDEXED BY hints, GROUP BY and ORDER BY; statements are syntax trees, and an index that is no table, where the original panics or writes NULL, is an error.
- SemiNaive.SemiNaiveReachesLeast: does not hold for the emitted plan but for the intended step, which refills the deltas and evaluates all variants on the same tables; for the emitted plan see PlanRuns.WholePlanExactly. The restriction to one application per name is shown to be needed by a concrete rule set, not characterised.
- Fixpoint.SoundAsEmitted: does not cover rules whose constants are not aligned; by RuleMeaning.MismatchedNeverRight those with a mismatched head insert nothing that their rule derives, and for the rest, whose body constants are shifted, HeadConstants.StatementDealsOut says what is inserted, which may or may not be what the rule derives.
- RuleMeaning.StatementIsRule: does not model the storage classes of rule values: the original compares the BLOB of a value with the integer of an entity, here values are abstract integers. Comparisons and functions in rule bodies are uninterpreted.
- RulePlan.PlanRecursive: does not model the CREATE and DROP statements or their text.
- EdnParser.Parse: does not model what strconv.ParseFloat accepts, which is a parameter, nor text that is not valid UTF-8.
- EdnPrint.RoundTrip: does not model Go's float formatter; a float is printed as any text that the float parser reads as it.
- EdnPrint.TreeReads: see EdnPrint.RoundTrip.
- EdnErrors.FlawsAreReported: does not say that texts without these flaws can be read; which texts can be read is EdnPrint.RoundTrip for the texts of trees.
- Asked.HavingReturns: does not cover a constant that is zero as a float, a NaN, an infinity or an instant, nor data with NaN or infinities in a float attribute; Store.TypedEqualityExactly and Decoded.ParamIs say how these compare.
- Asked.ConstantMatches: as Asked.HavingReturns.
- Translate.BuildFilter: does not model comparisons of other than two operands, which the original chains; here they are calls.
- OR clauses: the translation drops the outer query (query/translate.go:342-358).
- NOT and OR inside NOT, chained comparisons with other than two operands, output bindings of expressions: the translation does not carry their meaning.
- Aggregates and ORDER BY: aggregates are read back as int64 and order is that of the raw BLOB.
- User-defined functions: uninterpreted predicates over the values of their arguments.
- The shape of Pull results, wildcards' nested references and the depth cap, and the resolution of attribute ids in query results: only the selection of rows is modelled.
- Error texts: errors are constructors, one per case.
- query/ast.go and query/parser.go: the trees are given; the parser of queries would only add a third reader over the EDN reader.
