# Trap spaces of Boolean networks via answer-set programming

This project models the trap-space module of PyBoolNet in Dafny
(`pyboolnet/trap_spaces.py`). It covers three parts of that module.

1. **The encoder `primes2asp`.** It turns the prime implicants of a network into an answer-set program:
   - one hyper-arc line per prime implicant, numbered `a1..aN`;
   - fixed generator, consistency and stability rules;
   - a closure rule and circuit rules chosen by the query type;
   - cardinality constraints chosen by the bounds;
   - the caller's extra lines;
   - `#show` directives chosen by the projection and the type.
2. **The decoding loop of `potassco_handle`.** It cuts clasp's output into lines. The line after each `Answer` line is one answer, and it reads that answer's `hit` and `percolated` atoms back into subspaces. It stops after `max_output` answers.
3. **The query layer.** This is `potassco_handle`'s own checks (type, representation, bounds with `"n"`, clasp options) and the public queries built on it:
   - `trap_spaces`, `steady_states`, `steady_states_projected`, `trap_spaces_bounded`, `circuits`;
   - `trapspaces_that_intersect_subspace`, `trapspaces_that_contain_state`, `smallest_trapspace`, `trapspaces_within_subspace`.

The modules follow the program's structure:

- `Basics`: `Option` and `Result`.
- `Strings`: the Python string operations the code relies on:
  - `sep.join`, `s.split(c)`, `s.split()`;
  - `str(int)` and `int(s)`;
  - slicing with negative indices, and substring tests.
- `Order`: Python's string order; `sorted` on the keys of a dict and on a list of names.
- `Network`: names, prime-implicant tables, dicts as ordered items, `dict(items)`, the query types, and the ways a query ends without answers (`sys.exit` calls, failed assertions, exceptions).
- `Lines`: picks the show directives and the cardinality constraints out of a program, in order.
- `Encoder`:
  - the program as a function of its inputs (`Encoding`);
  - the encoder as the source runs it, an imperative method per loop and section (`Primes2Asp` and its helpers), each proved to produce that function.
- `EncoderFacts`: what the program holds:
  - the numbering and order of the hyper-arcs, and the facts of each arc line;
  - which rules each type brings;
  - the cardinality constraints and show directives;
  - where the extra lines go.
- `Decoder`:
  - the decoding loop as a function (`Decode`) and as a method with a `while` loop (`DecodeOutput`);
  - the bound on the number of answers;
  - the round trip from printed answers back to subspaces;
  - the split of a circuits answer into circuit and percolated variables.
- `Queries`:
  - `potassco_handle` and the public queries, as functions over an `Env`;
  - the `Env` holds the solver, `active_primes`, `subspace2dict`, `subspace2str` and the date;
  - lemmas on the program each query sends and what it makes of the answers.

A caller's `sys.exit()` and a failed `assert` become `Failure` values of `Network.Error`. Exceptions raised by the decoding loop do too: `IndexError` when a line or part is missing, `ValueError` when a value is not an integer.

## Model

| member | source | states |
|---|---|---|
| Strings.Split | pyboolnet/trap_spaces.py:547 | `output.split("\n")`: at least one piece, no piece holds the separator, and joining the pieces with it gives the text back |
| Strings.SplitJoin | pyboolnet/trap_spaces.py:547 | splitting the newline-joined text of lines without newlines gives exactly those lines |
| Strings.Words | pyboolnet/trap_spaces.py:557 | `line.split()` yields non-empty words without whitespace |
| Strings.WordsJoin | pyboolnet/trap_spaces.py:401 | splitting on whitespace the space-joined non-empty words gives the words back |
| Strings.NatToString | pyboolnet/trap_spaces.py:398 | the decimal form of an arc number is non-empty and all digits, with no leading zero; it starts with `0` only for 0 |
| Strings.DigitsOfNat | pyboolnet/trap_spaces.py:398 | reading back the digits of a number gives the number |
| Strings.ParseIntOfIntToString | pyboolnet/trap_spaces.py:559 | `int(str(v)) == v` for every activity value |
| Strings.IntToStringShape | pyboolnet/trap_spaces.py:400 | a printed integer is never empty and is digits after its first character, which is a digit or `-`; it starts with `-` exactly for a negative number |
| Strings.Slice | pyboolnet/trap_spaces.py:558 | `s[i:j]` has length end minus start of the resolved indices, or 0 when the end is not past the start, and its k-th character is the character of `s` at the resolved start index plus k |
| Strings.ParseInt | pyboolnet/trap_spaces.py:559 | `int(s)` accepts only digits with an optional leading sign, and a negative value only after `-`; anything else is `None`, the `ValueError` |
| Strings.Join | pyboolnet/trap_spaces.py:464 | `sep.join(parts)`, the definition that `Strings.Split`, `Strings.SplitJoin` and `Strings.WordsJoin` state their round trips against |
| Strings.SliceIndex | pyboolnet/trap_spaces.py:558 | a Python slice index, negative ones counted from the end, lands inside the string |
| Order.Less | pyboolnet/trap_spaces.py:394 | Python's `<` on strings, code point by code point with a proper prefix first; `Order.LessTransitive` and `Order.LessTotal` state its order laws |
| Order.LessTransitive | pyboolnet/trap_spaces.py:394 | Python's string order is transitive |
| Order.LessTotal | pyboolnet/trap_spaces.py:394 | Python's string order is total |
| Order.SortedKeys | pyboolnet/trap_spaces.py:394 | `sorted(primes.keys())` lists every variable once, in strictly increasing order |
| Order.SortedKeysUnique | pyboolnet/trap_spaces.py:394 | that strictly increasing enumeration of the variables is the only one |
| Order.Insert | pyboolnet/trap_spaces.py:449 | inserting into a sorted list keeps it sorted and adds exactly the one name |
| Order.Sort | pyboolnet/trap_spaces.py:449 | `sorted(project)` is sorted and a permutation of the projection |
| Network.DictOf | pyboolnet/trap_spaces.py:563 | `dict(items)` has exactly the names of the items, each mapped to the value of its last item |
| Network.ParseQueryType | pyboolnet/trap_spaces.py:478 | a type name is accepted iff it is one of max, min, all, percolated, circuits |
| Encoder.Encoding | pyboolnet/trap_spaces.py:339-462 | the program `primes2asp` builds, as a function of its inputs; `Encoder.Primes2Asp` is proved to produce it and the `EncoderFacts` lemmas state what it holds |
| Encoder.NumberedLinesAppend | pyboolnet/trap_spaces.py:393-401 | numbering two runs of arcs in a row continues the second run from where the first stopped |
| Encoder.KeepKnown | pyboolnet/trap_spaces.py:383-384 | the filtered projection holds exactly the names of the projection that are variables, and is no longer than the projection |
| Encoder.ShowNameLines | pyboolnet/trap_spaces.py:451 | one `#show hit("n",S) : hit("n",S).` line per name, at the same position |
| Encoder.EncodeArc | pyboolnet/trap_spaces.py:398-401 | the loop over a prime's items builds the target fact, then one source fact per item, all under the same id |
| Encoder.EncodePrimes | pyboolnet/trap_spaces.py:396-401 | the loop over a variable's primes for one value advances the running index once per prime and numbers the lines from the index it was given |
| Encoder.EncodeVariable | pyboolnet/trap_spaces.py:395-401 | the loop over values 0 and 1 gives the primes for 0 before those for 1, with consecutive numbers |
| Encoder.EncodeArcs | pyboolnet/trap_spaces.py:393-401 | the triple loop produces the line of every arc of the network, in sorted variable order, numbered from 1 |
| Encoder.EncodeRules | pyboolnet/trap_spaces.py:403-436 | the rule section for the type: generator, consistency and stability rules, the closure rule, the circuit rules, the `hit` rule |
| Encoder.EncodeBounds | pyboolnet/trap_spaces.py:438-443 | no bounds section without bounds; otherwise the comment, the lower constraint only when `lo > 0`, the upper one always |
| Encoder.EncodeShow | pyboolnet/trap_spaces.py:448-462 | the show section for the kept projection, else for circuits, else for the other types |
| Encoder.Primes2Asp | pyboolnet/trap_spaces.py:339-470 | the text `primes2asp` returns is the newline-joined program of the header, arcs, blank line, rules, bounds, extra lines and show section |
| EncoderFacts.ArcsValid | pyboolnet/trap_spaces.py:393-401 | every arc is a prime implicant of the network for its variable and value |
| EncoderFacts.ArcsPrimes | pyboolnet/trap_spaces.py:393-401 | for each variable and value, the arcs for it are exactly its primes for that value, in their order |
| EncoderFacts.ArcsOrdered | pyboolnet/trap_spaces.py:394-396 | the arcs run through the variables in order, and within a variable the primes for 0 come before those for 1 |
| EncoderFacts.ArcEnumeration | pyboolnet/trap_spaces.py:393-401 | one arc per prime implicant and none for unknown variables, variables in sorted order and value 0 before 1; the line of the arc at position k is numbered k+1, so it carries the id `a<k+1>` |
| EncoderFacts.ArcIdInjective | pyboolnet/trap_spaces.py:397-398 | different arc numbers give different arc ids |
| EncoderFacts.HyperArcLine | pyboolnet/trap_spaces.py:396-401 | line 7 + i of the program splits into one `target` fact and one `source` fact per entry of that arc's prime, all with id `a<i+1>` |
| EncoderFacts.ArcLineWords | pyboolnet/trap_spaces.py:398-401 | the words of an arc line are its target fact followed by its source facts |
| EncoderFacts.TypeRulesInRules | pyboolnet/trap_spaces.py:415-432 | within the rule section the percolation rule is there iff the type is percolated or circuits, the bijection rule otherwise, the upstream and percolated rules iff circuits |
| EncoderFacts.TypeRules | pyboolnet/trap_spaces.py:415-432 | the same iff statements about the whole program, when the extra lines do not repeat these rules |
| EncoderFacts.CardinalityConstraints | pyboolnet/trap_spaces.py:438-446 | the cardinality constraints of the program are the bounds' constraints followed by those among the extra lines; none without bounds |
| EncoderFacts.ShowDirectives | pyboolnet/trap_spaces.py:445-462 | the show directives of the program are those among the extra lines followed by `#show.` plus one per kept name, or `percolated/1` and `hit/2` for circuits, or `hit/2` |
| EncoderFacts.ExtraLinesPlaced | pyboolnet/trap_spaces.py:438-462 | the extra lines come right after the bounds section and right before the show section, which ends the program |
| EncoderFacts.KeptNames | pyboolnet/trap_spaces.py:383-384 | the kept projection holds exactly the projection's names that are variables; no projection keeps nothing |
| Decoder.ParseHitToken | pyboolnet/trap_spaces.py:576-577 | one `hit("name",v)` token read as `(x[0][1:-1], int(x[1]))` of `x[4:-1].split(",")`; a missing part fails with `IndexError`, a bad value with `ValueError`, and nothing else |
| Decoder.ParseHitTokens | pyboolnet/trap_spaces.py:576-577 | one item per token, in order; the first token that fails decides the error, always `IndexError` or `ValueError` |
| Decoder.ParseHitLine | pyboolnet/trap_spaces.py:576-578 | the answer line of a non-circuits type as `dict(d)`: when it succeeds, its keys are exactly the names of the line's tokens; failures are decoding exceptions |
| Decoder.ParseCircuitLineAsWritten | pyboolnet/trap_spaces.py:557-566 | the circuits decoding as written, with `"hit" in x` and `"perc" in x` as substring tests: when it succeeds, the two maps split the map of the `hit`-containing tokens, percolated holding the names found in `perc`-containing tokens; failures are decoding exceptions |
| Decoder.ParseSolution | pyboolnet/trap_spaces.py:557-578 | an answer line becomes a circuit/percolated pair exactly for type circuits, a subspace otherwise; failures are decoding exceptions |
| Decoder.ParseCircuitLine | pyboolnet/trap_spaces.py:557-566 | the corrected circuits decoding (atoms told apart by predicate, see Findings): the circuit and percolated maps have disjoint keys, together hold exactly the `hit` map, percolated holds the hit variables named in a `percolated` atom, and values come from the `hit` map |
| Decoder.Decode | pyboolnet/trap_spaces.py:550-578 | the decoding loop as a function: skips lines not starting with `Answer`, decodes the line after each, stops after `max_output` answers; it fails only with `IndexError` or `ValueError` |
| Decoder.DecodeOutput | pyboolnet/trap_spaces.py:547-578 | the `while lines and len(result) < max_output` loop returns what `Decode` gives on the split output, the failure included |
| Decoder.DecodeStep | pyboolnet/trap_spaces.py:552-578 | one turn of the loop pops at least one line and adds at most one answer, keeping the result the loop will reach |
| Decoder.Within | pyboolnet/trap_spaces.py:551 | the number of answers a budget allows: never more than the answers or a non-negative budget, none for a budget of 0 or less |
| Decoder.DecodeAtMost | pyboolnet/trap_spaces.py:551-578 | at most `max_output` answers, and at most as many as there are lines |
| Decoder.DecodeBudget | pyboolnet/trap_spaces.py:551-578 | when decoding with a budget succeeds, any smaller budget gives the first of those answers, as many as it allows |
| Decoder.DecodeComplete | pyboolnet/trap_spaces.py:551-580 | fewer answers than `max_output` means all of them: a larger budget changes nothing |
| Decoder.DecodeSkips | pyboolnet/trap_spaces.py:553-554 | lines that do not start with `Answer` are skipped |
| Decoder.HitLineRoundTrip | pyboolnet/trap_spaces.py:576-578 | decoding a line of `hit("name",v)` atoms, names free of comma and whitespace, gives the map of those items |
| Decoder.CircuitLineRoundTrip | pyboolnet/trap_spaces.py:557-566 | for the corrected circuits decoding (see Findings), decoding a circuits line gives the `hit` map split into the variables not named percolated and those named percolated |
| Decoder.AnswerBlockRoundTrip | pyboolnet/trap_spaces.py:551-578 | decoding `Answer` lines each followed by an answer gives the answers' solutions, the first `max_output` of them |
| Decoder.DecodeRoundTrip | pyboolnet/trap_spaces.py:570-578 | with any lines before and after the answers, decoding the printed `hit` lines gives their subspaces in order, the first `max_output` of them |
| Decoder.AsWrittenMisreadsPercolated | pyboolnet/trap_spaces.py:557-559 | as written, a percolated variable whose name holds `hit` makes the circuits decoding raise `IndexError` |
| Decoder.CorrectedReadsPercolated | pyboolnet/trap_spaces.py:557-566 | with atoms told apart by predicate, the same answer decodes to the variable as percolated |
| Decoder.WhiteCounterexample | pyboolnet/trap_spaces.py:557-566 | the answer `hit("white",1) percolated("white")` fails as written and decodes as intended when corrected |
| Queries.ResolveBounds | pyboolnet/trap_spaces.py:486-487 | bounds stay absent or present; `("n","n")` becomes `(len(primes), len(primes))`; numbers stay |
| Queries.ClaspArguments | pyboolnet/trap_spaces.py:489-495 | `--models=max_output` and `--project` always; the domain heuristic iff max or min; sign modifier 5 iff max, 3 iff min |
| Queries.Render | pyboolnet/trap_spaces.py:584-588 | an answer stays the decoded solution exactly when the representation is dict; otherwise a circuits answer becomes a pair of strings and any other a string |
| Queries.RenderAll | pyboolnet/trap_spaces.py:584-588 | one answer per solution, a dict exactly when the representation is dict |
| Queries.PotasscoHandle | pyboolnet/trap_spaces.py:473-590 | an unknown type exits, then an unknown representation; otherwise at most `max_output` answers in the requested representation, and the only failures are decoding exceptions |
| Queries.ReadAnswers | pyboolnet/trap_spaces.py:547-590 | what is read back: at most `max_output` answers, each in the requested representation; a failure is a decoding exception |
| Queries.ReadAnswersRoundTrip | pyboolnet/trap_spaces.py:547-590 | whatever clasp prints around the answers, the answers of the non-circuit types come back as the subspaces printed, in order, the first `max_output` of them |
| Queries.SplitOutput | pyboolnet/trap_spaces.py:547 | splitting newline-joined lines gives them back, or one empty line for none |
| Queries.Program | pyboolnet/trap_spaces.py:497 | the program `potassco_handle` asks `primes2asp` for: the request's primes, resolved bounds, projection, type and extra lines; `Queries.ProgramCardinality` and `Queries.ProgramShows` state what it holds |
| Queries.SolverOutput | pyboolnet/trap_spaces.py:497-531 | what clasp prints for a request: `Env.solve` applied to the program text and the clasp arguments of the request |
| Queries.ProgramCardinality | pyboolnet/trap_spaces.py:438-446 | a request's cardinality constraints are those of its resolved bounds, then those of its extra lines |
| Queries.ProgramShows | pyboolnet/trap_spaces.py:445-462 | a request's show directives are those of its extra lines, then those of its kept projection or type |
| Queries.TrapSpaces | pyboolnet/trap_spaces.py:207-248 | at most `max_output` answers; an unknown type exits |
| Queries.TrapSpacesProgram | pyboolnet/trap_spaces.py:243-248 | the program of `trap_spaces` refuses the empty trap space and more than `n` fixed variables exactly for max, has no cardinality constraint otherwise, and shows the `hit` atoms |
| Queries.SteadyStates | pyboolnet/trap_spaces.py:251-271 | with a known representation, the answers or a decoding exception; at most `max_output` answers |
| Queries.SteadyStatesProgram | pyboolnet/trap_spaces.py:271 | bounds `("n","n")` refuse fewer and more than `n` fixed variables; the program shows the `hit` atoms |
| Queries.SteadyStatesRules | pyboolnet/trap_spaces.py:271 | the program of `steady_states` has the bijection rule and no percolation rule |
| Queries.TrapSpacesBounded | pyboolnet/trap_spaces.py:274-306 | at most `max_output` answers, all dicts; an unknown type exits |
| Queries.TrapSpacesBoundedProgram | pyboolnet/trap_spaces.py:306 | for bounds `(lo, hi)`, each `"n"` read as the number of variables, the lower constraint iff `lo > 0` and always the upper one |
| Queries.UnknownNamesOf | pyboolnet/trap_spaces.py:331 | the projection's names that are not variables |
| Queries.SteadyStatesProjected | pyboolnet/trap_spaces.py:309-336 | a projection naming an unknown variable exits with those names; otherwise at most `max_output` answers and no such exit |
| Queries.KeepKnownAll | pyboolnet/trap_spaces.py:383-384 | a projection of known variables is kept whole, in its order |
| Queries.SteadyStatesProjectedProgram | pyboolnet/trap_spaces.py:448-451 | with known names, the program shows `#show.` and one directive per projected name in order, or every `hit` atom for an empty projection |
| Queries.Circuits | pyboolnet/trap_spaces.py:20-41 | with a known representation, the answers or a decoding exception; at most `max_output` answers |
| Queries.CircuitsProgram | pyboolnet/trap_spaces.py:41 | bounds `(0, "n")` give only the upper constraint; the program shows the `percolated` and `hit` atoms |
| Queries.CircuitsRules | pyboolnet/trap_spaces.py:415-432 | the program of `circuits` has the percolation, upstream and percolated rules and no bijection rule |
| Queries.TrapspacesThatIntersectSubspace | pyboolnet/trap_spaces.py:92-143 | the failed assertion exactly when the subspace is larger than the network |
| Queries.IntersectAnswers | pyboolnet/trap_spaces.py:126-143 | no answers become `[{}]`; min on a full state gives the last answer (`[tspaces.pop()]`) and more than one exits; the exit happens in no other case; otherwise the solver's answers come back unchanged |
| Queries.IntersectCount | pyboolnet/trap_spaces.py:120-143 | at least one and at most `max_output` answers, or the single empty subspace |
| Queries.IntersectMinimal | pyboolnet/trap_spaces.py:134-141 | min on a full state gives exactly one answer; the not-unique exit happens only for min on a full state with more than one trap space |
| Queries.IntersectReturnsAnswers | pyboolnet/trap_spaces.py:118-143 | when the solver answers, the query returns those trap spaces unchanged, or for min on a full state the last of them |
| Queries.IntersectHandle | pyboolnet/trap_spaces.py:118-124 | the solver's answers for the relevant primes: at most `max_output`, failing only as `potassco_handle` fails |
| Queries.IntersectNoAnswers | pyboolnet/trap_spaces.py:126-132 | no answer from the solver makes the query answer the empty subspace |
| Queries.IntersectProgram | pyboolnet/trap_spaces.py:120-124 | max asks for at least one fixed variable and the other types for no bound; every `hit` atom is shown |
| Queries.TrapspacesThatContainState | pyboolnet/trap_spaces.py:69-89 | the failed assertion exactly when the state is larger than the network |
| Queries.SmallestTrapspace | pyboolnet/trap_spaces.py:186-204 | the failed assertion exactly when the state is larger than the network |
| Queries.SmallestTrapspaceAnswer | pyboolnet/trap_spaces.py:126-141 | for a full state: no solver answer gives the empty subspace, one answer is returned as it is, more than one exits with their count |
| Queries.SmallestTrapspaceUnique | pyboolnet/trap_spaces.py:126-141 | at least one answer; exactly one for a full state; the not-unique exit only for a full state with more than one |
| Queries.NotHitLines | pyboolnet/trap_spaces.py:178 | one `:- not hit("node",value).` line per item of the subspace, in its order |
| Queries.TrapspacesWithinSubspace | pyboolnet/trap_spaces.py:146-183 | the empty subspace gives exactly `trap_spaces`; the assertion fails exactly when the subspace is larger than the network; at most `max_output` answers |
| Queries.WithinQuery | pyboolnet/trap_spaces.py:166-183 | past the assertion: exactly `trap_spaces` for the empty subspace, at most `max_output` answers, failing only as `potassco_handle` fails |
| Queries.WithinHandle | pyboolnet/trap_spaces.py:172-183 | the solver's answers for the relevant primes with the subspace fixed: at most `max_output`, failing only as `potassco_handle` fails |
| Queries.WithinProgram | pyboolnet/trap_spaces.py:176-181 | the lower bound is the subspace's size, absent when the converted subspace is empty, and the upper the relevant primes' count; no not-hit line counts as a bound; the `hit` atoms are shown |
| Queries.WithinLines | pyboolnet/trap_spaces.py:176-181 | the not-hit lines and a blank line come right after the bounds section and right before the show section |

## Left out

- The gringo and clasp pipeline is modelled as `Env.solve`, a function from the program text and clasp's arguments to clasp's output (`pyboolnet/trap_spaces.py:499-531`). Running the processes and piping between them is left out. So are the `ERROR` check on stderr (533-539) and the lookup of the executables.
- Logging is left out; it does not change any result.
- The file write in `primes2asp` (466-469) is left out. As written, it opens `fname_asp` even when that is `None`, which would raise a `TypeError`. The model follows the documented intent: no file is written without a file name. `fname_asp` therefore does not appear in the model.
- The date in the header is a parameter (`Env.date`), not today's date.
- `active_primes`, `subspace2dict` and `subspace2str` come from other modules and are functions of `Env`, with no properties assumed. The same goes for `percolate_trapspace` (44-66), a wrapper over such functions; it is not part of this model.
- Bounds ends are numbers or `"n"`. Any other value would fail in the comparison at 441; that case is not modelled.
- The assertions of `primes2asp` on the types of its arguments (378-381) hold by construction: the arguments are typed.
- `trapspaces_that_intersect_subspace` and `trapspaces_within_subspace` assert that the subspace is a dict or a str (113, 170). This holds by construction in `Queries.SubspaceArg`.
- Names are inserted into the program and read back as plain text. `repr`'s escaping of names holding quotes or backslashes is not modelled, and the round trips assume names without whitespace or commas.
- `Strings.ParseInt` accepts an optional `-` or `+` followed by ASCII digits. The surrounding whitespace, underscores and non-ASCII digits that Python's `int` also accepts are not modelled.
- `Queries.TrapspacesThatIntersectSubspace` keeps only the assertion in its own contract. Its bound on the number of answers and its min/full-state behaviour are proved in `Queries.IntersectCount` and `Queries.IntersectMinimal`, and that it returns the solver's answers in `Queries.IntersectReturnsAnswers`.
- `Queries.TrapSpaces`, `Queries.TrapSpacesBounded`, `Queries.SteadyStates` and `Queries.Circuits` state the count and failure facts of `potassco_handle` for their requests. Their programs are covered by the `…Program` and `…Rules` lemmas.
- Decoder.Decode, Decoder.DecodeOutput, Decoder.ParseSolution and Decoder.CircuitLineRoundTrip decode a circuits answer with the corrected `Decoder.ParseCircuitLine`, not the substring test of 557-559 (see Findings). Where a percolated variable's name holds `hit`, the source raises `IndexError` and the model returns the answer.
- Queries.ReadAnswers, Queries.PotasscoHandle and Queries.Circuits build on that decoding, so for circuits they return such answers where the source raises `IndexError`.
- Decoded subspaces are maps. The dicts the source returns keep the order in which clasp printed the atoms; the maps do not.
- Whether clasp's answers really are trap spaces is the solver's matter and is not modelled.

## Findings

| source | as written | input that shows it | evidently intended | confidence | as-written member | corrected member |
|---|---|---|---|---|---|---|
| pyboolnet/trap_spaces.py:557-561 | In a circuits answer, a token is taken as a `hit` atom whenever it contains `hit` anywhere. The `percolated("white")` atom of a variable named `white` is therefore parsed as a `hit` atom, has no comma, and `x[1]` raises `IndexError`. | the answer line `hit("white",1) percolated("white")` | the `hit(` atoms are the fixed variables and the `percolated(` atoms name the percolated ones, so the answer is `({}, {"white": 1})` | not executed | Decoder.AsWrittenMisreadsPercolated | Decoder.CorrectedReadsPercolated |
