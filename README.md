# LDBC driver: counter generator, add-comment operation, client start-up

A Dafny model of three small pieces of sequential logic from the LDBC SNB
benchmark driver, with proofs of what each promises.

- **`CounterGenerator`** (`counter_generator.dfy`). This is the generator's `doNext`
  state machine. It hands out `start`, `start + incrementBy`, … for as long as the
  count is not strictly above an optional `max`. After that it returns `null`
  forever. The class keeps the real `count` field, with ghost `start`/`calls`
  that tie it to the specification function `CountAfter`.
- **`LdbcUpdate7AddComment`** (`add_comment.dfy`). This is the "add comment" update
  operation, in two views:
  - The value view is the datatype `Comment`. It carries the pure comparison
    chain of `equals`: as written (`EqualsAsWritten`, which can throw) and as
    evidently intended (`Equals`). It also carries the `hashCode` fold in
    32-bit wrap-around arithmetic, and the constants `type()` and
    `marshalResult`.
  - The object view is the class `LdbcUpdate7AddComment`. Its tag and mention
    lists are mutable `IdList` objects. Its `Equals` method sorts those lists
    in place, as the private `sort` does.
  - Lists may be shared between fields or between objects. The ghost predicate
    `Tracks` states the effect of the sort on all of them together: every list
    holds its original elements, sorted if a comparison reached it.
- **`Client`** (`client.dfy`). This is the decision half of the `Client`
  constructor: which mode the configuration selects, in priority order, and
  which required parameters are missing, collected in the fixed order DB,
  WORKLOAD, OPERATION_COUNT before failing. It also covers
  `ValidateDatabaseMode.removeExtension`.
- **`Wrappers`** (`wrappers.dfy`) holds `Option` (a nullable reference) and `Result`
  (a return or an exception).

## Model

| member | source | states |
|---|---|---|
| `CounterGenerator.Emit` | core/src/main/java/com/ldbc/generator/CounterGenerator.java:26-32 | a call yields `null` exactly when `max` is set and the count is strictly above it; otherwise it yields the count, never above `max`, and never `null` without a `max` |
| `CounterGenerator.Exhausted` | core/src/main/java/com/ldbc/generator/CounterGenerator.java:26 | defines the guard of `doNext`: `max` is set and the count has passed it |
| `CounterGenerator.Step` | core/src/main/java/com/ldbc/generator/CounterGenerator.java:26-31 | defines the count after one call: unchanged on the `null` path, advanced by `incrementBy` otherwise |
| `CounterGenerator.CountAfter` | core/src/main/java/com/ldbc/generator/CounterGenerator.java:17-31 | defines the count of a generator built from `start` after `n` calls |
| `CounterGenerator.NthResult` | core/src/main/java/com/ldbc/generator/CounterGenerator.java:26-32 | defines the result of call `k` of a fresh generator |
| `CounterGenerator.FirstCallReturnsStart` | core/src/main/java/com/ldbc/generator/CounterGenerator.java:17-32 | the first call returns `start` when `max` is unset or `start <= max`, else `null` |
| `CounterGenerator.ExhaustedIsStable` | core/src/main/java/com/ldbc/generator/CounterGenerator.java:26-29 | once the count is past `max` it never changes again |
| `CounterGenerator.NullIsAbsorbing` | core/src/main/java/com/ldbc/generator/CounterGenerator.java:26-29 | after one `null` every later call returns `null` |
| `CounterGenerator.NonNullResultsAreArithmetic` | core/src/main/java/com/ldbc/generator/CounterGenerator.java:30-31 | a non-null call `k` returns `start + k * incrementBy`, and every earlier call was non-null |
| `CounterGenerator.UnboundedNeverNull` | core/src/main/java/com/ldbc/generator/CounterGenerator.java:26-31 | without `max`, call `k` returns `start + k * incrementBy` and never `null` |
| `CounterGenerator.CounterGenerator.constructor` | core/src/main/java/com/ldbc/generator/CounterGenerator.java:14-21 | the count starts at `start`; `incrementBy` and `max` are fixed from here on |
| `CounterGenerator.CounterGenerator.DoNext` | core/src/main/java/com/ldbc/generator/CounterGenerator.java:24-33 | returns the `NthResult` of the call count. It returns `null` iff `max` is set and the old count is above it; then the count is untouched. Otherwise it returns the old count and advances it by `incrementBy` |
| `Client.Required` | src/main/java/com/ldbc/driver/Client.java:79-131 | each mode's required parameters come in strictly increasing DB, WORKLOAD, OPERATION_COUNT order |
| `Client.IsMissing` | src/main/java/com/ldbc/driver/Client.java:80-85 | defines when a parameter counts as absent: a `null` db or workload class name, an operation count of 0 |
| `Client.MissingAmong` | src/main/java/com/ldbc/driver/Client.java:79-85 | defines the `missingParams` list one branch builds: the absent parameters among those it checks, in the order it checks them |
| `Client.Missing` | src/main/java/com/ldbc/driver/Client.java:79-131 | defines the list the selected mode's branch collects before deciding whether to throw |
| `Client.ModeFor` | src/main/java/com/ldbc/driver/Client.java:73-135 | defines the mode the `if`/`else if` chain selects |
| `Client.MissingAmongMembers` | src/main/java/com/ldbc/driver/Client.java:79-85 | a parameter is reported exactly when it is checked and absent |
| `Client.MissingAmongOrdered` | src/main/java/com/ldbc/driver/Client.java:79-85 | the collected list keeps the checking order |
| `Client.MissingIsOrderedAndExact` | src/main/java/com/ldbc/driver/Client.java:79-133 | the list a mode reports names exactly its absent required parameters, once each, in the order DB, WORKLOAD, OPERATION_COUNT |
| `Client.ModeForIsHighestPriorityRequest` | src/main/java/com/ldbc/driver/Client.java:73-135 | the selected mode is the one the configuration asks for with the highest priority (help, validation-params creation, database validation, workload validation, statistics, execute) |
| `Client.HelpNeedsNothing` | src/main/java/com/ldbc/driver/Client.java:73-75 | help is chosen whenever asked for and checks no parameter |
| `Client.SelectClientMode` | src/main/java/com/ldbc/driver/Client.java:72-135 | throws `ClientException` iff the selected mode's missing list is non-empty, reporting exactly that list; otherwise yields the selected mode |
| `Client.LastIndexOf` | src/main/java/com/ldbc/driver/Client.java:685 | the last index holding the character, or -1 exactly when it is absent |
| `Client.RemoveExtension` | src/main/java/com/ldbc/driver/Client.java:684-686 | the result is a prefix of the name: the whole name when it has no `.`; otherwise the part before a `.` that has no `.` after it |
| `Client.RemoveExtensionUnique` | src/main/java/com/ldbc/driver/Client.java:684-686 | no other prefix satisfies that description, so it determines the result |
| `AddComment.Type` | driver/src/main/java/com/ldbc/driver/workloads/ldbc/snb/interactive/LdbcUpdate7AddComment.java:257-261 | every add-comment operation has type 1007 |
| `AddComment.MarshalResult` | driver/src/main/java/com/ldbc/driver/workloads/ldbc/snb/interactive/LdbcUpdate7AddComment.java:236-240 | the serialized result is ignored; the answer is always the no-result instance |
| `AddComment.SortSeq` | driver/src/main/java/com/ldbc/driver/workloads/ldbc/snb/interactive/LdbcUpdate7AddComment.java:187-191 | the sorted list is ascending and a permutation of its input |
| `AddComment.SortedUnique` | driver/src/main/java/com/ldbc/driver/workloads/ldbc/snb/interactive/LdbcUpdate7AddComment.java:187-191 | two ascending lists with the same elements are equal, so the sort's outcome is determined |
| `AddComment.SortIdempotent` | driver/src/main/java/com/ldbc/driver/workloads/ldbc/snb/interactive/LdbcUpdate7AddComment.java:187-191 | sorting a sorted list changes nothing |
| `AddComment.SameSortIffPermutation` | driver/src/main/java/com/ldbc/driver/workloads/ldbc/snb/interactive/LdbcUpdate7AddComment.java:173-175 | two lists sort alike iff they are permutations of each other |
| `AddComment.CompareIdsAsWritten` | driver/src/main/java/com/ldbc/driver/workloads/ldbc/snb/interactive/LdbcUpdate7AddComment.java:173 | a list comparison throws iff this list is set and the other is `null`; it matches iff both are `null` or both hold the same ids |
| `AddComment.Touched` | driver/src/main/java/com/ldbc/driver/workloads/ldbc/snb/interactive/LdbcUpdate7AddComment.java:173 | defines the lists one comparison `x != null ? !listsEqual(sort(x), sort(y)) : y != null` sorts: none when `x` is `null`, else `x` and then `y` unless `y` is `null` |
| `AddComment.EqualsAsWritten` | driver/src/main/java/com/ldbc/driver/workloads/ldbc/snb/interactive/LdbcUpdate7AddComment.java:143-185 | defines `equals` as the source runs it: the identity, `null` and class checks, the ten field comparisons, the two list comparisons (which may throw) and the last three fields, in source order |
| `AddComment.Equals` | driver/src/main/java/com/ldbc/driver/workloads/ldbc/snb/interactive/LdbcUpdate7AddComment.java:143-185 | defines the evidently intended `equals`: the same chain, with a one-sided `null` list unequal instead of throwing |
| `AddComment.CompareIdsUpToOrder` | driver/src/main/java/com/ldbc/driver/workloads/ldbc/snb/interactive/LdbcUpdate7AddComment.java:173-175 | reordering either list never changes a list comparison's outcome |
| `AddComment.SameIdsIffUpToOrder` | driver/src/main/java/com/ldbc/driver/workloads/ldbc/snb/interactive/LdbcUpdate7AddComment.java:173-175 | comparing sorted copies null-safely is comparing id multisets |
| `AddComment.EqualsCharacterised` | driver/src/main/java/com/ldbc/driver/workloads/ldbc/snb/interactive/LdbcUpdate7AddComment.java:143-185 | two distinct comments are equal iff every field agrees and the id lists are permutations of each other |
| `AddComment.EqualsEdgeCases` | driver/src/main/java/com/ldbc/driver/workloads/ldbc/snb/interactive/LdbcUpdate7AddComment.java:146-149 | `equals` is false for `null` and for another class, and true for the same object |
| `AddComment.EqualsReflexive` | driver/src/main/java/com/ldbc/driver/workloads/ldbc/snb/interactive/LdbcUpdate7AddComment.java:146-184 | a distinct object with the same values is equal, and comparing it does not throw |
| `AddComment.PrimitiveDifferenceIsUnequal` | driver/src/main/java/com/ldbc/driver/workloads/ldbc/snb/interactive/LdbcUpdate7AddComment.java:153-164 | any difference in `authorPersonId`, `commentId`, `countryId`, `length`, `replyToCommentId` or `replyToPostId` makes `equals` false, as written and as intended |
| `AddComment.NullableFieldsAreNullSafe` | driver/src/main/java/com/ldbc/driver/workloads/ldbc/snb/interactive/LdbcUpdate7AddComment.java:165-182 | when `equals` answers true, as intended or as written, the seven nullable fields `browserUsed`, `content`, `creationDate`, `locationIp`, `privacy`, `link` and `gif` are equal (both `null`, or both set and equal), and each id list is `null` on both sides or on neither |
| `AddComment.EqualsIgnoresIdOrder` | driver/src/main/java/com/ldbc/driver/workloads/ldbc/snb/interactive/LdbcUpdate7AddComment.java:173-175 | reordering the tag and mention lists of the receiver, of the argument, or of both (any list may be `null`, which stays `null`) never changes `equals`, as written or as intended; a comment equals its reordered copy |
| `AddComment.EqualsIsEquivalence` | driver/src/main/java/com/ldbc/driver/workloads/ldbc/snb/interactive/LdbcUpdate7AddComment.java:143-185 | the intended `equals` is symmetric and transitive |
| `AddComment.AsWrittenAgreesWithIntended` | driver/src/main/java/com/ldbc/driver/workloads/ldbc/snb/interactive/LdbcUpdate7AddComment.java:143-185 | where the source's `equals` returns, it returns the intended answer. It throws exactly when it reaches a list comparison whose own list is set and whose other list is `null` |
| `AddComment.EqualsAsWrittenThrowsOnOneSidedNullTags` | driver/src/main/java/com/ldbc/driver/workloads/ldbc/snb/interactive/LdbcUpdate7AddComment.java:173 | with tags `[]` on one side and `null` on the other, one direction throws and the other returns false |
| `AddComment.Wrap32` | driver/src/main/java/com/ldbc/driver/workloads/ldbc/snb/interactive/LdbcUpdate7AddComment.java:196-211 | narrowing to `int` leaves values already in range unchanged |
| `AddComment.WrapShift` | driver/src/main/java/com/ldbc/driver/workloads/ldbc/snb/interactive/LdbcUpdate7AddComment.java:197-210 | narrowing sees a value only modulo 2^32 |
| `AddComment.WrapStep` | driver/src/main/java/com/ldbc/driver/workloads/ldbc/snb/interactive/LdbcUpdate7AddComment.java:197-210 | wrapping the accumulator before `31 * result + term` changes nothing after the next wrap |
| `AddComment.LongHash` | driver/src/main/java/com/ldbc/driver/workloads/ldbc/snb/interactive/LdbcUpdate7AddComment.java:196 | defines `(int) (x ^ (x >>> 32))` on the two's complement bits of a `long` |
| `AddComment.HashTerms` | driver/src/main/java/com/ldbc/driver/workloads/ldbc/snb/interactive/LdbcUpdate7AddComment.java:197-210 | defines the fourteen terms folded after the seed, in source order, a `null` field giving 0; there are always fourteen |
| `AddComment.HashFold` | driver/src/main/java/com/ldbc/driver/workloads/ldbc/snb/interactive/LdbcUpdate7AddComment.java:197-210 | defines `result = 31 * result + term` over the terms, narrowed to `int` after every step |
| `AddComment.PolyFold` | driver/src/main/java/com/ldbc/driver/workloads/ldbc/snb/interactive/LdbcUpdate7AddComment.java:197-210 | defines `result = 31 * result + term` over the terms in unbounded arithmetic, the reference the narrowed fold is compared with |
| `AddComment.Hash` | driver/src/main/java/com/ldbc/driver/workloads/ldbc/snb/interactive/LdbcUpdate7AddComment.java:196-211 | defines the hash of a comment: the fold of its terms from the folded `commentId` |
| `AddComment.LongHashOfSmall` | driver/src/main/java/com/ldbc/driver/workloads/ldbc/snb/interactive/LdbcUpdate7AddComment.java:196 | `(int) (x ^ (x >>> 32))` is `x` for a non-negative `long` below 2^31 |
| `AddComment.HashFoldIsWrappedPolynomial` | driver/src/main/java/com/ldbc/driver/workloads/ldbc/snb/interactive/LdbcUpdate7AddComment.java:196-211 | the fold narrowed to `int` after every step equals the same fold in unbounded arithmetic (`PolyFold`), narrowed once at the end |
| `AddComment.NullFieldsDoNotAffectHash` | driver/src/main/java/com/ldbc/driver/workloads/ldbc/snb/interactive/LdbcUpdate7AddComment.java:197-210 | a `null` field contributes 0: the hash depends only on the hashes of the set fields |
| `AddComment.Sort` | driver/src/main/java/com/ldbc/driver/workloads/ldbc/snb/interactive/LdbcUpdate7AddComment.java:187-191 | sorts the list in place and hands back the same list, ascending and with the same elements; a `null` list throws |
| `AddComment.IdList.constructor` | driver/src/main/java/com/ldbc/driver/workloads/ldbc/snb/interactive/LdbcUpdate7AddComment.java:29-30 | a `List<Long>` field (`tagIds`, `mentionedIds`) is an object holding its ids, which `sort` may reorder in place |
| `AddComment.TracksKeepsIds` | driver/src/main/java/com/ldbc/driver/workloads/ldbc/snb/interactive/LdbcUpdate7AddComment.java:187-191 | every list keeps its multiset of ids. A list that was sorted is ascending; any other list is unchanged |
| `AddComment.CurrentIdsCompareAsOriginal` | driver/src/main/java/com/ldbc/driver/workloads/ldbc/snb/interactive/LdbcUpdate7AddComment.java:173-175 | a list already sorted by the tag comparison (a list shared by both fields) still compares as its original contents |
| `AddComment.SortBoth` | driver/src/main/java/com/ldbc/driver/workloads/ldbc/snb/interactive/LdbcUpdate7AddComment.java:173 | `sort(x)` then `sort(that.x)`: this list is sorted, then the other, which throws iff `null`; both join the sorted lists and no other list changes |
| `AddComment.CompareIds` | driver/src/main/java/com/ldbc/driver/workloads/ldbc/snb/interactive/LdbcUpdate7AddComment.java:173 | one list comparison answers as `CompareIdsAsWritten` on the lists' contents before the call; it sorts both lists only when this list is set, and sorts nothing otherwise |
| `AddComment.LdbcUpdate7AddComment.constructor` | driver/src/main/java/com/ldbc/driver/workloads/ldbc/snb/interactive/LdbcUpdate7AddComment.java:35-66 | every field holds its argument |
| `AddComment.LdbcUpdate7AddComment.SortedBy` | driver/src/main/java/com/ldbc/driver/workloads/ldbc/snb/interactive/LdbcUpdate7AddComment.java:173-175 | defines the lists `equals` sorts: none before the ten field comparisons succeed, then those the tag comparison touches, and those the mention comparison touches only when the tags matched |
| `AddComment.LdbcUpdate7AddComment.Equals` | driver/src/main/java/com/ldbc/driver/workloads/ldbc/snb/interactive/LdbcUpdate7AddComment.java:143-191 | returns or throws as `EqualsAsWritten` on the values before the call. Only the lists the chain reaches are sorted, each keeping its ids. Every other list, and every other field, is unchanged |
| `AddComment.LdbcUpdate7AddComment.HashCode` | driver/src/main/java/com/ldbc/driver/workloads/ldbc/snb/interactive/LdbcUpdate7AddComment.java:193-212 | the hash is the 31-multiplier polynomial over the folded `commentId` and the fourteen later terms, reduced to a Java `int` |

## Findings

| source | as written | input that shows it | evidently intended | confidence | as-written member | corrected member |
|---|---|---|---|---|---|---|
| driver/src/main/java/com/ldbc/driver/workloads/ldbc/snb/interactive/LdbcUpdate7AddComment.java:173-175 | when this object's `tagIds` (or `mentionedIds`) is set and the other's is `null`, `sort(that.tagIds)` calls `Collections.sort(null)` and `equals` throws a null-reference exception. The reverse comparison returns false, so `equals` is not symmetric | two comments equal in every field except tags: `[]` on one and `null` on the other | a one-sided `null` list makes the comments unequal, and `equals` is symmetric and transitive | not executed; high (follows from the evaluation order of the two `sort` calls) | `AddComment.EqualsAsWrittenThrowsOnOneSidedNullTags` | `AddComment.EqualsIsEquivalence` |

`AddComment.EqualsAsWritten` is the as-written chain, and the class method
`AddComment.LdbcUpdate7AddComment.Equals` is proved against it.
`AddComment.Equals` is the corrected chain. `AddComment.AsWrittenAgreesWithIntended`
shows the two agree wherever the source returns.

## Left out

- The rest of the `Client` constructor is not modelled: it builds the mode objects and calls `clientMode.init()`. So are `start`, `main`, and the bodies of the execute, validation, statistics and parameter-creation modes. These are file I/O, reflection, threads and services whose sources are not part of this model.
- `Client.SelectClientMode` returns the selected `Mode` rather than assigning a `clientMode` field. The field is assigned once and never read by the modelled logic.
- `ClientException`'s message text (`"Missing required parameters: %s"`) is not modelled; the exception carries the list itself.
- `AddComment.LdbcUpdate7AddComment.HashCode` is a function over the fourteen terms rather than fifteen statements that update a local `result`. The straight-line form, whose terms are each conditional and wrapped modulo 2^32, exceeds the verifier's resource limit.
- `String`, `Date`, `List` and `Boolean` `hashCode` values are inputs (`FieldHashes`), not computed. `Date` equality is modelled by the milliseconds it compares.
- `ListUtils.listsEqual` is not part of this model. It is taken as element-wise equality of the two sorted lists.
- `null` elements inside an id list are not modelled. The lists hold `long` ids; `Collections.sort` would throw on a `null` element in a list of two or more elements, while a one-element list is left as it is.
- AddComment.Sort: does not model the `UnsupportedOperationException` that `Collections.sort` throws on an unmodifiable list (`Collections.unmodifiableList`, an immutable list). Every `IdList` is sortable, because the model has no notion of a list's mutability.
- AddComment.LdbcUpdate7AddComment.Equals: consequently does not model `equals` throwing `UnsupportedOperationException` at the tag or mention comparison when a list it reaches is unmodifiable; only the throw from sorting a `null` list is modelled.
- `toString` and `serializeResult` (a Jackson `ObjectMapper` call) are not modelled, and neither are the field accessors, which only return a field.
- `CounterGenerator.CounterGenerator.DoNext` does not model the overflow of Java `Integer`/`Long` arithmetic in `NumberHelper.sum`. The number type `T` is an unbounded integer, and `NumberHelper`'s dispatch on the runtime class is not modelled.
- `RandomDataGenerator` and the `Generator` base class are not modelled; `doNext` does not use them.
