/**
 * The LDBC SNB interactive update operation 7, "add comment": an immutable
 * record of payload fields whose `equals` compares the tag and mention id
 * lists order-insensitively by sorting them in place, and whose `hashCode`
 * is the usual 31-multiplier fold in 32-bit wrap-around arithmetic.
 */
module AddComment {
  import opened Wrappers

  /** `LdbcUpdate7AddComment.TYPE`. */
  const TYPE: int := 1007

  /** Java `int`. */
  type Int32 = x: int | -0x8000_0000 <= x < 0x8000_0000

  /** Java `long`. */
  type Int64 = x: int | -0x8000_0000_0000_0000 <= x < 0x8000_0000_0000_0000

  /** A `java.util.Date`, by the milliseconds `getTime()` returns, which is what `Date.equals` compares. */
  type Date = int

  /** The value of an add-comment operation; a `None` field is a `null` reference. */
  datatype Comment = Comment(
    commentId: Int64,
    creationDate: Option<Date>,
    locationIp: Option<string>,
    browserUsed: Option<string>,
    content: Option<string>,
    length: Int32,
    authorPersonId: Int64,
    countryId: Int64,
    replyToPostId: Int64,
    replyToCommentId: Int64,
    tagIds: Option<seq<int>>,
    mentionedIds: Option<seq<int>>,
    privacy: Option<bool>,
    link: Option<string>,
    gif: Option<string>)

  /** `LdbcNoResult.INSTANCE`, the only result an update operation has. */
  datatype NoResult = Instance

  /** The exception `Collections.sort(null)` raises. */
  datatype NullReference = NullReference

  /** `type()`: every add-comment operation has type 1007. */
  function Type(): (t: int)
    ensures t == 1007
  {
    TYPE
  }

  /** `marshalResult`: the serialized result is ignored; the answer is always the no-result instance. */
  function MarshalResult(serializedOperationResult: string): (r: NoResult)
    ensures r == Instance
  {
    Instance
  }

  // ---------------------------------------------------------------------------
  // Sorting id lists (the effect of `Collections.sort` on a `List<Long>`)
  // ---------------------------------------------------------------------------

  predicate IsSorted(s: seq<int>) {
    forall i, j :: 0 <= i < j < |s| ==> s[i] <= s[j]
  }

  function Insert(x: int, s: seq<int>): (r: seq<int>)
    requires IsSorted(s)
    ensures IsSorted(r)
    ensures multiset(r) == multiset(s) + multiset{x}
  {
    if s == [] then [x]
    else if x <= s[0] then [x] + s
    else
      assert s == [s[0]] + s[1..];
      var t := Insert(x, s[1..]);
      HeadBelowRest(s, x, t);
      [s[0]] + t
  }

  /** Only for `Insert`: the head of a sorted list is below every element of any rearrangement of its tail plus a larger `x`. */
  lemma HeadBelowRest(s: seq<int>, x: int, t: seq<int>)
    requires IsSorted(s) && s != [] && s[0] < x
    requires multiset(t) == multiset(s[1..]) + multiset{x}
    ensures forall k :: 0 <= k < |t| ==> s[0] <= t[k]
  {
    forall k | 0 <= k < |t| ensures s[0] <= t[k] {
      assert t[k] in multiset(t);
      if t[k] != x {
        assert t[k] in multiset(s[1..]);
        var i :| 0 <= i < |s[1..]| && s[1..][i] == t[k];
        assert s[i + 1] == t[k];
      }
    }
  }

  /** The list in ascending order, as `Collections.sort` leaves it. */
  function SortSeq(s: seq<int>): (r: seq<int>)
    ensures IsSorted(r)
    ensures multiset(r) == multiset(s)
  {
    if s == [] then []
    else
      assert s == [s[0]] + s[1..];
      Insert(s[0], SortSeq(s[1..]))
  }

  /** The head of an ascending list is at most each of its elements. */
  lemma HeadIsLeast(x: seq<int>, v: int)
    requires IsSorted(x) && v in multiset(x)
    ensures x != [] && x[0] <= v
  {
    var i :| 0 <= i < |x| && x[i] == v;
    assert i == 0 || x[0] <= x[i];
  }

  /**
   * Two non-empty ascending lists with the same elements start alike, and
   * their tails are ascending lists with the same elements.
   */
  lemma SameHeadSameTail(x: seq<int>, y: seq<int>)
    requires IsSorted(x) && IsSorted(y) && x != [] && y != []
    requires multiset(x) == multiset(y)
    ensures x[0] == y[0]
    ensures IsSorted(x[1..]) && IsSorted(y[1..])
    ensures multiset(x[1..]) == multiset(y[1..])
  {
    HeadIsLeast(x, y[0]);
    HeadIsLeast(y, x[0]);
    TailElements(x);
    TailElements(y);
  }

  /** Dropping the head of a list drops one copy of it from its elements. */
  lemma TailElements(x: seq<int>)
    requires x != []
    ensures multiset(x[1..]) == multiset(x) - multiset{x[0]}
  {
    assert x == [x[0]] + x[1..];
  }

  /** Two ascending lists with the same elements are the same list. */
  lemma {:induction false} SortedUnique(x: seq<int>, y: seq<int>)
    requires IsSorted(x) && IsSorted(y)
    requires multiset(x) == multiset(y)
    ensures x == y
  {
    if x == [] || y == [] {
      assert |x| == |multiset(x)| == |multiset(y)| == |y|;
    } else {
      SameHeadSameTail(x, y);
      SortedUnique(x[1..], y[1..]);
      assert x == [x[0]] + x[1..] && y == [y[0]] + y[1..];
    }
  }

  /** Sorting an already sorted list changes nothing. */
  lemma SortIdempotent(s: seq<int>)
    ensures SortSeq(SortSeq(s)) == SortSeq(s)
  {
    SortedUnique(SortSeq(SortSeq(s)), SortSeq(s));
  }

  /** Two lists sort to the same list exactly when one is a permutation of the other. */
  lemma SameSortIffPermutation(x: seq<int>, y: seq<int>)
    ensures SortSeq(x) == SortSeq(y) <==> multiset(x) == multiset(y)
  {
    if multiset(x) == multiset(y) {
      SortedUnique(SortSeq(x), SortSeq(y));
    }
  }

  // ---------------------------------------------------------------------------
  // `equals`, as written and as evidently intended
  // ---------------------------------------------------------------------------

  /** The argument of `equals(Object o)`. */
  datatype Arg =
    | NullArg                       // `o == null`
    | OtherClassArg                 // `getClass() != o.getClass()`
    | SameObject                    // `this == o`
    | OtherComment(that: Comment)   // a distinct add-comment operation

  /** The comparisons of the six primitive fields and the four nullable fields checked before `tagIds`. */
  predicate FieldsBeforeListsMatch(a: Comment, b: Comment) {
    a.authorPersonId == b.authorPersonId
    && a.commentId == b.commentId
    && a.countryId == b.countryId
    && a.length == b.length
    && a.replyToCommentId == b.replyToCommentId
    && a.replyToPostId == b.replyToPostId
    && a.browserUsed == b.browserUsed
    && a.content == b.content
    && a.creationDate == b.creationDate
    && a.locationIp == b.locationIp
  }

  /** The null-safe comparisons of the three nullable fields checked after the lists. */
  predicate FieldsAfterListsMatch(a: Comment, b: Comment) {
    a.privacy == b.privacy && a.link == b.link && a.gif == b.gif
  }

  datatype ListCheck = Match | Mismatch | SortOfNull

  /**
   * `x != null ? !listsEqual(sort(x), sort(y)) : y != null`: when `x` is set
   * and `y` is `null`, sorting `y` throws.
   */
  function CompareIdsAsWritten(x: Option<seq<int>>, y: Option<seq<int>>): (r: ListCheck)
    ensures r == SortOfNull <==> x.Some? && y.None?
    ensures r == Match <==> (x.None? && y.None?) || (x.Some? && y.Some? && multiset(x.value) == multiset(y.value))
  {
    if x.Some? then
      if y.None? then SortOfNull
      else
        SameSortIffPermutation(x.value, y.value);
        if SortSeq(x.value) == SortSeq(y.value) then Match else Mismatch
    else if y.Some? then Mismatch
    else Match
  }

  /**
   * The end of the `equals` chain, from the outcomes of the two list
   * comparisons and of the last three fields: the first list comparison that
   * throws or fails decides.
   */
  function ChainFromLists(tags: ListCheck, mentions: ListCheck, rest: bool): Result<bool, NullReference> {
    match tags
    case SortOfNull => Failure(NullReference)
    case Mismatch => Success(false)
    case Match =>
      match mentions
      case SortOfNull => Failure(NullReference)
      case Mismatch => Success(false)
      case Match => Success(rest)
  }

  /** `equals` exactly as the source runs it: it may throw from the sort of a `null` list. */
  function EqualsAsWritten(a: Comment, o: Arg): Result<bool, NullReference> {
    match o
    case NullArg => Success(false)
    case OtherClassArg => Success(false)
    case SameObject => Success(true)
    case OtherComment(b) =>
      if !FieldsBeforeListsMatch(a, b) then Success(false)
      else ChainFromLists(CompareIdsAsWritten(a.tagIds, b.tagIds),
                          CompareIdsAsWritten(a.mentionedIds, b.mentionedIds),
                          FieldsAfterListsMatch(a, b))
  }

  /** The list comparison sees a list only up to the order of its ids. */
  lemma CompareIdsUpToOrder(x: Option<seq<int>>, y: Option<seq<int>>, x': Option<seq<int>>, y': Option<seq<int>>)
    requires SameIdsUpToOrder(x, x') && SameIdsUpToOrder(y, y')
    ensures CompareIdsAsWritten(x, y) == CompareIdsAsWritten(x', y')
  {
  }

  /** The evidently intended list comparison: null-safe, and order-insensitive through sorting. */
  predicate SameIds(x: Option<seq<int>>, y: Option<seq<int>>) {
    x.None? == y.None? && (x.Some? ==> SortSeq(x.value) == SortSeq(y.value))
  }

  /** The evidently intended `equals`: the same chain, with a one-sided `null` list unequal instead of throwing. */
  function Equals(a: Comment, o: Arg): bool {
    match o
    case NullArg => false
    case OtherClassArg => false
    case SameObject => true
    case OtherComment(b) =>
      FieldsBeforeListsMatch(a, b)
      && SameIds(a.tagIds, b.tagIds)
      && SameIds(a.mentionedIds, b.mentionedIds)
      && FieldsAfterListsMatch(a, b)
  }

  /** Reference definition: every field equal, except that the id lists need only hold the same ids. */
  predicate SameIdsUpToOrder(x: Option<seq<int>>, y: Option<seq<int>>) {
    x.None? == y.None? && (x.Some? ==> multiset(x.value) == multiset(y.value))
  }

  predicate EquivalentComments(a: Comment, b: Comment) {
    a.commentId == b.commentId && a.creationDate == b.creationDate
    && a.locationIp == b.locationIp && a.browserUsed == b.browserUsed
    && a.content == b.content && a.length == b.length
    && a.authorPersonId == b.authorPersonId && a.countryId == b.countryId
    && a.replyToPostId == b.replyToPostId && a.replyToCommentId == b.replyToCommentId
    && SameIdsUpToOrder(a.tagIds, b.tagIds) && SameIdsUpToOrder(a.mentionedIds, b.mentionedIds)
    && a.privacy == b.privacy && a.link == b.link && a.gif == b.gif
  }

  /** Comparing sorted copies is comparing multisets. */
  lemma SameIdsIffUpToOrder(x: Option<seq<int>>, y: Option<seq<int>>)
    ensures SameIds(x, y) <==> SameIdsUpToOrder(x, y)
  {
    if x.Some? && y.Some? {
      SameSortIffPermutation(x.value, y.value);
    }
  }

  /** Two distinct comments are equal exactly when their fields agree and their id lists are permutations. */
  lemma EqualsCharacterised(a: Comment, b: Comment)
    ensures Equals(a, OtherComment(b)) <==> EquivalentComments(a, b)
  {
    SameIdsIffUpToOrder(a.tagIds, b.tagIds);
    SameIdsIffUpToOrder(a.mentionedIds, b.mentionedIds);
  }

  /** `equals` is false for `null` and for another class, and true through the identity short-circuit. */
  lemma EqualsEdgeCases(a: Comment)
    ensures EqualsAsWritten(a, NullArg) == Success(false) && !Equals(a, NullArg)
    ensures EqualsAsWritten(a, OtherClassArg) == Success(false) && !Equals(a, OtherClassArg)
    ensures EqualsAsWritten(a, SameObject) == Success(true) && Equals(a, SameObject)
  {
  }

  /** A distinct object holding the same values is equal too, and comparing it never throws. */
  lemma EqualsReflexive(a: Comment)
    ensures EqualsAsWritten(a, OtherComment(a)) == Success(true)
    ensures Equals(a, OtherComment(a))
  {
    EqualsCharacterised(a, a);
  }

  /** Any difference in a primitive field makes the comments unequal, as written and as intended. */
  lemma PrimitiveDifferenceIsUnequal(a: Comment, b: Comment)
    requires a.authorPersonId != b.authorPersonId || a.commentId != b.commentId
          || a.countryId != b.countryId || a.length != b.length
          || a.replyToCommentId != b.replyToCommentId || a.replyToPostId != b.replyToPostId
    ensures EqualsAsWritten(a, OtherComment(b)) == Success(false)
    ensures !Equals(a, OtherComment(b))
  {
  }

  /**
   * Nullable fields match only when both are null, or both are set and equal;
   * the id lists of equal comments are both null or both set. This holds of
   * the intended `equals` and wherever the source's `equals` answers true.
   */
  lemma NullableFieldsAreNullSafe(a: Comment, b: Comment)
    requires Equals(a, OtherComment(b)) || EqualsAsWritten(a, OtherComment(b)) == Success(true)
    ensures a.browserUsed == b.browserUsed && a.content == b.content
    ensures a.creationDate == b.creationDate && a.locationIp == b.locationIp
    ensures a.privacy == b.privacy && a.link == b.link && a.gif == b.gif
    ensures a.tagIds.None? <==> b.tagIds.None?
    ensures a.mentionedIds.None? <==> b.mentionedIds.None?
  {
  }

  /**
   * Reordering the id lists of either comment never changes the outcome of
   * `equals`, as written or as intended, and a comment equals its reordered copy.
   */
  lemma EqualsIgnoresIdOrder(a: Comment, b: Comment, tags: Option<seq<int>>, mentions: Option<seq<int>>,
                             btags: Option<seq<int>>, bmentions: Option<seq<int>>)
    requires SameIdsUpToOrder(a.tagIds, tags) && SameIdsUpToOrder(a.mentionedIds, mentions)
    requires SameIdsUpToOrder(b.tagIds, btags) && SameIdsUpToOrder(b.mentionedIds, bmentions)
    ensures Equals(a.(tagIds := tags, mentionedIds := mentions), OtherComment(b.(tagIds := btags, mentionedIds := bmentions)))
        == Equals(a, OtherComment(b))
    ensures EqualsAsWritten(a.(tagIds := tags, mentionedIds := mentions), OtherComment(b.(tagIds := btags, mentionedIds := bmentions)))
        == EqualsAsWritten(a, OtherComment(b))
    ensures Equals(a, OtherComment(a.(tagIds := tags, mentionedIds := mentions)))
  {
    var a', b' := a.(tagIds := tags, mentionedIds := mentions), b.(tagIds := btags, mentionedIds := bmentions);
    CompareIdsUpToOrder(a.tagIds, b.tagIds, tags, btags);
    CompareIdsUpToOrder(a.mentionedIds, b.mentionedIds, mentions, bmentions);
    EqualsCharacterised(a', b');
    EqualsCharacterised(a, b);
    EqualsCharacterised(a, a');
  }

  /** The intended `equals` is an equivalence relation on distinct comments. */
  lemma EqualsIsEquivalence(a: Comment, b: Comment, c: Comment)
    ensures Equals(a, OtherComment(b)) == Equals(b, OtherComment(a))
    ensures Equals(a, OtherComment(b)) && Equals(b, OtherComment(c)) ==> Equals(a, OtherComment(c))
  {
    EqualsCharacterised(a, b);
    EqualsCharacterised(b, a);
    EqualsCharacterised(b, c);
    EqualsCharacterised(a, c);
  }

  /** Wherever the source's `equals` returns, it returns the intended answer; it throws exactly on a one-sided `null` list it reaches. */
  lemma AsWrittenAgreesWithIntended(a: Comment, o: Arg)
    ensures EqualsAsWritten(a, o).Success? ==> EqualsAsWritten(a, o).value == Equals(a, o)
    ensures EqualsAsWritten(a, o).Failure? <==>
      o.OtherComment? && FieldsBeforeListsMatch(a, o.that)
      && ((a.tagIds.Some? && o.that.tagIds.None?)
          || (SameIds(a.tagIds, o.that.tagIds) && a.mentionedIds.Some? && o.that.mentionedIds.None?))
  {
    if o.OtherComment? {
      SameIdsIffUpToOrder(a.tagIds, o.that.tagIds);
      SameIdsIffUpToOrder(a.mentionedIds, o.that.mentionedIds);
    }
  }

  /** A comment that differs from another only in its tag list. */
  function Sample(tags: Option<seq<int>>): Comment {
    Comment(1, None, None, None, None, 0, 2, 3, 4, 5, tags, None, None, None, None)
  }

  /**
   * The source's `equals` is not symmetric: with an empty tag list on one side
   * and `null` on the other, one direction throws and the other returns false.
   */
  lemma EqualsAsWrittenThrowsOnOneSidedNullTags()
    ensures EqualsAsWritten(Sample(Some([])), OtherComment(Sample(None))) == Failure(NullReference)
    ensures EqualsAsWritten(Sample(None), OtherComment(Sample(Some([])))) == Success(false)
    ensures !Equals(Sample(Some([])), OtherComment(Sample(None)))
    ensures !Equals(Sample(None), OtherComment(Sample(Some([]))))
  {
  }

  // ---------------------------------------------------------------------------
  // `hashCode`
  // ---------------------------------------------------------------------------

  /** A mathematical integer narrowed to a Java `int` (two's complement wrap-around). */
  function Wrap32(x: int): (r: Int32)
    ensures -0x8000_0000 <= x < 0x8000_0000 ==> r == x
  {
    (x + 0x8000_0000) % 0x1_0000_0000 - 0x8000_0000
  }

  /** Wrapping only sees the value modulo 2^32. */
  lemma WrapShift(z: int, j: int)
    ensures Wrap32(z + j * 0x1_0000_0000) == Wrap32(z)
  {
    assert (z + j * 0x1_0000_0000) % 0x1_0000_0000 == z % 0x1_0000_0000;
  }

  /** Wrapping the accumulator before `31 * acc + term` changes nothing after the next wrap. */
  lemma WrapStep(acc: int, term: int)
    ensures Wrap32(31 * Wrap32(acc) + term) == Wrap32(31 * acc + term)
  {
    var q := (acc + 0x8000_0000) / 0x1_0000_0000;
    assert Wrap32(acc) == acc - q * 0x1_0000_0000;
    WrapShift(31 * acc + term, -31 * q);
  }

  /** 2^n; the bound lets `XorZero` halve a value below it without a separate lemma. */
  function Pow2(n: nat): (p: nat)
    ensures p >= 1
  {
    if n == 0 then 1 else 2 * Pow2(n - 1)
  }

  lemma {:induction false} Pow2Add(a: nat, b: nat)
    ensures Pow2(a + b) == Pow2(a) * Pow2(b)
  {
    if a > 0 {
      Pow2Add(a - 1, b);
      assert Pow2(a + b) == 2 * Pow2(a - 1 + b);
    }
  }

  /** Bitwise exclusive or of the low `n` bits of `a` and `b`. */
  function Xor(a: nat, b: nat, n: nat): nat {
    if n == 0 then 0 else 2 * Xor(a / 2, b / 2, n - 1) + (a % 2 + b % 2) % 2
  }

  /** Exclusive or with zero leaves a value of `n` bits unchanged. */
  lemma {:induction false} XorZero(a: nat, n: nat)
    requires a < Pow2(n)
    ensures Xor(a, 0, n) == a
  {
    if n > 0 {
      XorZero(a / 2, n - 1);
    }
  }

  /**
   * `(int) (x ^ (x >>> 32))`, the hash of a `long`: the low 32 bits of the
   * two's complement value, xor-ed with its high 32 bits, read as an `int`.
   */
  function LongHash(x: Int64): Int32 {
    var u := x % 0x1_0000_0000_0000_0000;
    Wrap32(Xor(u % 0x1_0000_0000, u / 0x1_0000_0000, 32))
  }

  /**
   * 2^32, reached by doubling the exponent from `k` = 2. The exponent is a
   * parameter rather than a literal so that the verifier does not unfold
   * `Pow2` 32 times, which exceeds its resource limit.
   */
  lemma Pow2OfWord(k: nat)
    requires k == 2
    ensures Pow2(16 * k) == 0x1_0000_0000
  {
    assert Pow2(k) == 4;
    Pow2Add(k, k);
    assert Pow2(2 * k) == 16;
    Pow2Add(2 * k, 2 * k);
    assert Pow2(4 * k) == 256;
    Pow2Add(4 * k, 4 * k);
    assert Pow2(8 * k) == 0x1_0000;
    Pow2Add(8 * k, 8 * k);
  }

  /** Exclusive or with zero over a 32-bit word leaves a value below 2^31 unchanged. */
  lemma XorZeroWord(x: nat)
    requires x < 0x8000_0000
    ensures Xor(x, 0, 32) == x
  {
    var k := 2;
    Pow2OfWord(k);
    XorZero(x, 16 * k);
  }

  /**
   * The two halves of a non-negative `long` below 2^31: itself, and zero. Kept
   * apart from `XorZeroWord` so that these modular facts are proved without the
   * `Pow2` facts in scope, which makes them too costly to prove together.
   */
  lemma SmallLongHalves(x: int)
    requires 0 <= x < 0x8000_0000
    ensures x % 0x1_0000_0000_0000_0000 == x
    ensures x % 0x1_0000_0000 == x && x / 0x1_0000_0000 == 0
  {
  }

  /** A non-negative `long` that fits in an `int` hashes to itself. */
  lemma LongHashOfSmall(x: Int64)
    requires 0 <= x < 0x8000_0000
    ensures LongHash(x) == x
  {
    SmallLongHalves(x);
    XorZeroWord(x);
  }

  /** The `hashCode()` values of the object fields, when set; the model does not compute them. */
  datatype FieldHashes = FieldHashes(
    creationDate: Int32, locationIp: Int32, browserUsed: Int32, content: Int32,
    tagIds: Int32, mentionedIds: Int32, privacy: Int32, link: Int32, gif: Int32)

  /** A nullable field's share of the hash: its own hash, or 0 for `null`. */
  function NullableHash<T>(field: Option<T>, hash: Int32): Int32 {
    if field.Some? then hash else 0
  }

  /** The fourteen terms `hashCode` folds in after the `commentId` seed, in source order. */
  function HashTerms(c: Comment, h: FieldHashes): (ts: seq<int>)
    ensures |ts| == 14
  {
    [ NullableHash(c.creationDate, h.creationDate),
      NullableHash(c.locationIp, h.locationIp),
      NullableHash(c.browserUsed, h.browserUsed),
      NullableHash(c.content, h.content),
      c.length,
      LongHash(c.authorPersonId),
      LongHash(c.countryId),
      LongHash(c.replyToPostId),
      LongHash(c.replyToCommentId),
      NullableHash(c.tagIds, h.tagIds),
      NullableHash(c.mentionedIds, h.mentionedIds),
      NullableHash(c.privacy, h.privacy),
      NullableHash(c.link, h.link),
      NullableHash(c.gif, h.gif) ]
  }

  /**
   * `result = 31 * result + term` for each term in turn, every step in `int`
   * arithmetic; defined on the last term, the one folded in most recently.
   */
  function HashFold(acc: Int32, ts: seq<int>): Int32
    decreases |ts|
  {
    if ts == [] then acc else Wrap32(31 * HashFold(acc, ts[..|ts| - 1]) + ts[|ts| - 1])
  }

  /** The same fold in unbounded arithmetic. */
  function PolyFold(acc: int, ts: seq<int>): int
    decreases |ts|
  {
    if ts == [] then acc else 31 * PolyFold(acc, ts[..|ts| - 1]) + ts[|ts| - 1]
  }

  /** The hash of a comment, given the hashes of its object fields. */
  function Hash(c: Comment, h: FieldHashes): Int32 {
    HashFold(LongHash(c.commentId), HashTerms(c, h))
  }

  /**
   * Wrapping after every step agrees with computing the whole fold in
   * unbounded arithmetic and wrapping once at the end.
   */
  lemma {:induction false} HashFoldIsWrappedPolynomial(acc: int, ts: seq<int>)
    ensures HashFold(Wrap32(acc), ts) == Wrap32(PolyFold(acc, ts))
    decreases |ts|
  {
    if ts != [] {
      var init := ts[..|ts| - 1];
      HashFoldIsWrappedPolynomial(acc, init);
      WrapStep(PolyFold(acc, init), ts[|ts| - 1]);
    }
  }

  /** A `null` field contributes 0 whatever the hash its object would have had. */
  lemma NullFieldsDoNotAffectHash(c: Comment, h1: FieldHashes, h2: FieldHashes)
    requires c.creationDate.Some? ==> h1.creationDate == h2.creationDate
    requires c.locationIp.Some? ==> h1.locationIp == h2.locationIp
    requires c.browserUsed.Some? ==> h1.browserUsed == h2.browserUsed
    requires c.content.Some? ==> h1.content == h2.content
    requires c.tagIds.Some? ==> h1.tagIds == h2.tagIds
    requires c.mentionedIds.Some? ==> h1.mentionedIds == h2.mentionedIds
    requires c.privacy.Some? ==> h1.privacy == h2.privacy
    requires c.link.Some? ==> h1.link == h2.link
    requires c.gif.Some? ==> h1.gif == h2.gif
    ensures Hash(c, h1) == Hash(c, h2)
  {
    assert HashTerms(c, h1) == HashTerms(c, h2);
  }

  // ---------------------------------------------------------------------------
  // The mutable objects
  // ---------------------------------------------------------------------------

  /** A `java.util.List<Long>` that `equals` may reorder in place. */
  class IdList {
    var elems: seq<int>

    constructor (elems: seq<int>)
      ensures this.elems == elems
    {
      this.elems := elems;
    }
  }

  /** The reference passed to `equals(Object o)`. */
  datatype Obj = Null | OtherClass | Ref(target: LdbcUpdate7AddComment)

  /**
   * The private `sort`: `Collections.sort(list)` reorders the list in place
   * and hands back the same list; a `null` list throws.
   */
  method Sort(list: IdList?) returns (r: Result<IdList, NullReference>)
    modifies list
    ensures list == null <==> r.Failure?
    ensures list != null ==> r == Success(list)
    ensures list != null ==> list.elems == SortSeq(old(list.elems))
    ensures list != null ==> IsSorted(list.elems) && multiset(list.elems) == multiset(old(list.elems))
  {
    if list == null {
      return Failure(NullReference);
    }
    list.elems := SortSeq(list.elems);
    return Success(list);
  }

  /** The contents of a list reference: `None` for `null`. */
  function Contents(l: IdList?): (c: Option<seq<int>>)
    reads l
    ensures c.None? <==> l == null
  {
    if l == null then None else Some(l.elems)
  }

  /**
   * The lists `x != null ? !listsEqual(sort(x), sort(y)) : y != null` sorts:
   * nothing when `x` is `null`, otherwise `x` and then `y`, unless `y` is `null`.
   */
  function Touched(x: IdList?, y: IdList?): (t: set<IdList>)
    ensures x == null ==> t == {}
    ensures x != null ==> x in t && (y != null <==> y in t) && t <= {x, y}
  {
    if x == null then {} else {x} + (if y != null then {y} else {})
  }

  /**
   * The lists sorted before the first comparison (none) together with those it
   * sorts. Stated once for any set, because proving it on the heap-dependent
   * set in `Equals` directly costs the verifier far more.
   */
  lemma NothingSortedBefore(s: set<IdList>)
    ensures {} + s == s
  {
  }

  /** Each list in `orig` holds its original elements, sorted if it is in `done`. */
  ghost predicate Tracks(orig: map<IdList, seq<int>>, done: set<IdList>)
    reads orig.Keys
  {
    forall l :: l in orig ==> l.elems == if l in done then SortSeq(orig[l]) else orig[l]
  }

  /**
   * Sorting keeps every id: each tracked list is a permutation of its original
   * elements, ascending once sorted, and unchanged when not sorted.
   */
  lemma TracksKeepsIds(orig: map<IdList, seq<int>>, done: set<IdList>)
    requires Tracks(orig, done)
    ensures forall l :: l in orig ==> multiset(l.elems) == multiset(orig[l])
    ensures forall l :: l in orig && l in done ==> IsSorted(l.elems)
    ensures forall l :: l in orig && l !in done ==> l.elems == orig[l]
  {
  }

  /** The elements a list reference held when `orig` was taken. */
  ghost function Original(l: IdList?, orig: map<IdList, seq<int>>): Option<seq<int>>
    requires l != null ==> l in orig
  {
    if l == null then None else Some(orig[l])
  }

  /**
   * A list sorted by an earlier comparison still holds its original ids, so
   * comparing the current contents decides as comparing the original ones.
   */
  lemma CurrentIdsCompareAsOriginal(x: IdList?, y: IdList?, orig: map<IdList, seq<int>>, done: set<IdList>)
    requires x != null ==> x in orig
    requires y != null ==> y in orig
    requires Tracks(orig, done)
    ensures CompareIdsAsWritten(Contents(x), Contents(y)) == CompareIdsAsWritten(Original(x, orig), Original(y, orig))
  {
    assert x != null ==> x.elems == orig[x] || x.elems == SortSeq(orig[x]);
    assert y != null ==> y.elems == orig[y] || y.elems == SortSeq(orig[y]);
    CompareIdsUpToOrder(Original(x, orig), Original(y, orig), Contents(x), Contents(y));
  }

  /**
   * Evaluates the two `sort` arguments of `listsEqual(sort(x), sort(y))` in
   * order: `x` is sorted in place, then `y`, which throws when it is `null`.
   * Both join the sorted lists; a list that is both `x` and `y` is sorted twice.
   */
  method SortBoth(x: IdList, y: IdList?, ghost orig: map<IdList, seq<int>>, ghost done: set<IdList>)
    returns (r: Result<IdList, NullReference>)
    requires x in orig
    requires y != null ==> y in orig
    requires Tracks(orig, done)
    modifies x, y
    ensures y == null <==> r.Failure?
    ensures x.elems == SortSeq(old(x.elems))
    ensures y != null ==> y.elems == SortSeq(old(y.elems))
    ensures Tracks(orig, done + Touched(x, y))
  {
    var _ := Sort(x);
    r := Sort(y);
    if y != null {
      // when `y` is `x`, the second sort sorts a sorted list
      SortIdempotent(old(x.elems));
    }
    forall l | l in orig
      ensures l.elems == if l in done + Touched(x, y) then SortSeq(orig[l]) else orig[l]
    {
      if l == x || l == y {
        assert l.elems == SortSeq(old(l.elems)) && l in Touched(x, y);
        assert old(l.elems) == if l in done then SortSeq(orig[l]) else orig[l];
        SortIdempotent(orig[l]);
      } else {
        assert l !in Touched(x, y);
        assert l.elems == old(l.elems);
        assert old(l.elems) == if l in done then SortSeq(orig[l]) else orig[l];
      }
    }
  }

  /**
   * One list comparison of `equals`: `x != null ? !listsEqual(sort(x), sort(y))
   * : y != null`, with `listsEqual` taken as element-wise equality. It sorts
   * `x` in place and then `y`, which throws when `y` is `null`.
   */
  method CompareIds(x: IdList?, y: IdList?, ghost orig: map<IdList, seq<int>>, ghost done: set<IdList>)
    returns (r: ListCheck)
    requires x != null ==> x in orig
    requires y != null ==> y in orig
    requires Tracks(orig, done)
    modifies x, y
    ensures r == CompareIdsAsWritten(old(Contents(x)), old(Contents(y)))
    ensures x != null ==> x.elems == SortSeq(old(x.elems))
    ensures x != null && y != null ==> y.elems == SortSeq(old(y.elems))
    ensures x == null && y != null ==> y.elems == old(y.elems)
    ensures Tracks(orig, done + Touched(x, y))
  {
    if x == null {
      return if y != null then Mismatch else Match;
    }
    var sorted := SortBoth(x, y, orig, done);
    if sorted.Failure? {
      r := SortOfNull;
    } else {
      r := if x.elems == y.elems then Match else Mismatch;
    }
  }

  class LdbcUpdate7AddComment {
    const commentId: Int64
    const creationDate: Option<Date>
    const locationIp: Option<string>
    const browserUsed: Option<string>
    const content: Option<string>
    const length: Int32
    const authorPersonId: Int64
    const countryId: Int64
    const replyToPostId: Int64
    const replyToCommentId: Int64
    const tagIds: IdList?
    const mentionedIds: IdList?
    const privacy: Option<bool>
    const link: Option<string>
    const gif: Option<string>

    constructor (commentId: Int64, creationDate: Option<Date>, locationIp: Option<string>,
                 browserUsed: Option<string>, content: Option<string>, length: Int32,
                 authorPersonId: Int64, countryId: Int64, replyToPostId: Int64,
                 replyToCommentId: Int64, tagIds: IdList?, mentionedIds: IdList?,
                 privacy: Option<bool>, link: Option<string>, gif: Option<string>)
      ensures this.commentId == commentId && this.creationDate == creationDate
      ensures this.locationIp == locationIp && this.browserUsed == browserUsed
      ensures this.content == content && this.length == length
      ensures this.authorPersonId == authorPersonId && this.countryId == countryId
      ensures this.replyToPostId == replyToPostId && this.replyToCommentId == replyToCommentId
      ensures this.tagIds == tagIds && this.mentionedIds == mentionedIds
      ensures this.privacy == privacy && this.link == link && this.gif == gif
    {
      this.commentId := commentId;
      this.creationDate := creationDate;
      this.locationIp := locationIp;
      this.browserUsed := browserUsed;
      this.content := content;
      this.length := length;
      this.authorPersonId := authorPersonId;
      this.countryId := countryId;
      this.replyToPostId := replyToPostId;
      this.replyToCommentId := replyToCommentId;
      this.tagIds := tagIds;
      this.mentionedIds := mentionedIds;
      this.privacy := privacy;
      this.link := link;
      this.gif := gif;
    }

    /** The id lists this operation refers to. */
    function Lists(): set<IdList> {
      (if tagIds != null then {tagIds} else {}) + (if mentionedIds != null then {mentionedIds} else {})
    }

    /** The operation's current value. */
    function Value(): Comment
      reads Lists()
    {
      Comment(commentId, creationDate, locationIp, browserUsed, content, length,
              authorPersonId, countryId, replyToPostId, replyToCommentId,
              Contents(tagIds), Contents(mentionedIds),
              privacy, link, gif)
    }

    function ArgLists(o: Obj): set<IdList> {
      if o.Ref? then o.target.Lists() else {}
    }

    ghost function ArgOf(o: Obj): Arg
      reads ArgLists(o)
    {
      match o
      case Null => NullArg
      case OtherClass => OtherClassArg
      case Ref(that) => if that == this then SameObject else OtherComment(that.Value())
    }

    /** The elements of every list reachable from this operation and the argument. */
    ghost function Snapshot(o: Obj): (m: map<IdList, seq<int>>)
      reads Lists(), ArgLists(o)
      ensures m.Keys == Lists() + ArgLists(o)
    {
      map l | l in Lists() + ArgLists(o) :: l.elems
    }

    /** The lists `equals(o)` sorts: none unless it gets past the first ten fields, then those each list comparison reaches. */
    ghost function SortedBy(o: Obj): set<IdList>
      reads Lists(), ArgLists(o)
    {
      if !o.Ref? || o.target == this || !FieldsBeforeListsMatch(Value(), o.target.Value()) then {}
      else
        var that := o.target;
        if CompareIdsAsWritten(Contents(tagIds), Contents(that.tagIds)) == Match
        then Touched(tagIds, that.tagIds) + Touched(mentionedIds, that.mentionedIds)
        else Touched(tagIds, that.tagIds)
    }

    /**
     * `equals(Object o)`: the answer of the comparison chain, with the lists it
     * reaches sorted in place (a list shared between fields or objects is
     * simply sorted again); every list keeps its elements.
     */
    method Equals(o: Obj) returns (r: Result<bool, NullReference>)
      modifies Lists(), ArgLists(o)
      ensures r == EqualsAsWritten(old(Value()), old(ArgOf(o)))
      ensures Tracks(old(Snapshot(o)), old(SortedBy(o)))
    {
      if o.Ref? && o.target == this {
        return Success(true);
      }
      if !o.Ref? {
        return Success(false);
      }
      var that := o.target;
      if authorPersonId != that.authorPersonId { return Success(false); }
      if commentId != that.commentId { return Success(false); }
      if countryId != that.countryId { return Success(false); }
      if length != that.length { return Success(false); }
      if replyToCommentId != that.replyToCommentId { return Success(false); }
      if replyToPostId != that.replyToPostId { return Success(false); }
      if browserUsed != that.browserUsed { return Success(false); }
      if content != that.content { return Success(false); }
      if creationDate != that.creationDate { return Success(false); }
      if locationIp != that.locationIp { return Success(false); }
      ghost var a, b := Value(), that.Value();
      ghost var tagsSpec := CompareIdsAsWritten(a.tagIds, b.tagIds);
      ghost var mentionsSpec := CompareIdsAsWritten(a.mentionedIds, b.mentionedIds);
      ghost var expected := ChainFromLists(tagsSpec, mentionsSpec, FieldsAfterListsMatch(a, b));
      assert EqualsAsWritten(a, OtherComment(b)) == expected;
      assert ArgOf(o) == OtherComment(b);
      ghost var orig := Snapshot(o);
      assert Tracks(orig, {});
      assert a.tagIds == Original(tagIds, orig) && b.tagIds == Original(that.tagIds, orig);
      assert a.mentionedIds == Original(mentionedIds, orig) && b.mentionedIds == Original(that.mentionedIds, orig);
      var tags := CompareIds(tagIds, that.tagIds, orig, {});
      NothingSortedBefore(Touched(tagIds, that.tagIds));
      if tags != Match {
        return if tags == SortOfNull then Failure(NullReference) else Success(false);
      }
      CurrentIdsCompareAsOriginal(mentionedIds, that.mentionedIds, orig, Touched(tagIds, that.tagIds));
      var mentions := CompareIds(mentionedIds, that.mentionedIds, orig, Touched(tagIds, that.tagIds));
      if mentions != Match {
        return if mentions == SortOfNull then Failure(NullReference) else Success(false);
      }
      return Success(privacy == that.privacy && link == that.link && gif == that.gif);
    }

    /**
     * `hashCode()`: starts from the folded `commentId` and applies
     * `result = 31 * result + term` for each later field, in `int` arithmetic.
     * The hashes of the object-valued fields are given as `h`.
     */
    function HashCode(h: FieldHashes): (result: Int32)
      reads Lists()
      ensures result == Wrap32(PolyFold(LongHash(commentId), HashTerms(Value(), h)))
    {
      HashFoldIsWrappedPolynomial(LongHash(commentId), HashTerms(Value(), h));
      Hash(Value(), h)
    }
  }
}
