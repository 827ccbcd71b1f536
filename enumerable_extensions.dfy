/**
 * The sequence utilities of EnumerableExtensions over finite sequences. The
 * members the source writes as loops over counters and enumerators (Repeat,
 * Count, GetRange, both For overloads, AddRange) are methods with those loops,
 * proved against a closed-form description; the ones it writes as single
 * expressions are functions. Invert is the exception: its source is a
 * yielding loop that only maps, and it is modelled as a recursive function.
 */
module EnumerableExtensions {
  import opened Wrappers

  /** C#'s `int`. */
  newtype int32 = x: int | -0x8000_0000 <= x < 0x8000_0000

  /** C#'s `short`. */
  newtype short = x: int | -0x8000 <= x < 0x8000

  /** `i++` on a `short` in an unchecked context: 32767 wraps to -32768. */
  function Increment(i: short): (r: short)
    ensures i < 0x7FFF ==> r as int == i as int + 1
    ensures i == 0x7FFF ==> r == -0x8000
  {
    if i == 0x7FFF then -0x8000 else i + 1
  }

  // ---------------------------------------------------------------- Repeat

  /** `items` written out `repeatCount` times, nothing when `repeatCount <= 0`. */
  function Repeated<T>(items: seq<T>, repeatCount: int): seq<T>
    decreases repeatCount
  {
    if repeatCount <= 0 then [] else Repeated(items, repeatCount - 1) + items
  }

  lemma {:induction false} RepeatedLength<T>(items: seq<T>, repeatCount: int)
    ensures |Repeated(items, repeatCount)| == |items| * Max(0, repeatCount)
    decreases repeatCount
  {
    if repeatCount > 0 {
      RepeatedLength(items, repeatCount - 1);
      assert |items| * repeatCount == |items| * (repeatCount - 1) + |items|;
    }
  }

  /** Copy q of the result (counting from 0) holds the items in order: position p of copy q is items[p]. */
  lemma {:induction false} RepeatedAt<T>(items: seq<T>, repeatCount: int, q: nat, p: nat)
    requires q < repeatCount && p < |items|
    ensures |items| * q + p < |Repeated(items, repeatCount)|
    ensures Repeated(items, repeatCount)[|items| * q + p] == items[p]
    decreases repeatCount
  {
    var n := |items|;
    RepeatedLength(items, repeatCount);
    RepeatedLength(items, repeatCount - 1);
    var before := n * (repeatCount - 1);
    assert n * repeatCount == before + n;
    if q < repeatCount - 1 {
      MulMonotone(n, q + 1, repeatCount - 1);
      assert n * (q + 1) == n * q + n;
      RepeatedAt(items, repeatCount - 1, q, p);
    } else {
      assert n * q + p == before + p;
    }
  }

  lemma {:induction false} MulMonotone(n: nat, a: int, b: int)
    requires a <= b
    ensures n * a <= n * b
    decreases b - a
  {
    if a < b {
      MulMonotone(n, a, b - 1);
      assert n * b == n * (b - 1) + n;
    }
  }

  /** The source's nested loops: `repeatCount` passes over `items`, each yielding every item in order. */
  method Repeat<T>(items: seq<T>, repeatCount: int) returns (r: seq<T>)
    ensures r == Repeated(items, repeatCount)
  {
    r := [];
    var i := 0;
    while i < repeatCount
      invariant repeatCount <= 0 ==> i == 0
      invariant repeatCount > 0 ==> 0 <= i <= repeatCount
      invariant r == Repeated(items, i)
      decreases repeatCount - i
    {
      var pass := [];
      var k := 0;
      while k < |items|
        invariant 0 <= k <= |items|
        invariant pass == items[..k]
      {
        pass := pass + [items[k]];
        k := k + 1;
      }
      assert pass == items;
      r := r + pass;
      i := i + 1;
    }
  }

  // ------------------------------------------------------ GetValueOrDefault

  /** `list[index]` when the index is in range, `defaultValue` (C#'s default(T)) otherwise. */
  function GetValueOrDefault<T>(list: seq<T>, index: int, defaultValue: T): (r: T)
    ensures 0 <= index < |list| ==> r == list[index]
    ensures !(0 <= index < |list|) ==> r == defaultValue
  {
    if index >= 0 && index < |list| then list[index] else defaultValue
  }

  // ----------------------------------------------------------------- Invert

  /** Every boolean negated. */
  function Invert(bools: seq<bool>): (r: seq<bool>)
    ensures |r| == |bools|
    ensures forall i :: 0 <= i < |bools| ==> r[i] == !bools[i]
  {
    if bools == [] then [] else [!bools[0]] + Invert(bools[1..])
  }

  /** Inverting twice gives the input back. */
  lemma InvertInvolutive(bools: seq<bool>)
    ensures Invert(Invert(bools)) == bools
  {
  }

  // ------------------------------------------------------ Enumerate / Count

  /** 0, 1, ..., n - 1. */
  function Naturals(n: nat): (r: seq<int>)
    ensures |r| == n
    ensures forall i :: 0 <= i < n ==> r[i] == i
  {
    if n == 0 then [] else Naturals(n - 1) + [n - 1]
  }

  /**
   * Enumerable.Range(0, val): 0 up to val - 1; a negative count is refused
   * with ArgumentOutOfRangeException when the call is made.
   */
  function Enumerate(val: int32): (r: Result<seq<int>>)
    ensures r.Failure? <==> val < 0
    ensures r.Success? ==> |r.value| == val as int && forall i :: 0 <= i < val as int ==> r.value[i] == i
  {
    if val < 0 then Failure("ArgumentOutOfRangeException") else Success(Naturals(val as int))
  }

  /** Enumerable.Range(0, val).Select(selector). */
  function EnumerateSelect<R>(val: int32, selector: int -> R): (r: Result<seq<R>>)
    ensures r.Failure? <==> val < 0
    ensures r.Success? ==> |r.value| == val as int && forall i :: 0 <= i < val as int ==> r.value[i] == selector(i)
  {
    match Enumerate(val)
    case Failure(e) => Failure(e)
    case Success(ns) => Success(seq(|ns|, i requires 0 <= i < |ns| => selector(ns[i])))
  }

  /**
   * Count(int): a `short` counter from 0 while below `val`. For val > 32767
   * the counter wraps to -32768 before reaching `val` and the loop never
   * ends, so such calls are excluded.
   */
  method CountInt(val: int32) returns (r: seq<short>)
    requires val <= 0x7FFF
    ensures |r| == Max(0, val as int)
    ensures forall j :: 0 <= j < |r| ==> r[j] as int == j
  {
    r := [];
    var i: short := 0;
    while (i as int) < (val as int)
      invariant 0 <= i as int <= Max(0, val as int)
      invariant |r| == i as int
      invariant forall j :: 0 <= j < |r| ==> r[j] as int == j
      decreases val as int - i as int
    {
      r := r + [i];
      i := Increment(i);
    }
  }

  /** Count(short): as CountInt, and every `short` bound is reachable. */
  method CountShort(val: short) returns (r: seq<short>)
    ensures |r| == Max(0, val as int)
    ensures forall j :: 0 <= j < |r| ==> r[j] as int == j
  {
    r := [];
    var i: short := 0;
    while i < val
      invariant 0 <= i as int <= Max(0, val as int)
      invariant |r| == i as int
      invariant forall j :: 0 <= j < |r| ==> r[j] as int == j
      decreases val as int - i as int
    {
      r := r + [i];
      i := Increment(i);
    }
  }

  /** Count and Enumerate agree on every count both accept. */
  lemma CountIsEnumerate(val: int32, counted: seq<short>)
    requires 0 <= val
    requires |counted| == val as int && forall j :: 0 <= j < |counted| ==> counted[j] as int == j
    ensures Enumerate(val) == Success(seq(|counted|, j requires 0 <= j < |counted| => counted[j] as int))
  {
    var ns := seq(|counted|, j requires 0 <= j < |counted| => counted[j] as int);
    assert Enumerate(val).value == ns;
  }

  // --------------------------------------------------------------- GetRange

  /**
   * The part of `source` from position `start` up to (not including) `end`,
   * both clamped to the sequence; empty when `end` does not exceed the
   * clamped start.
   */
  function Window<T>(source: seq<T>, start: int, end: int): (r: seq<T>)
  {
    var n := |source|;
    var s := Min(Max(start, 0), n);
    source[s .. Max(s, Min(end, n))]
  }

  lemma WindowProperties<T>(source: seq<T>, start: int, end: int)
    ensures end <= start ==> Window(source, start, end) == []
    ensures 0 <= start <= end <= |source| ==> Window(source, start, end) == source[start..end]
    ensures |Window(source, start, end)| <= |source|
    ensures var s := Min(Max(start, 0), |source|);
      forall j :: 0 <= j < |Window(source, start, end)| ==> Window(source, start, end)[j] == source[s + j]
  {
  }

  /** GetValueOrDefault of an in-range index is the one-element window at that index. */
  lemma GetValueOrDefaultIsWindow<T>(list: seq<T>, index: int, defaultValue: T)
    requires 0 <= index < |list|
    ensures Window(list, index, index + 1) == [GetValueOrDefault(list, index, defaultValue)]
  {
  }

  /**
   * The source's two loops over one enumerator: skip while below `start`,
   * then yield while below `end`; each loop ends early once MoveNext finds the
   * sequence exhausted. `consumed` is how many items the enumerator has moved
   * past.
   */
  method GetRange<T>(source: seq<T>, start: int, end: int) returns (r: seq<T>)
    ensures r == Window(source, start, end)
  {
    var i := 0;
    var consumed := 0;
    while i < start
      invariant 0 <= i == consumed <= |source|
      invariant i <= Max(start, 0)
      decreases start - i
    {
      var moved := consumed < |source|;
      if !moved {
        break;
      }
      consumed := consumed + 1;
      i := i + 1;
    }
    ghost var s := i;
    assert s == Min(Max(start, 0), |source|);
    r := [];
    while i < end
      invariant s <= i == consumed <= |source|
      invariant i <= Max(s, end)
      invariant r == source[s..i]
      decreases end - i
    {
      var moved := consumed < |source|;
      if !moved {
        break;
      }
      consumed := consumed + 1;
      r := r + [source[consumed - 1]];
      i := i + 1;
    }
  }

  // -------------------------------------------------------------------- For

  /** One call of the action of For(items, (item, i, isLast) => ...). */
  datatype ForCall<T> = ForCall(item: T, index: int, isLast: bool)

  /** One call of the action of For(items, (item, i) => ...). */
  datatype IndexedCall<T> = IndexedCall(item: T, index: int)

  /**
   * For with the isLast flag, as the calls it makes: the enumerator is read
   * one item ahead, so each call knows whether another item follows. A null
   * `items` (None) makes no call.
   */
  method For<T>(items: Option<seq<T>>) returns (calls: seq<ForCall<T>>)
    ensures items.None? ==> calls == []
    ensures items.Some? ==> |calls| == |items.value|
    ensures items.Some? ==> forall k :: 0 <= k < |calls| ==>
      calls[k] == ForCall(items.value[k], k, k == |items.value| - 1)
  {
    calls := [];
    if items.None? {
      return;
    }
    var xs := items.value;
    var consumed := 0;
    var i := 0;
    var hasMore := consumed < |xs|;
    if hasMore {
      consumed := consumed + 1;
    }
    if !hasMore {
      return;
    }
    while true
      invariant 1 <= consumed <= |xs| && consumed == i + 1
      invariant |calls| == i
      invariant forall k :: 0 <= k < i ==> calls[k] == ForCall(xs[k], k, k == |xs| - 1)
      decreases |xs| - consumed
    {
      var t := xs[consumed - 1];
      var hasNext := consumed < |xs|;
      if hasNext {
        consumed := consumed + 1;
      }
      calls := calls + [ForCall(t, i, !hasNext)];
      if !hasNext {
        return;
      }
      i := i + 1;
    }
  }

  /** For without the isLast flag: a foreach with a counter. A null `items` makes no call. */
  method ForIndexed<T>(items: Option<seq<T>>) returns (calls: seq<IndexedCall<T>>)
    ensures items.None? ==> calls == []
    ensures items.Some? ==> |calls| == |items.value|
    ensures items.Some? ==> forall k :: 0 <= k < |calls| ==> calls[k] == IndexedCall(items.value[k], k)
  {
    calls := [];
    if items.None? {
      return;
    }
    var i := 0;
    for n := 0 to |items.value|
      invariant i == n && |calls| == n
      invariant forall k :: 0 <= k < n ==> calls[k] == IndexedCall(items.value[k], k)
    {
      calls := calls + [IndexedCall(items.value[n], i)];
      i := i + 1;
    }
  }

  // -------------------------------------------------------------------- Zip

  /** Enumerable.Zip: pairs up positions until the shorter input ends. */
  function Zip<A, B, C>(first: seq<A>, second: seq<B>, resultSelector: (A, B) -> C): (r: seq<C>)
    ensures |r| == Min(|first|, |second|)
    ensures forall i :: 0 <= i < |r| ==> r[i] == resultSelector(first[i], second[i])
  {
    if first == [] || second == [] then []
    else [resultSelector(first[0], second[0])] + Zip(first[1..], second[1..], resultSelector)
  }

  /** The three-way Zip, built as the source builds it: a Zip into pairs, then a Zip with the third input. */
  function Zip3<T, R>(source: seq<T>, zip1: seq<T>, zip2: seq<T>, func: (T, T, T) -> R): (r: seq<R>)
    ensures |r| == Min(|source|, Min(|zip1|, |zip2|))
    ensures forall i :: 0 <= i < |r| ==> r[i] == func(source[i], zip1[i], zip2[i])
  {
    var pairs := Zip(source, zip1, (a: T, b: T) => (a, b));
    Zip(pairs, zip2, (z: (T, T), z1: T) => func(z.0, z.1, z1))
  }

  // --------------------------------------------------------------- AddRange

  /** An IList<T> the caller owns. */
  class ListOf<T> {
    var elements: seq<T>

    constructor (elements: seq<T>)
      ensures this.elements == elements
    {
      this.elements := elements;
    }

    /** IList.Add: appends at the end. */
    method Add(item: T)
      modifies this
      ensures elements == old(elements) + [item]
    {
      elements := elements + [item];
    }
  }

  /** AddRange on an IList: Add for each item, in order; the existing items stay in front, unchanged. */
  method AddRange<T>(coll: ListOf<T>, enumerable: seq<T>)
    modifies coll
    ensures coll.elements == old(coll.elements) + enumerable
  {
    for n := 0 to |enumerable|
      invariant coll.elements == old(coll.elements) + enumerable[..n]
    {
      coll.Add(enumerable[n]);
      assert enumerable[..n + 1] == enumerable[..n] + [enumerable[n]];
    }
    assert enumerable[..|enumerable|] == enumerable;
  }
}
