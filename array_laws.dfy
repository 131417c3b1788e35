/**
 * Properties of the array protocol stated over its specification predicates:
 * what a successful index definition leaves behind, when the length-covers
 * invariant (`LengthCovers`: `length` exceeds every occupied index) is kept, the shrink examples, the
 * invalid-length rejections and the enumeration order.
 */
module ArrayLaws {

  import opened Options
  import opened ArrayIndex
  import opened ObjectModel
  import opened Arrays

  /**
   * A successful index definition stores the property the generic define
   * accepted, with every requested field, and leaves `length` above the index;
   * a failed one changes nothing.
   */
  lemma IndexDefineStores(s0: ArrayState, index: nat, desc: Descriptor, throwOnError: bool, s1: ArrayState, r: Completion)
    requires IndexDefined(s0, index, desc, throwOnError, s1, r)
    ensures r == Normal(true) || (r == Refuse(throwOnError) && s1 == s0)
    ensures r == Normal(true) ==>
      && index in s1.elements && s1.len > index && s1.lenWritable == s0.lenWritable
      && (desc.value.Some? ==> s1.elements[index].value == desc.value)
      && (desc.writable.Set? ==> s1.elements[index].writable == desc.writable)
      && (desc.enumerable.Set? ==> s1.elements[index].enumerable == desc.enumerable)
      && (desc.configurable.Set? ==> s1.elements[index].configurable == desc.configurable)
      && (forall k :: k in s0.elements && k != index ==> k in s1.elements && s1.elements[k] == s0.elements[k])
      && s1.props == s0.props
    ensures index >= s0.len && !s0.lenWritable ==> r == Refuse(throwOnError) && s1 == s0
  {
    if r == Normal(true) && !(index >= s0.len && !s0.lenWritable) {
      BaseDefineStoresRequest(Lookup(s0.elements, index), desc, s0.extensible);
    }
  }

  /** The occupied-only shrink strategies, taken when fewer elements are occupied than the range holds. */
  ghost predicate OccupiedOnlyShrink(s0: ArrayState, desc: Descriptor) {
    && desc.value.Some? && ExactLength(desc.value.value).Some?
    && ExactLength(desc.value.value).value < s0.len
    && |s0.elements| < s0.len - ExactLength(desc.value.value).value
  }

  /**
   * Every definition keeps the length-covers invariant, except one that is refused during a
   * shrink by an occupied-only strategy (see AscendingLeavesStragglers).
   */
  lemma DefineKeepsLengthCovers(s0: ArrayState, p: string, desc: Descriptor, throwOnError: bool, s1: ArrayState, r: Completion)
    requires LengthCovers(s0) && Defined(s0, p, desc, throwOnError, s1, r)
    requires p == "length" && r != Normal(true) ==> !OccupiedOnlyShrink(s0, desc)
    ensures LengthCovers(s1)
  {
    if p == "length" && desc.value.Some? && ExactLength(desc.value.value).Some? {
      var newLen := ExactLength(desc.value.value).value;
      if newLen < s0.len && s0.lenWritable && DefineLength(s0.len, true, ForceWritable(desc)).Some?
         && !NoneBlocked(s0.elements, newLen, s0.len) {
        forall k | k in s1.elements
          ensures k < s1.len
        {
          assert !(s1.len <= k < s0.len);
        }
      }
    }
  }

  /**
   * The ascending dense shrink, refused at index 5 while index 7 is occupied,
   * leaves `length` at 6 with index 7 still present, so the length-covers invariant fails.
   */
  lemma AscendingLeavesStragglers(s1: ArrayState, r: Completion)
    requires var e0 := map[5 := DataProperty(Integer(5), true, true, false), 7 := DefaultData(Integer(7))];
      LengthDefined(ArrayState(e0, 100, true, map[], true, true), ValueOnly(Integer(0)), false, s1, r)
    ensures r == Normal(false) && s1.len == 6 && 7 in s1.elements && !LengthCovers(s1)
  {
    var e0 := map[5 := DataProperty(Integer(5), true, true, false), 7 := DefaultData(Integer(7))];
    assert Blocked(e0, 5);
    assert !NoneBlocked(e0, 0, 100);
    assert |e0| == 2 by {
      assert e0.Keys == {5, 7};
    }
    var k := s1.len - 1;
    assert Blocked(e0, k);
    assert k == 5;
  }

  /** With the length-covers invariant in force, HasOwnProperty and GetOwnProperty agree on every name. */
  lemma HasOwnAgreesWithGetOwn(s: ArrayState, p: string)
    requires LengthCovers(s)
    ensures HasOwn(s, p) <==> OwnPropertyOf(s, p).Some?
  {
  }

  /** Length values that are not exact unsigned 32-bit integers are rejected with RangeError, changing nothing. */
  lemma InvalidLengthRejected(s0: ArrayState, v: Value, throwOnError: bool, s1: ArrayState, r: Completion)
    requires v == Integer(-1) || v == Integer(0x1_0000_0000) || v.Other?
    requires LengthDefined(s0, ValueOnly(v), throwOnError, s1, r)
    ensures r == Throw(RangeError) && s1 == s0
  {
  }

  /** The elements [0, 6) with every property a default data property, except index 3 when `lock3` holds. */
  function SixElements(lock3: bool): (m: map<nat, Descriptor>)
    ensures m.Keys == {0, 1, 2, 3, 4, 5}
    ensures forall k :: k in m ==> (Configurable(m[k]) <==> !(lock3 && k == 3))
  {
    map k: nat | k < 6 :: if lock3 && k == 3 then DataProperty(Integer(k), true, true, false) else DefaultData(Integer(k))
  }

  /** Shrinking [0, 6) of configurable elements to length 2 leaves {0, 1} and succeeds. */
  lemma ShrinkExample(s1: ArrayState, r: Completion)
    requires LengthDefined(ArrayState(SixElements(false), 6, true, map[], true, true), ValueOnly(Integer(2)), false, s1, r)
    ensures r == Normal(true) && s1.len == 2 && s1.elements.Keys == {0, 1}
  {
    assert NoneBlocked(SixElements(false), 2, 6);
  }

  /**
   * With index 3 non-configurable, shrinking to 0 deletes 5 and 4 top-down,
   * stops at 3, and leaves length 4 with {0, 1, 2, 3}; the call reports failure.
   */
  lemma ShrinkPartialFailureExample(s1: ArrayState, r: Completion)
    requires LengthDefined(ArrayState(SixElements(true), 6, true, map[], true, true), ValueOnly(Integer(0)), false, s1, r)
    ensures r == Normal(false) && s1.len == 4 && s1.elements.Keys == {0, 1, 2, 3}
  {
    var e0 := SixElements(true);
    assert Blocked(e0, 3);
    assert !NoneBlocked(e0, 0, 6);
    assert |e0| == 6 by {
      assert |e0.Keys| == |{0, 1, 2, 3, 4, 5}|;
    }
    var k := s1.len - 1;
    assert Blocked(e0, k);
    assert k == 3;
  }

  /**
   * When the occupied indices are exactly [0, n), an ascending listing is
   * 0, 1, ..., n - 1 named "0", "1", ....
   */
  lemma {:induction false} AscendingListingOfPrefix(m: map<nat, Descriptor>, n: nat, order: seq<nat>,
                                                    entries: seq<(string, Descriptor)>)
    requires forall k: nat :: k in m <==> k < n
    requires ListsElements(m, order, entries)
    requires forall j, l :: 0 <= j < l < |order| ==> order[j] < order[l]
    ensures |order| == n
    ensures forall j :: 0 <= j < n ==> order[j] == j && entries[j].0 == DecimalString(j)
  {
    forall j | 0 <= j < |order|
      ensures order[j] == j
    {
      OrderIsPosition(m, n, order, j);
    }
    if n > 0 {
      assert n - 1 in m;
      var l :| 0 <= l < |order| && order[l] == n - 1;
      assert l == n - 1;
    }
    if |order| > 0 {
      assert order[|order| - 1] in m;
    }
  }

  lemma {:induction false} OrderIsPosition(m: map<nat, Descriptor>, n: nat, order: seq<nat>, j: nat)
    requires forall k: nat :: k in m <==> k < n
    requires forall k :: k in m ==> k in order
    requires forall i :: 0 <= i < |order| ==> order[i] in m
    requires forall i, l :: 0 <= i < l < |order| ==> order[i] < order[l]
    requires j < |order|
    ensures order[j] == j
    decreases j
  {
    if j > 0 {
      OrderIsPosition(m, n, order, j - 1);
    }
    // order[j] > order[j - 1] == j - 1, so order[j] >= j; if it exceeded j,
    // the occupied index j would have nowhere to sit in the listing.
    if order[j] > j {
      assert j in m;
      var l :| 0 <= l < |order| && order[l] == j;
      if l < j {
        OrderIsPosition(m, n, order, l);
      }
    }
  }

  /**
   * The enumeration of [10, 20, 30] with an extra property "foo": the index
   * names "0", "1", "2" come first, in that order.
   */
  lemma EnumerationOrderExample(order: seq<nat>, entries: seq<(string, Descriptor)>)
    requires var m := map[0 := DefaultData(Integer(10)), 1 := DefaultData(Integer(20)), 2 := DefaultData(Integer(30))];
      && |order| <= |entries|
      && ListsElements(m, order, entries[..|order|])
      && ListsBase(ArrayState(m, 3, true, map["foo" := DefaultData(Integer(0))], true, true), entries[|order|..])
      && (forall j, l :: 0 <= j < l < |order| ==> order[j] < order[l])
    ensures |entries| >= 4 && entries[0].0 == "0" && entries[1].0 == "1" && entries[2].0 == "2"
    ensures exists j :: 3 <= j < |entries| && entries[j].0 == "foo"
  {
    var m := map[0 := DefaultData(Integer(10)), 1 := DefaultData(Integer(20)), 2 := DefaultData(Integer(30))];
    assert forall k: nat :: k in m <==> k < 3 by {
      assert m.Keys == {0, 1, 2};
    }
    AscendingListingOfPrefix(m, 3, order, entries[..|order|]);
    var base := entries[|order|..];
    assert "foo" in ArrayState(m, 3, true, map["foo" := DefaultData(Integer(0))], true, true).props;
    var j :| 0 <= j < |base| && base[j].0 == "foo";
    assert entries[j + 3].0 == "foo";
    var l :| 0 <= l < |base| && base[l].0 == "length";
    assert j != l;
  }

  /**
   * Assigning to an absent index of an extensible array with a writable
   * `length`, with nothing inherited under that name, creates a default data
   * property there and raises `length` past it.
   */
  lemma PutCreatesIndex(s0: ArrayState, k: nat, v: Value, throwOnError: bool, s1: ArrayState, r: Completion,
                        setter: Option<Value>)
    requires k < NotAnIndex && k !in s0.elements && s0.extensible && s0.lenWritable
    requires PutDone(s0, DecimalString(k), v, throwOnError, None, s1, r, setter)
    ensures r == Normal(true) && setter.None?
    ensures s1.elements == s0.elements[k := DefaultData(v)]
    ensures s1.len == if k >= s0.len then k + 1 else s0.len
  {
    IndexRoundTrip(k, "");
  }

  /**
   * Assigning to an own writable data property at an index replaces its value
   * and keeps its other attributes.
   */
  lemma PutReplacesValue(s0: ArrayState, k: nat, v: Value, throwOnError: bool, inherited: Option<Descriptor>,
                         s1: ArrayState, r: Completion, setter: Option<Value>)
    requires k < NotAnIndex && k in s0.elements && IsData(s0.elements[k]) && !IsAccessor(s0.elements[k])
    requires s0.elements[k].writable == Set(true) && LengthCovers(s0)
    requires PutDone(s0, DecimalString(k), v, throwOnError, inherited, s1, r, setter)
    ensures r == Normal(true) && setter.None? && s1.len == s0.len
    ensures s1.elements == s0.elements[k := s0.elements[k].(value := Some(v))]
  {
    IndexRoundTrip(k, "");
    var c := s0.elements[k];
    assert BaseDefine(Some(c), ValueOnly(v), s0.extensible) == Some(c.(value := Some(v)));
  }

  /** An assignment the own or inherited property refuses changes nothing. */
  lemma PutRefused(s0: ArrayState, p: string, v: Value, throwOnError: bool, inherited: Option<Descriptor>,
                   s1: ArrayState, r: Completion, setter: Option<Value>)
    requires !CanPut(OwnPropertyOf(s0, p), inherited, s0.extensible)
    requires PutDone(s0, p, v, throwOnError, inherited, s1, r, setter)
    ensures r == Refuse(throwOnError) && s1 == s0 && setter.None?
  {
  }

  /**
   * The storage round trip: after a write at `index`, reading `index` gives
   * the stored property and reading any other index gives what it held
   * before, whichever representation was live before or after the write.
   */
  method WriteThenRead(a: ArrayInstance, index: nat, desc: Descriptor, other: nat)
    returns (r: Option<Descriptor>, s: Option<Descriptor>)
    requires a.Valid() && index < Uint32Bound && other != index
    modifies a, a.dense
    ensures a.Valid()
    ensures r == Some(desc)
    ensures s == Lookup(old(a.Elements()), other)
  {
    a.WriteArrayValue(index, desc);
    r := a.TryGetDescriptor(index);
    s := a.TryGetDescriptor(other);
  }

  /**
   * HasOwnProperty as written reads past the dense buffer: a fresh array of
   * capacity 0 whose `length` is then set to 5 has no slot for index 0, yet
   * 0 < length.
   */
  method HasOwnPropertyOverrun() returns (r: Option<bool>)
    ensures r == None
  {
    var a := new ArrayInstance(0);
    var c := a.DefineOwnProperty("length", ValueOnly(Integer(5)), false);
    assert !IsArrayIndex("length");
    assert a.lengthValue == 5 && a.dense != null && a.dense.Length == 0;
    r := a.HasIndexAsWritten(0);
  }
}
