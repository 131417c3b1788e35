/**
 * The array exotic object: a hybrid dense/sparse element store keyed by array
 * index, and the property protocol of section 15.4.5 of ECMA-262 5.1 layered
 * over it and over the generic object protocol of module ObjectModel.
 */
module Arrays {

  import opened Options
  import opened ArrayIndex
  import opened ObjectModel

  /** Dense storage is used only for indices and capacities below this bound. */
  const MaxDenseArrayLength: nat := 1024 * 10

  /** The properties a dense slot array holds: one per occupied slot. */
  function DenseMap(s: seq<Option<Descriptor>>): (m: map<nat, Descriptor>)
    ensures forall i: nat :: i in m <==> i < |s| && s[i].Some?
    ensures forall i :: i in m ==> m[i] == s[i].value
  {
    map i: nat | i < |s| && s[i].Some? :: s[i].value
  }

  lemma DenseMapSnoc(s: seq<Option<Descriptor>>, x: Option<Descriptor>)
    ensures DenseMap(s + [x]) == if x.Some? then DenseMap(s)[|s| := x.value] else DenseMap(s)
  {
    var t := s + [x];
    assert forall i: nat :: i < |s| ==> t[i] == s[i];
  }

  /** Clearing or setting one slot removes or replaces that one entry. */
  lemma DenseMapUpdate(s: seq<Option<Descriptor>>, i: nat, x: Option<Descriptor>)
    requires i < |s|
    ensures DenseMap(s[i := x]) == if x.Some? then DenseMap(s)[i := x.value] else DenseMap(s) - {i}
  {
  }

  /** Trailing empty slots add no entries. */
  lemma DenseMapPadded(s: seq<Option<Descriptor>>, t: seq<Option<Descriptor>>)
    requires |s| <= |t| && t[..|s|] == s
    requires forall j :: |s| <= j < |t| ==> t[j].None?
    ensures DenseMap(t) == DenseMap(s)
  {
    assert forall j: nat :: j < |s| ==> t[j] == s[j];
  }

  /** The dense capacity wanted for a write at `index` past a buffer of `len` slots. */
  function NewSize(index: nat, len: nat): (n: nat)
    ensures n > index && n >= 2 * len && n >= 4
  {
    var m := if len > 2 then len else 2;
    (if index > m then index else m) * 2
  }

  /** The capacity a write computes eagerly: NewSize when the index does not fit, else 0. */
  function WantedSize(index: nat, len: nat): nat {
    if index >= len then NewSize(index, len) else 0
  }

  /** A write keeps dense storage only for a small index, a small buffer and a small gap. */
  predicate CanUseDense(len: nat, index: nat) {
    index < MaxDenseArrayLength && WantedSize(index, len) < MaxDenseArrayLength && index < len + 50
  }

  /** The entries of `m` outside [lo, hi). */
  function RemoveRange(m: map<nat, Descriptor>, lo: nat, hi: nat): (r: map<nat, Descriptor>)
    ensures forall k :: k in r <==> k in m && !(lo <= k < hi)
    ensures forall k :: k in r ==> r[k] == m[k]
  {
    map k | k in m && !(lo <= k < hi) :: m[k]
  }

  /** An occupied index whose property refuses deletion. */
  predicate Blocked(m: map<nat, Descriptor>, k: nat) {
    k in m && !Configurable(m[k])
  }

  /** No occupied index in [lo, hi) refuses deletion. */
  ghost predicate NoneBlocked(m: map<nat, Descriptor>, lo: nat, hi: nat) {
    forall k :: lo <= k < hi ==> !Blocked(m, k)
  }

  /**
   * A shrink of [lo, hi) that stopped at the blocked index k: what is left is
   * part of what was there, and only deletable indices of the range are gone.
   */
  ghost predicate PartiallyShrunk(m0: map<nat, Descriptor>, m1: map<nat, Descriptor>, lo: nat, hi: nat, k: nat) {
    && lo <= k < hi && Blocked(m0, k)
    && (forall j :: j in m1 ==> j in m0 && m1[j] == m0[j])
    && (forall j :: j in m0 && j !in m1 ==> lo <= j < hi && !Blocked(m0, j))
  }

  /** The observable state of an array: its elements, its `length` and its generic properties. */
  datatype ArrayState = ArrayState(
    elements: map<nat, Descriptor>,
    len: nat,
    lenWritable: bool,
    props: map<string, Descriptor>,
    extensible: bool,
    isDense: bool)

  /** [[GetOwnProperty]]: elements for index names, the length descriptor, else the generic table. */
  function OwnPropertyOf(s: ArrayState, p: string): Option<Descriptor> {
    if IsArrayIndex(p) then Lookup(s.elements, IndexOf(p))
    else if p == "length" then Some(LengthDescriptor(s.len, s.lenWritable))
    else Lookup(s.props, p)
  }

  /** [[HasOwnProperty]] of an array: an index counts only below `length`. */
  function HasOwn(s: ArrayState, p: string): bool {
    if IsArrayIndex(p) then IndexOf(p) < s.len && IndexOf(p) in s.elements
    else OwnPropertyOf(s, p).Some?
  }

  /** The length-covers invariant of an array: every occupied index lies below `length`. */
  ghost predicate LengthCovers(s: ArrayState) {
    forall k :: k in s.elements ==> k < s.len
  }

  /** The state after the own property `p` is removed. */
  function Removed(s: ArrayState, p: string): ArrayState {
    s.(elements := if IsArrayIndex(p) then s.elements - {IndexOf(p)} else s.elements,
       props := s.props - {p})
  }

  /** A state whose length pair is replaced. */
  function WithLength(s: ArrayState, n: nat, w: bool): ArrayState {
    s.(len := n, lenWritable := w)
  }

  /** The generic define applied to `length`, with its refusal reported per `throwOnError`. */
  ghost predicate LengthBaseDefined(s0: ArrayState, desc: Descriptor, throwOnError: bool, s1: ArrayState, r: Completion)
    requires desc.value.None? || (desc.value.value.Integer? && desc.value.value.i >= 0)
  {
    match DefineLength(s0.len, s0.lenWritable, desc)
    case None => r == Refuse(throwOnError) && s1 == s0
    case Some((n, w)) => r == Normal(true) && s1 == WithLength(s0, n, w)
  }

  /** The request handed to the generic define during a shrink: `length` kept writable. */
  function ForceWritable(desc: Descriptor): Descriptor {
    if desc.writable == Set(false) then desc.(writable := Set(true)) else desc
  }

  /**
   * What deleting [newLen, oldLen) did to elements e0, giving e1: `failed`
   * is the index that refused, if any. The two clauses on the strategy say
   * which indices around the refusal are gone.
   */
  ghost predicate RangeDeleted(e0: map<nat, Descriptor>, e1: map<nat, Descriptor>, newLen: nat, oldLen: nat,
                               isDense: bool, failed: Option<nat>) {
    && (failed.None? ==> NoneBlocked(e0, newLen, oldLen) && e1 == RemoveRange(e0, newLen, oldLen))
    && (failed.Some? ==>
          && PartiallyShrunk(e0, e1, newLen, oldLen, failed.value)
          && (|e0| >= oldLen - newLen ==>
                e1 == RemoveRange(e0, failed.value + 1, oldLen) && NoneBlocked(e0, failed.value + 1, oldLen))
          && (|e0| < oldLen - newLen && isDense ==>
                e1 == RemoveRange(e0, newLen, failed.value) && NoneBlocked(e0, newLen, failed.value)))
  }

  /** A top-down deletion that stops at k + 1 is a partial shrink of the whole range. */
  lemma TopDownIsPartial(e0: map<nat, Descriptor>, newLen: nat, oldLen: nat, k: nat)
    requires newLen <= k < oldLen && Blocked(e0, k) && NoneBlocked(e0, k + 1, oldLen)
    ensures PartiallyShrunk(e0, RemoveRange(e0, k + 1, oldLen), newLen, oldLen, k)
  {
  }

  /** An ascending deletion that stops at k is a partial shrink of the whole range. */
  lemma AscendingIsPartial(e0: map<nat, Descriptor>, newLen: nat, oldLen: nat, k: nat)
    requires newLen <= k < oldLen && Blocked(e0, k) && NoneBlocked(e0, newLen, k)
    ensures PartiallyShrunk(e0, RemoveRange(e0, newLen, k), newLen, oldLen, k)
  {
  }

  /**
   * The shrink of section 15.4.5.1 steps 3.j-m from `length` s0.len down to
   * newLen: it succeeds iff no index in the range refuses deletion; a
   * refusal at k leaves `length` = k + 1. Either way `length` ends with the
   * requested writability. The top-down strategy (taken when the occupied
   * count is not below the range's size) removes everything in
   * [k + 1, s0.len); the ascending dense strategy removes [newLen, k) instead.
   */
  ghost predicate Shrunk(s0: ArrayState, newLen: nat, newWritable: bool, throwOnError: bool, s1: ArrayState, r: Completion) {
    var e0, e1, oldLen := s0.elements, s1.elements, s0.len;
    && s1 == s0.(elements := e1, len := s1.len, lenWritable := newWritable)
    && if NoneBlocked(e0, newLen, oldLen) then
         r == Normal(true) && s1.len == newLen && e1 == RemoveRange(e0, newLen, oldLen)
       else
         && r == Refuse(throwOnError)
         && s1.len > 0 && PartiallyShrunk(e0, e1, newLen, oldLen, s1.len - 1)
         && (|e0| >= oldLen - newLen ==>
               e1 == RemoveRange(e0, s1.len, oldLen) && NoneBlocked(e0, s1.len, oldLen))
         && (|e0| < oldLen - newLen && s0.isDense ==>
               e1 == RemoveRange(e0, newLen, s1.len - 1) && NoneBlocked(e0, newLen, s1.len - 1))
  }

  /** The shrink outcome follows from the range deletion and the final `length` update. */
  lemma ShrunkFromDeleted(s0: ArrayState, newLen: nat, newWritable: bool, throwOnError: bool,
                          s1: ArrayState, r: Completion, failed: Option<nat>)
    requires RangeDeleted(s0.elements, s1.elements, newLen, s0.len, s0.isDense, failed)
    requires s1 == s0.(elements := s1.elements, len := s1.len, lenWritable := newWritable)
    requires s1.len == if failed.Some? then failed.value + 1 else newLen
    requires r == if failed.Some? then Refuse(throwOnError) else Normal(true)
    ensures Shrunk(s0, newLen, newWritable, throwOnError, s1, r)
  {
    if failed.Some? {
      assert !NoneBlocked(s0.elements, newLen, s0.len);
    }
  }

  /**
   * Section 15.4.5.1 step 3 as the source implements it: what defining
   * `length` with `desc` does to state s0, giving s1 and completion r.
   */
  ghost predicate LengthDefined(s0: ArrayState, desc: Descriptor, throwOnError: bool, s1: ArrayState, r: Completion) {
    if desc.value.None? then
      LengthBaseDefined(s0, desc, throwOnError, s1, r)
    else if ExactLength(desc.value.value).None? then
      r == Throw(RangeError) && s1 == s0
    else
      var newLen := ExactLength(desc.value.value).value;
      var oldLen := s0.len;
      if newLen >= oldLen then
        LengthBaseDefined(s0, desc, throwOnError, s1, r)
      else if !s0.lenWritable || DefineLength(oldLen, true, ForceWritable(desc)).None? then
        r == Refuse(throwOnError) && s1 == s0
      else
        Shrunk(s0, newLen, desc.writable != Set(false), throwOnError, s1, r)
  }

  /** Section 15.4.5.1 step 4: defining the array index `index` with `desc`. */
  ghost predicate IndexDefined(s0: ArrayState, index: nat, desc: Descriptor, throwOnError: bool, s1: ArrayState, r: Completion) {
    if index >= s0.len && !s0.lenWritable then
      r == Refuse(throwOnError) && s1 == s0
    else
      match BaseDefine(Lookup(s0.elements, index), desc, s0.extensible)
      case None => r == Refuse(throwOnError) && s1 == s0
      case Some(d) =>
        r == Normal(true) &&
        s1 == s0.(elements := s0.elements[index := d], len := if index >= s0.len then index + 1 else s0.len,
                  isDense := s1.isDense)
  }

  /** Section 15.4.5.1 step 5: any other key goes to the generic define. */
  ghost predicate GenericDefined(s0: ArrayState, p: string, desc: Descriptor, throwOnError: bool, s1: ArrayState, r: Completion) {
    match BaseDefine(Lookup(s0.props, p), desc, s0.extensible)
    case None => r == Refuse(throwOnError) && s1 == s0
    case Some(d) => r == Normal(true) && s1 == s0.(props := s0.props[p := d])
  }

  /** The array [[DefineOwnProperty]] of section 15.4.5.1, dispatched on the key. */
  ghost predicate Defined(s0: ArrayState, p: string, desc: Descriptor, throwOnError: bool, s1: ArrayState, r: Completion) {
    if p == "length" then LengthDefined(s0, desc, throwOnError, s1, r)
    else if IsArrayIndex(p) then IndexDefined(s0, IndexOf(p), desc, throwOnError, s1, r)
    else GenericDefined(s0, p, desc, throwOnError, s1, r)
  }

  /**
   * [[Put]] of section 8.12.5 for an array: `inherited` is what the
   * prototype chain holds under `p`; `setter` is the setter the caller must
   * invoke with the array as receiver, when the assignment resolves to one.
   */
  ghost predicate PutDone(s0: ArrayState, p: string, v: Value, throwOnError: bool, inherited: Option<Descriptor>,
                          s1: ArrayState, r: Completion, setter: Option<Value>) {
    var own := OwnPropertyOf(s0, p);
    if !CanPut(own, inherited, s0.extensible) then
      r == Refuse(throwOnError) && s1 == s0 && setter.None?
    else if own.Some? && IsData(own.value) then
      setter.None? && Defined(s0, p, ValueOnly(v), throwOnError, s1, r)
    else
      var found := if own.Some? then own else inherited;
      if found.Some? && IsAccessor(found.value) then
        setter == Some(found.value.setter.GetOr(Undefined)) && s1 == s0 && r == Normal(true)
      else
        setter.None? && Defined(s0, p, DefaultData(v), throwOnError, s1, r)
  }

  /** Copies a set's elements into a sequence, each exactly once, in an unspecified order. */
  method Snapshot<K>(s: set<K>) returns (keys: seq<K>)
    ensures forall k :: k in keys <==> k in s
    ensures forall i, j :: 0 <= i < j < |keys| ==> keys[i] != keys[j]
  {
    keys := [];
    var rest := s;
    while rest != {}
      invariant rest <= s
      invariant forall k :: k in keys <==> k in s && k !in rest
      invariant forall i, j :: 0 <= i < j < |keys| ==> keys[i] != keys[j]
      decreases rest
    {
      var k :| k in rest;
      keys := keys + [k];
      rest := rest - {k};
    }
  }

  /** Copies every occupied dense slot into a new sparse map (the dense-to-sparse conversion). */
  method CopyToSparse(slots: array<Option<Descriptor>>) returns (moved: map<nat, Descriptor>)
    ensures moved == DenseMap(slots[..])
  {
    moved := map[];
    var i := 0;
    while i < slots.Length
      invariant 0 <= i <= slots.Length
      invariant moved == DenseMap(slots[..i])
    {
      assert slots[..i + 1] == slots[..i] + [slots[i]];
      DenseMapSnoc(slots[..i], slots[i]);
      if slots[i].Some? {
        moved := moved[i := slots[i].value];
      }
      i := i + 1;
    }
    assert slots[..i] == slots[..];
  }

  /** The element entries of an enumeration: each key of `order` once, with its text and its property. */
  ghost predicate ListsElements(m: map<nat, Descriptor>, order: seq<nat>, entries: seq<(string, Descriptor)>) {
    && |entries| == |order|
    && (forall j :: 0 <= j < |order| ==> order[j] in m && entries[j] == (DecimalString(order[j]), m[order[j]]))
    && (forall j, l :: 0 <= j < l < |order| ==> order[j] != order[l])
    && (forall k :: k in m ==> k in order)
  }

  /** The descriptor the generic protocol holds under a non-index key of `s`. */
  function BaseProperty(s: ArrayState, p: string): (d: Descriptor)
    requires p == "length" || p in s.props
    ensures OwnPropertyOf(s, p) == Some(d) || IsArrayIndex(p)
  {
    if p == "length" then LengthDescriptor(s.len, s.lenWritable) else s.props[p]
  }

  /** The generic protocol's entries of an enumeration: `length` and each generic key once. */
  ghost predicate ListsBase(s: ArrayState, entries: seq<(string, Descriptor)>) {
    && (forall j :: 0 <= j < |entries| ==>
          (entries[j].0 == "length" || entries[j].0 in s.props) && entries[j].1 == BaseProperty(s, entries[j].0))
    && (forall j, l :: 0 <= j < l < |entries| ==> entries[j].0 != entries[l].0)
    && (exists j :: 0 <= j < |entries| && entries[j].0 == "length")
    && (forall p :: p in s.props ==> exists j :: 0 <= j < |entries| && entries[j].0 == p)
  }

  /** The occupied dense slots in ascending order, as (decimal text, property) pairs. */
  method ListDense(slots: array<Option<Descriptor>>) returns (entries: seq<(string, Descriptor)>, ghost order: seq<nat>)
    ensures ListsElements(DenseMap(slots[..]), order, entries)
    ensures forall j, l :: 0 <= j < l < |order| ==> order[j] < order[l]
  {
    ghost var m := DenseMap(slots[..]);
    entries, order := [], [];
    var i := 0;
    while i < slots.Length
      invariant 0 <= i <= slots.Length && |entries| == |order|
      invariant forall j :: 0 <= j < |order| ==> order[j] < i && order[j] in m && entries[j] == (DecimalString(order[j]), m[order[j]])
      invariant forall j, l :: 0 <= j < l < |order| ==> order[j] < order[l]
      invariant forall k :: k in m && k < i ==> k in order
    {
      if slots[i] != None {
        entries := entries + [(DecimalString(i), slots[i].value)];
        order := order + [i];
      }
      i := i + 1;
    }
  }

  /** The keys of a sparse map in the map's unspecified order, as (decimal text, property) pairs. */
  method ListSparse(m: map<nat, Descriptor>) returns (entries: seq<(string, Descriptor)>, ghost order: seq<nat>)
    ensures ListsElements(m, order, entries)
  {
    var keys := Snapshot(m.Keys);
    entries := [];
    var i := 0;
    while i < |keys|
      invariant 0 <= i <= |keys| && |entries| == i
      invariant forall j :: 0 <= j < i ==> entries[j] == (DecimalString(keys[j]), m[keys[j]])
    {
      entries := entries + [(DecimalString(keys[i]), m[keys[i]])];
      i := i + 1;
    }
    order := keys;
  }

  /** The generic protocol's entries, in the unspecified order of its table. */
  method ListBase(props: map<string, Descriptor>, len: nat, lenWritable: bool, ghost s: ArrayState)
    returns (entries: seq<(string, Descriptor)>)
    requires s.props == props && s.len == len && s.lenWritable == lenWritable
    ensures ListsBase(s, entries)
  {
    var names := Snapshot(props.Keys + {"length"});
    assert forall j :: 0 <= j < |names| ==> names[j] in props.Keys + {"length"};
    entries := [];
    var i := 0;
    while i < |names|
      invariant 0 <= i <= |names| && |entries| == i
      invariant forall j :: 0 <= j < i ==> entries[j] == (names[j], BaseProperty(s, names[j]))
    {
      var d := if names[i] == "length" then LengthDescriptor(len, lenWritable) else props[names[i]];
      entries := entries + [(names[i], d)];
      i := i + 1;
    }
    assert "length" in names;
    forall p | p in s.props
      ensures exists j :: 0 <= j < |entries| && entries[j].0 == p
    {
      assert p in names;
      var j :| 0 <= j < |names| && names[j] == p;
      assert entries[j].0 == p;
    }
  }

  /**
   * An enumeration lists the own properties exactly: every entry is an own
   * property with its descriptor, no name comes twice, and no own property is
   * missed (given that no element sits at 2^32 - 1, which only SetIndexValue
   * can store and whose text names no index).
   */
  lemma ListingIsOwnProperties(s: ArrayState, order: seq<nat>, indexPart: seq<(string, Descriptor)>,
                               basePart: seq<(string, Descriptor)>)
    requires ListsElements(s.elements, order, indexPart) && ListsBase(s, basePart)
    requires forall k :: k in s.elements ==> k < NotAnIndex
    requires forall p :: p in s.props ==> p != "length" && !IsArrayIndex(p)
    ensures var entries := indexPart + basePart;
      && (forall j :: 0 <= j < |entries| ==> OwnPropertyOf(s, entries[j].0) == Some(entries[j].1))
      && (forall j, l :: 0 <= j < l < |entries| ==> entries[j].0 != entries[l].0)
      && (forall p :: OwnPropertyOf(s, p).Some? ==> exists j :: 0 <= j < |entries| && entries[j].0 == p)
  {
    var entries := indexPart + basePart;
    forall j | 0 <= j < |indexPart|
      ensures IsArrayIndex(indexPart[j].0) && IndexOf(indexPart[j].0) == order[j]
    {
      IndexRoundTrip(order[j], "");
    }
    forall j | 0 <= j < |entries|
      ensures OwnPropertyOf(s, entries[j].0) == Some(entries[j].1)
    {
      if j >= |indexPart| {
        assert entries[j] == basePart[j - |indexPart|];
      }
    }
    forall j, l | 0 <= j < l < |entries|
      ensures entries[j].0 != entries[l].0
    {
      if l < |indexPart| {
        assert IndexOf(entries[j].0) == order[j] && IndexOf(entries[l].0) == order[l];
      } else if j >= |indexPart| {
        assert entries[j] == basePart[j - |indexPart|] && entries[l] == basePart[l - |indexPart|];
      } else {
        assert entries[l] == basePart[l - |indexPart|];
      }
    }
    forall p | OwnPropertyOf(s, p).Some?
      ensures exists j :: 0 <= j < |entries| && entries[j].0 == p
    {
      if IsArrayIndex(p) {
        var k := IndexOf(p);
        var j :| 0 <= j < |order| && order[j] == k;
        IndexRoundTrip(k, p);
        assert entries[j].0 == p;
      } else {
        var j :| 0 <= j < |basePart| && basePart[j].0 == p;
        assert entries[j + |indexPart|].0 == p;
      }
    }
  }

  class ArrayInstance {
    /** The dense slot array; null when the sparse map is in use. */
    var dense: array?<Option<Descriptor>>
    /** The sparse index map; None when the dense slot array is in use. */
    var sparse: Option<map<nat, Descriptor>>
    /** The `length` property, held by the generic object protocol. */
    var lengthValue: nat
    var lengthWritable: bool
    /** The generic object protocol's own properties (all keys other than indices and "length"). */
    var props: map<string, Descriptor>
    var extensible: bool

    ghost predicate Valid()
      reads this
    {
      && (dense != null <==> sparse.None?)
      && (dense != null ==> dense.Length < Uint32Bound)
      && (sparse.Some? ==> forall k :: k in sparse.value ==> k < Uint32Bound)
      && lengthValue < Uint32Bound
      && (forall p :: p in props ==> p != "length" && !IsArrayIndex(p))
    }

    /** The element properties, whichever representation is live. */
    ghost function Elements(): map<nat, Descriptor>
      reads this, dense
    {
      if dense != null then DenseMap(dense[..]) else sparse.GetOr(map[])
    }

    /**
     * A new array with room for `capacity` elements: dense below the dense
     * bound, sparse from it on. `length` starts at 0 and writable, as the
     * array constructor defines it.
     */
    constructor (capacity: nat)
      requires capacity < Uint32Bound
      ensures Valid() && Elements() == map[]
      ensures capacity < MaxDenseArrayLength ==> dense != null && fresh(dense) && dense.Length == capacity
      ensures capacity >= MaxDenseArrayLength ==> dense == null
      ensures lengthValue == 0 && lengthWritable && props == map[] && extensible
    {
      if capacity < MaxDenseArrayLength {
        dense := new Option<Descriptor>[capacity](_ => None);
        sparse := None;
      } else {
        dense := null;
        sparse := Some(map[]);
      }
      lengthValue := 0;
      lengthWritable := true;
      props := map[];
      extensible := true;
      new;
      if dense != null {
        assert forall j :: 0 <= j < dense.Length ==> dense[..][j].None?;
      }
    }

    /** The observable state. */
    ghost function State(): ArrayState
      reads this, dense
    {
      ArrayState(Elements(), lengthValue, lengthWritable, props, extensible, dense != null)
    }

    /** The current `length`. */
    method GetLength() returns (n: nat)
      requires Valid()
      ensures n == State().len && n < Uint32Bound
    {
      n := lengthValue;
    }

    /**
     * The enumeration of own properties: the element entries first (ascending
     * over a dense buffer, in the map's unspecified order over a sparse one),
     * then the generic protocol's entries, `length` among them.
     */
    method GetOwnProperties() returns (entries: seq<(string, Descriptor)>, ghost order: seq<nat>)
      requires Valid()
      ensures |order| <= |entries|
      ensures ListsElements(Elements(), order, entries[..|order|])
      ensures ListsBase(State(), entries[|order|..])
      ensures dense != null ==> forall j, l :: 0 <= j < l < |order| ==> order[j] < order[l]
    {
      var indexPart: seq<(string, Descriptor)>;
      if dense != null {
        indexPart, order := ListDense(dense);
      } else {
        indexPart, order := ListSparse(sparse.value);
      }
      var basePart := ListBase(props, lengthValue, lengthWritable, State());
      entries := indexPart + basePart;
      assert entries[..|order|] == indexPart;
      assert entries[|order|..] == basePart;
    }

    /**
     * [[GetOwnProperty]]: an index name reads the element store (absent is a
     * distinct result, not an undefined value); other names the generic table.
     */
    method GetOwnProperty(p: string) returns (r: Option<Descriptor>)
      requires Valid()
      ensures r == OwnPropertyOf(State(), p)
      ensures IsArrayIndex(p) ==> (r.Some? <==> IndexOf(p) in Elements())
    {
      var index := ParseArrayIndex(p);
      if index != NotAnIndex {
        r := TryGetDescriptor(index);
      } else if p == "length" {
        r := Some(LengthDescriptor(lengthValue, lengthWritable));
      } else {
        r := Lookup(props, p);
      }
    }

    /** Stores a property without validation: index names go to the element store. */
    method SetOwnProperty(p: string, desc: Descriptor)
      requires Valid() && p != "length"
      modifies this, dense
      ensures Valid()
      ensures IsArrayIndex(p) ==> State() == old(State()).(elements := old(Elements())[IndexOf(p) := desc], isDense := State().isDense)
      ensures !IsArrayIndex(p) ==> State() == old(State()).(props := old(props)[p := desc])
    {
      var index := ParseArrayIndex(p);
      if index != NotAnIndex {
        WriteArrayValue(index, desc);
      } else {
        props := props[p := desc];
      }
    }

    /**
     * [[HasOwnProperty]] with the dense read kept inside the buffer: an index
     * is an own property iff it is below `length` and occupied.
     */
    method HasOwnProperty(p: string) returns (b: bool)
      requires Valid()
      ensures b == HasOwn(State(), p)
    {
      var index := ParseArrayIndex(p);
      if index != NotAnIndex {
        b := index < lengthValue
             && (sparse.None? || index in sparse.value)
             && (dense == null || (index < dense.Length && dense[index].Some?));
      } else {
        b := p == "length" || p in props;
      }
    }

    /**
     * The index part of HasOwnProperty as written: it reads `_dense[index]`
     * whenever `index < length`, so an index at or past the dense buffer's
     * end raises an index-out-of-range exception (None here).
     */
    function HasIndexAsWritten(index: nat): (r: Option<bool>)
      requires Valid()
      reads this, dense
      ensures r.None? <==> dense != null && dense.Length <= index < lengthValue
      ensures r.Some? ==> (r.value <==> index < lengthValue && index in Elements())
    {
      if !(index < lengthValue) then Some(false)
      else if sparse.Some? && index !in sparse.value then Some(false)
      else if dense != null && index >= dense.Length then None
      else Some(dense == null || dense[index].Some?)
    }

    /** Removes the own property `p`: the element slot for an index, then the generic entry. */
    method RemoveOwnProperty(p: string)
      requires Valid() && p != "length"
      modifies this, dense
      ensures Valid() && dense == old(dense)
      ensures State() == Removed(old(State()), p)
    {
      var index := ParseArrayIndex(p);
      if index != NotAnIndex {
        DeleteAt(index);
      }
      props := props - {p};
    }

    /**
     * The generic [[Delete]] of section 8.12.7 called with throw = false:
     * succeeds iff `p` is absent or configurable, removing it in the latter case.
     */
    method Delete(p: string) returns (ok: bool)
      requires Valid()
      modifies this, dense
      ensures Valid() && dense == old(dense)
      ensures ok <==> OwnPropertyOf(old(State()), p).None? || Configurable(OwnPropertyOf(old(State()), p).value)
      ensures State() == if ok then Removed(old(State()), p) else old(State())
    {
      var desc := GetOwnProperty(p);
      if desc.None? {
        assert Removed(State(), p) == State();
        return true;
      }
      if Configurable(desc.value) {
        RemoveOwnProperty(p);
        return true;
      }
      ok := false;
    }

    /** The generic define of `length` (the collaborator), refusing per `throwOnError`. */
    method BaseDefineLength(desc: Descriptor, throwOnError: bool) returns (r: Completion)
      requires Valid()
      requires desc.value.None? || (desc.value.value.Integer? && 0 <= desc.value.value.i < Uint32Bound)
      modifies this
      ensures Valid() && dense == old(dense) && sparse == old(sparse)
      ensures LengthBaseDefined(old(State()), desc, throwOnError, State(), r)
    {
      match DefineLength(lengthValue, lengthWritable, desc)
      case None =>
        r := Refuse(throwOnError);
      case Some((n, w)) =>
        lengthValue, lengthWritable := n, w;
        r := Normal(true);
    }

    /** Deletes the index named by `k`'s decimal text (Delete(ToString(k), false) in the source). */
    method DeleteIndex(k: nat) returns (ok: bool)
      requires Valid() && k < NotAnIndex
      modifies this, dense
      ensures Valid() && dense == old(dense)
      ensures ok <==> !Blocked(old(Elements()), k)
      ensures Elements() == if ok then old(Elements()) - {k} else old(Elements())
      ensures State() == old(State()).(elements := Elements())
    {
      IndexRoundTrip(k, "");
      ok := Delete(DecimalString(k));
    }

    /**
     * The top-down shrink: deletes from oldLen - 1 down to newLen and stops at
     * the first refusal, reporting the index that refused.
     */
    method ShrinkTopDown(newLen: nat, oldLen: nat) returns (failed: Option<nat>)
      requires Valid() && newLen <= oldLen < Uint32Bound
      modifies this, dense
      ensures Valid() && dense == old(dense)
      ensures State() == old(State()).(elements := Elements())
      ensures failed.None? ==> NoneBlocked(old(Elements()), newLen, oldLen) &&
                               Elements() == RemoveRange(old(Elements()), newLen, oldLen)
      ensures failed.Some? ==> newLen <= failed.value < oldLen && Blocked(old(Elements()), failed.value) &&
                               NoneBlocked(old(Elements()), failed.value + 1, oldLen) &&
                               Elements() == RemoveRange(old(Elements()), failed.value + 1, oldLen)
    {
      var cur := oldLen;
      while newLen < cur
        invariant newLen <= cur <= oldLen
        invariant Valid() && dense == old(dense)
        invariant State() == old(State()).(elements := Elements())
        invariant NoneBlocked(old(Elements()), cur, oldLen)
        invariant Elements() == RemoveRange(old(Elements()), cur, oldLen)
      {
        cur := cur - 1;
        var ok := DeleteIndex(cur);
        if !ok {
          return Some(cur);
        }
      }
      failed := None;
    }

    /**
     * The ascending shrink over a dense buffer: visits occupied slots from 0
     * upward, deletes those in [newLen, oldLen) and stops at the first
     * refusal. Occupied slots above the refusing index are not visited.
     */
    method ShrinkAscendingDense(newLen: nat, oldLen: nat) returns (failed: Option<nat>)
      requires Valid() && dense != null && newLen <= oldLen < Uint32Bound
      modifies this, dense
      ensures Valid() && dense == old(dense)
      ensures State() == old(State()).(elements := Elements())
      ensures failed.None? ==> NoneBlocked(old(Elements()), newLen, oldLen) &&
                               Elements() == RemoveRange(old(Elements()), newLen, oldLen)
      ensures failed.Some? ==> newLen <= failed.value < oldLen && Blocked(old(Elements()), failed.value) &&
                               NoneBlocked(old(Elements()), newLen, failed.value) &&
                               Elements() == RemoveRange(old(Elements()), newLen, failed.value)
    {
      var slots := dense;
      var keyIndex := 0;
      while keyIndex < slots.Length
        invariant 0 <= keyIndex <= slots.Length
        invariant Valid() && dense == slots
        invariant State() == old(State()).(elements := Elements())
        invariant NoneBlocked(old(Elements()), newLen, if keyIndex < oldLen then keyIndex else oldLen)
        invariant Elements() == RemoveRange(old(Elements()), newLen, if keyIndex < oldLen then keyIndex else oldLen)
      {
        if slots[keyIndex].Some? && newLen <= keyIndex < oldLen {
          var ok := DeleteIndex(keyIndex);
          if !ok {
            return Some(keyIndex);
          }
        }
        keyIndex := keyIndex + 1;
      }
      failed := None;
    }

    /**
     * The shrink over a sparse map: takes a snapshot of the keys, in the
     * map's unspecified order, deletes each key in [newLen, oldLen) and stops
     * at the first refusal.
     */
    method ShrinkSparse(newLen: nat, oldLen: nat) returns (failed: Option<nat>)
      requires Valid() && sparse.Some? && newLen <= oldLen < Uint32Bound
      modifies this, dense
      ensures Valid() && dense == old(dense)
      ensures State() == old(State()).(elements := Elements())
      ensures failed.None? ==> NoneBlocked(old(Elements()), newLen, oldLen) &&
                               Elements() == RemoveRange(old(Elements()), newLen, oldLen)
      ensures failed.Some? ==> PartiallyShrunk(old(Elements()), Elements(), newLen, oldLen, failed.value)
    {
      var keys := Snapshot(sparse.value.Keys);
      var i := 0;
      while i < |keys|
        invariant 0 <= i <= |keys|
        invariant Valid() && dense == old(dense)
        invariant State() == old(State()).(elements := Elements())
        invariant forall k :: k in Elements() <==> k in old(Elements()) && !(k in keys[..i] && newLen <= k < oldLen)
        invariant forall k :: k in Elements() ==> Elements()[k] == old(Elements())[k]
        invariant forall k :: k in keys[..i] && newLen <= k < oldLen ==> !Blocked(old(Elements()), k)
      {
        var keyIndex := keys[i];
        assert keys[..i + 1] == keys[..i] + [keyIndex];
        if newLen <= keyIndex < oldLen {
          var ok := DeleteIndex(keyIndex);
          if !ok {
            assert keyIndex !in keys[..i];
            return Some(keyIndex);
          }
        }
        i := i + 1;
      }
      assert keys[..i] == keys;
      failed := None;
    }

    /**
     * Defining `length` (section 15.4.5.1 step 3): the exactness check, growth,
     * the frozen-length check, then the shrink with partial failure.
     */
    method DefineLengthProperty(desc: Descriptor, throwOnError: bool) returns (r: Completion)
      requires Valid()
      modifies this, dense
      ensures Valid() && dense == old(dense)
      ensures LengthDefined(old(State()), desc, throwOnError, State(), r)
    {
      var oldLen := lengthValue;
      if desc.value.None? {
        r := BaseDefineLength(desc, throwOnError);
        return;
      }
      var coerced := ExactLength(desc.value.value);
      if coerced.None? {
        return Throw(RangeError);
      }
      var newLen := coerced.value;
      var newLenDesc := desc.(value := Some(Integer(newLen)));
      assert newLenDesc == desc;
      if newLen >= oldLen {
        r := BaseDefineLength(newLenDesc, throwOnError);
        return;
      }
      if !lengthWritable {
        return Refuse(throwOnError);
      }
      var newWritable: bool;
      if newLenDesc.writable.Unset? || newLenDesc.writable.flag {
        newWritable := true;
      } else {
        newWritable := false;
        newLenDesc := newLenDesc.(writable := Set(true));
      }
      assert newLenDesc == ForceWritable(desc);
      var succeeded := BaseDefineLength(newLenDesc, throwOnError);
      if succeeded != Normal(true) {
        return succeeded;
      }
      ghost var mid := State();
      r := ShrinkFrom(oldLen, newLen, newLenDesc, newWritable, throwOnError);
      assert mid.(len := oldLen) == old(State());
    }

    /**
     * Steps 3.j-m: with `length` already set to newLen (and writable), delete
     * the indices of [newLen, oldLen), choosing the ascending or the top-down
     * strategy by the occupied count, and settle `length` afterwards.
     */
    method ShrinkFrom(oldLen: nat, newLen: nat, newLenDesc: Descriptor, newWritable: bool, throwOnError: bool)
      returns (r: Completion)
      requires Valid() && newLen < oldLen < Uint32Bound
      requires lengthValue == newLen && lengthWritable
      requires newLenDesc.value.Some? && newLenDesc.writable != Set(false)
      requires newLenDesc.configurable != Set(true) && newLenDesc.enumerable != Set(true)
      modifies this, dense
      ensures Valid() && dense == old(dense)
      ensures Shrunk(old(State()).(len := oldLen), newLen, newWritable, throwOnError, State(), r)
    {
      ghost var s0 := old(State()).(len := oldLen);
      var failed := DeleteRange(newLen, oldLen);
      ghost var e1 := Elements();
      r := SettleLength(oldLen, newLen, newLenDesc, newWritable, throwOnError, failed);
      ShrunkFromDeleted(s0, newLen, newWritable, throwOnError, State(), r, failed);
    }

    /**
     * Steps 3.l.iii-3.m: after a refusal at k, `length` becomes k + 1 with the
     * requested writability and the call fails; after a complete shrink,
     * `length` is frozen if that was requested and the call succeeds.
     */
    method SettleLength(oldLen: nat, newLen: nat, newLenDesc: Descriptor, newWritable: bool, throwOnError: bool,
                        failed: Option<nat>) returns (r: Completion)
      requires Valid() && lengthValue == newLen && lengthWritable
      requires failed.Some? ==> failed.value < oldLen < Uint32Bound
      requires newLenDesc.value.Some? && newLenDesc.writable != Set(false)
      requires newLenDesc.configurable != Set(true) && newLenDesc.enumerable != Set(true)
      modifies this
      ensures Valid() && dense == old(dense) && sparse == old(sparse)
      ensures State() == old(State()).(len := if failed.Some? then failed.value + 1 else newLen,
                                       lenWritable := newWritable)
      ensures r == if failed.Some? then Refuse(throwOnError) else Normal(true)
    {
      var newLenDesc := newLenDesc;
      if failed.Some? {
        newLenDesc := newLenDesc.(value := Some(Integer(failed.value + 1)));
        if !newWritable {
          newLenDesc := newLenDesc.(writable := Set(false));
        }
        var _ := BaseDefineLength(newLenDesc, false);
        r := Refuse(throwOnError);
      } else {
        if !newWritable {
          var _ := BaseDefineLength(Descriptor(None, Set(false), None, None, Unset, Unset), false);
        }
        r := Normal(true);
      }
    }

    /**
     * The array [[DefineOwnProperty]] of section 15.4.5.1: `length`, then
     * array indices, then every other key through the generic define.
     */
    method DefineOwnProperty(p: string, desc: Descriptor, throwOnError: bool) returns (r: Completion)
      requires Valid()
      modifies this, dense
      ensures Valid() && (p == "length" ==> dense == old(dense))
      ensures Defined(old(State()), p, desc, throwOnError, State(), r)
    {
      var oldLen := lengthValue;
      if p == "length" {
        assert !IsArrayIndex(p);
        r := DefineLengthProperty(desc, throwOnError);
        return;
      }
      var index := ParseArrayIndex(p);
      if index != NotAnIndex {
        if index >= oldLen && !lengthWritable {
          return Refuse(throwOnError);
        }
        var current := TryGetDescriptor(index);
        var accepted := BaseDefine(current, desc, extensible);
        if accepted.None? {
          return Refuse(throwOnError);
        }
        WriteArrayValue(index, accepted.value);
        if index >= oldLen {
          var _ := BaseDefineLength(LengthDescriptor(index + 1, lengthWritable), false);
        }
        return Normal(true);
      }
      var accepted := BaseDefine(Lookup(props, p), desc, extensible);
      if accepted.None? {
        return Refuse(throwOnError);
      }
      props := props[p := accepted.value];
      r := Normal(true);
    }

    /**
     * [[Put]] (section 8.12.5): refused when [[CanPut]] says no; an own data
     * property gets only its value replaced; an accessor found on the array or
     * its prototype chain hands the assignment to its setter (returned for
     * the caller to invoke); otherwise a new default data property is defined.
     */
    method Put(p: string, v: Value, throwOnError: bool, inherited: Option<Descriptor>)
      returns (r: Completion, setter: Option<Value>)
      requires Valid()
      modifies this, dense
      ensures Valid()
      ensures PutDone(old(State()), p, v, throwOnError, inherited, State(), r, setter)
    {
      var own := GetOwnProperty(p);
      if !CanPut(own, inherited, extensible) {
        return Refuse(throwOnError), None;
      }
      if own.Some? && IsData(own.value) {
        r := DefineOwnProperty(p, ValueOnly(v), throwOnError);
        return r, None;
      }
      var found := if own.Some? then own else inherited;
      if found.Some? && IsAccessor(found.value) {
        return Normal(true), Some(found.value.setter.GetOr(Undefined));
      }
      r := DefineOwnProperty(p, DefaultData(v), throwOnError);
      setter := None;
    }

    /**
     * The fast indexed assignment: raises `length` to index + 1 (as a uint,
     * so wrapping to 0 past 2^32 - 1) without consulting its writability,
     * then stores a default data property at the index.
     */
    method SetIndexValue(index: nat, v: Value, throwOnError: bool)
      requires Valid() && index < Uint32Bound
      modifies this, dense
      ensures Valid()
      ensures State() == old(State()).(
        elements := old(Elements())[index := DefaultData(v)],
        len := if index >= old(lengthValue) then (index + 1) % Uint32Bound else old(lengthValue),
        isDense := State().isDense)
    {
      var length := lengthValue;
      if index >= length {
        lengthValue := (index + 1) % Uint32Bound;
      }
      WriteArrayValue(index, DefaultData(v));
    }

    /**
     * Deletes the indices of [newLen, oldLen) by the strategy the source picks:
     * when fewer elements are occupied than the range holds, only the
     * occupied ones (ascending over a dense buffer, in key order over a
     * sparse map); otherwise every index, top-down.
     */
    method DeleteRange(newLen: nat, oldLen: nat) returns (failed: Option<nat>)
      requires Valid() && newLen <= oldLen < Uint32Bound
      modifies this, dense
      ensures Valid() && dense == old(dense)
      ensures State() == old(State()).(elements := Elements())
      ensures RangeDeleted(old(Elements()), Elements(), newLen, oldLen, dense != null, failed)
    {
      ghost var e0 := Elements();
      var count := OccupiedCount();
      if count < oldLen - newLen {
        if dense != null {
          failed := ShrinkAscendingDense(newLen, oldLen);
          if failed.Some? {
            AscendingIsPartial(e0, newLen, oldLen, failed.value);
          }
        } else {
          failed := ShrinkSparse(newLen, oldLen);
        }
      } else {
        failed := ShrinkTopDown(newLen, oldLen);
        if failed.Some? {
          TopDownIsPartial(e0, newLen, oldLen, failed.value);
        }
      }
    }

    /** The stored property at `index`, if any. */
    method TryGetDescriptor(index: nat) returns (r: Option<Descriptor>)
      requires Valid()
      ensures r.Some? <==> index in Elements()
      ensures r.Some? ==> r.value == Elements()[index]
    {
      if dense != null {
        if index >= dense.Length {
          return None;
        }
        return dense[index];
      }
      r := Lookup(sparse.value, index);
    }

    /** Grows the dense buffer to at least `capacity` slots, keeping every entry; never shrinks. */
    method EnsureCapacity(capacity: nat)
      requires Valid() && dense != null && capacity < Uint32Bound
      modifies this
      ensures Valid() && dense != null
      ensures dense.Length == if capacity > old(dense.Length) then capacity else old(dense.Length)
      ensures dense[..old(dense.Length)] == old(dense[..])
      ensures forall j :: old(dense.Length) <= j < dense.Length ==> dense[j].None?
      ensures dense != old(dense) ==> fresh(dense)
      ensures Elements() == old(Elements())
      ensures sparse == old(sparse) && lengthValue == old(lengthValue) && lengthWritable == old(lengthWritable)
      ensures props == old(props) && extensible == old(extensible)
    {
      if capacity > dense.Length {
        var grown := new Option<Descriptor>[capacity](_ => None);
        forall j | 0 <= j < dense.Length {
          grown[j] := dense[j];
        }
        assert grown[..dense.Length] == dense[..];
        DenseMapPadded(dense[..], grown[..]);
        dense := grown;
      }
    }

    /**
     * Stores `desc` at `index`. Dense storage is kept while the index, the
     * capacity the write would need and the gap are small; otherwise every
     * occupied slot moves to a new sparse map and the dense buffer is dropped.
     */
    method WriteArrayValue(index: nat, desc: Descriptor)
      requires Valid() && index < Uint32Bound
      modifies this, dense
      ensures Valid()
      ensures Elements() == old(Elements())[index := desc]
      ensures dense != null <==> old(dense != null && CanUseDense(dense.Length, index))
      ensures old(dense != null && CanUseDense(dense.Length, index)) ==>
        dense.Length == old(if index >= dense.Length then NewSize(index, dense.Length) else dense.Length)
      ensures dense != null && dense != old(dense) ==> fresh(dense)
      ensures lengthValue == old(lengthValue) && lengthWritable == old(lengthWritable)
      ensures props == old(props) && extensible == old(extensible)
    {
      var newSize := if dense != null && index >= dense.Length then NewSize(index, dense.Length) else 0;
      var canUseDense := dense != null
                         && index < MaxDenseArrayLength
                         && newSize < MaxDenseArrayLength
                         && index < dense.Length + 50;
      if canUseDense {
        if index >= dense.Length {
          EnsureCapacity(newSize);
        }
        DenseMapUpdate(dense[..], index, Some(desc));
        dense[index] := Some(desc);
      } else {
        if dense != null {
          var moved := CopyToSparse(dense);
          assert forall k :: k in moved ==> k < Uint32Bound;
          sparse := Some(moved);
          dense := null;
        }
        sparse := Some(sparse.value[index := desc]);
      }
    }

    /** Removes the entry at `index`; absent or out-of-range indices are a no-op. */
    method DeleteAt(index: nat)
      requires Valid()
      modifies this, dense
      ensures Valid()
      ensures Elements() == old(Elements()) - {index}
      ensures dense == old(dense) && (dense != null ==> dense.Length == old(dense.Length))
      ensures lengthValue == old(lengthValue) && lengthWritable == old(lengthWritable)
      ensures props == old(props) && extensible == old(extensible)
    {
      if dense != null {
        if index < dense.Length {
          DenseMapUpdate(dense[..], index, None);
          dense[index] := None;
        }
      } else {
        sparse := Some(sparse.value - {index});
      }
    }

    /** The number of occupied slots (a scan when dense, the map size when sparse). */
    method OccupiedCount() returns (count: nat)
      requires Valid()
      ensures count == |Elements()|
    {
      if dense != null {
        count := 0;
        var i := 0;
        while i < dense.Length
          invariant 0 <= i <= dense.Length
          invariant count == |DenseMap(dense[..i])|
        {
          assert dense[..i + 1] == dense[..i] + [dense[i]];
          DenseMapSnoc(dense[..i], dense[i]);
          if dense[i].Some? {
            count := count + 1;
          }
          i := i + 1;
        }
        assert dense[..i] == dense[..];
      } else {
        count := |sparse.value|;
      }
    }

    /**
     * A lower bound on the occupied indices, for iteration: 0 when dense; the
     * least key of a sparse map with fewer than 100 entries none of which is
     * 0; 0 otherwise.
     */
    method GetSmallestIndex() returns (r: nat)
      requires Valid()
      ensures dense != null ==> r == 0
      ensures sparse.Some? && 0 < |sparse.value| < 100 && 0 !in sparse.value ==>
        r in sparse.value && forall k :: k in sparse.value ==> r <= k
      ensures sparse.Some? && !(0 < |sparse.value| < 100 && 0 !in sparse.value) ==> r == 0
      ensures forall k :: k in Elements() ==> r <= k
    {
      if dense != null {
        return 0;
      }
      var m := sparse.value;
      var smallest := 0;
      if 0 < |m| < 100 && 0 !in m {
        smallest := NotAnIndex;
        var keys := m.Keys;
        while keys != {}
          invariant keys <= m.Keys
          invariant forall k :: k in m && k !in keys ==> smallest <= k
          invariant smallest in m || (keys == m.Keys && smallest == NotAnIndex)
          decreases keys
        {
          var k :| k in keys;
          smallest := if k < smallest then k else smallest;
          keys := keys - {k};
        }
      }
      r := smallest;
    }
  }
}
