# Jint array exotic object and Error prototype, modelled in Dafny

This project models the array object of the Jint JavaScript interpreter
(`ArrayInstance`) and the Error prototype objects (`ErrorPrototype`), and
proves properties of the model.

An array stores its elements in one of two ways. Dense storage is a slot
array indexed by array index. Sparse storage is a map from index to property
descriptor. Above them sits the property protocol of section 15.4.5 of
ECMA-262 5.1:

- the `length` property, with its exactness check, growth, freezing, and
  shrink with partial failure;
- definition of array-index properties;
- [[Put]], [[GetOwnProperty]], [[HasOwnProperty]], deletion and enumeration.

The Error prototype part models how each prototype object is created and
configured, plus the name/message combination of section 15.11.4.4 that
`Error.prototype.toString` computes.

Files:

- `options.dfy` (module `Options`): the Option type, and map lookup as an Option.
- `index_codec.dfy` (module `ArrayIndex`): the array-index codec of section
  15.4. It holds the reference definition `IsArrayIndex`/`IndexOf`, the
  decimal rendering `DecimalString`, their round trip, and the character loop
  `ParseArrayIndex` proved against the reference.
- `object_model.dfy` (module `ObjectModel`): values, descriptors with
  tri-state attributes, and completions (normal or thrown). It also gives
  the generic object protocol that the array delegates to, stated as the
  algorithms it implements: [[DefineOwnProperty]] (section 8.12.9) as
  `BaseDefine` and [[CanPut]] (section 8.12.4) as `CanPut`.
- `array_instance.dfy` (module `Arrays`): the class `ArrayInstance`, whose
  fields are the dense `array`, the sparse `map`, the `length` pair, the
  generic property table and the extensible flag. Each of its methods is
  proved against a specification predicate over the abstract `ArrayState`:
  `Defined`, `LengthDefined`, `Shrunk`, `IndexDefined`, `PutDone`,
  `OwnPropertyOf`, `HasOwn`, `ListsElements` and `ListsBase`.
- `array_laws.dfy` (module `ArrayLaws`): lemmas over those predicates. They
  cover index definition, the length-covers invariant (`LengthCovers`:
  "every occupied index is below `length`"), the shrink examples, invalid lengths, enumeration order and
  [[Put]]. There are also two client methods: the storage round trip, and
  the dense over-read.
- `error_prototype.dfy` (module `Errors`): the class `ErrorPrototype`, with
  `CreatePrototypeObject`, `Configure` and `ToString`.

Modelling choices:

- **Delete.** The generic [[Delete]] (section 8.12.7, called with
  throw = false) succeeds iff the property is absent or configurable. On
  success it calls `RemoveOwnProperty` (`Arrays.ArrayInstance.Delete`).
- **Shrink strategies.** The shrink of `length` keeps the three strategies
  of the source:
  - top-down over every index;
  - ascending over the occupied dense slots;
  - in map order over a snapshot of the sparse keys.

  When a deletion is refused, the top-down strategy guarantees that all of
  [k + 1, oldLen) is gone. The occupied-only strategies do not: occupied
  indices above the refusing index k stay behind while `length` becomes
  k + 1. `ArrayLaws.AscendingLeavesStragglers` exhibits such a state, and
  `ArrayLaws.DefineKeepsLengthCovers` proves the length-covers invariant for every other definition.
- **Sparse order.** Dictionary enumeration order is unspecified. It is
  modelled by a nondeterministic choice (`Snapshot`). So a refused sparse
  shrink only promises that what is left is a part of what was there, and
  sparse enumeration promises each index once, in no particular order.
  Enumeration is ascending only over dense storage, which is what the code
  does (lines 292-305).
- **SetIndexValue.** It raises `length` to `index + 1` as an unsigned 32-bit
  value (wrapping to 0 for index 2^32 - 1). It does not consult the
  writability of `length` and ignores `throwOnError`, exactly as the code does.

## Model

| member | source | states |
|---|---|---|
| ArrayIndex.IndexRoundTrip | Jint/Native/Array/ArrayInstance.cs:365-372 | every n < 2^32 - 1 renders to an index name that reads back as n, and every index name is the rendering of the index it reads as |
| ArrayIndex.ParseNonEmpty | Jint/Native/Array/ArrayInstance.cs:377-413 | the digit loop with leading-zero and overflow cut-offs returns exactly IndexOf(p), and a non-sentinel result iff p is a canonical index |
| ArrayIndex.ParseArrayIndex | Jint/Native/Array/ArrayInstance.cs:375-414 | the codec with the empty name mapped to the sentinel: equals IndexOf, non-sentinel iff IsArrayIndex, and then p is the decimal text of the result |
| ArrayIndex.ParseAsWritten | Jint/Native/Array/ArrayInstance.cs:375-414 | the codec as written, reading `p[0]` first and then running the digit loop: it fails (index out of range) exactly on the empty name and returns IndexOf(p) on every other name |
| ArrayIndex.EmptyNameCrashes | Jint/Native/Array/ArrayInstance.cs:377 | on the empty name the as-written codec fails, while the corrected codec returns the sentinel 2^32 - 1 |
| ArrayIndex.ShortExamples | Jint/Native/Array/ArrayInstance.cs:384-392 | "0" and "10" are indices 0 and 10; "01", "1a" and "" are not indices |
| ArrayIndex.LargestIndexExample | Jint/Native/Array/ArrayInstance.cs:405-410 | "4294967294" is the largest index; "4294967295" (the sentinel) is not an index |
| ArrayIndex.DecimalValueOfString | Jint/Native/Array/ArrayInstance.cs:405 | reading back the decimal rendering of n gives n |
| ArrayIndex.StringOfDecimalValue | Jint/Native/Array/ArrayInstance.cs:384-392 | a canonical digit string is the rendering of its own value |
| ArrayIndex.DecimalStringIsCanonical | Jint/Native/Array/ArrayInstance.cs:384-392 | renderings have no leading zero, so they are canonical |
| ArrayIndex.PrefixValueBound | Jint/Native/Array/ArrayInstance.cs:405-410 | a prefix of a digit string never has a larger value, so the early overflow exit is sound |
| ObjectModel.ExactLength | Jint/Native/Array/ArrayInstance.cs:88-93 | a length value is accepted iff it is an integer in [0, 2^32), and then it is that integer |
| ObjectModel.Refuse | Jint/Native/Array/ArrayInstance.cs:101-109 | a refusal throws TypeError iff throwOnError, else reports false |
| ObjectModel.BaseDefineNewKey | Jint/Native/Array/ArrayInstance.cs:260 | the generic define accepts a new key iff the object is extensible, creating a data property with unset attributes false |
| ObjectModel.BaseDefineConfigurable | Jint/Native/Array/ArrayInstance.cs:260 | a configurable property accepts every redefinition |
| ObjectModel.BaseDefineStoresRequest | Jint/Native/Array/ArrayInstance.cs:260 | an accepted definition stores each requested field (value, writable, enumerable, configurable, and getter and setter unless the request mixes data and accessor fields), and redefining the stored property is a no-op |
| ObjectModel.BaseDefineFrozen | Jint/Native/Array/ArrayInstance.cs:260 | a non-configurable, non-writable data property keeps its value, writability, enumerability and configurability under any accepted define (the generic define also used for `length` at line 122) |
| ObjectModel.DefineLengthIsBaseDefine | Jint/Native/Array/ArrayInstance.cs:98 | the generic define of `length` accepts the same requests as section 8.12.9 and stores the same new value and writability |
| Arrays.DenseMapUpdate | Jint/Native/Array/ArrayInstance.cs:470-483 | setting or clearing one slot replaces or removes exactly that entry |
| Arrays.DenseMapPadded | Jint/Native/Array/ArrayInstance.cs:544-553 | trailing empty slots add no element |
| Arrays.NewSize | Jint/Native/Array/ArrayInstance.cs:505-507 | the grown capacity is above the index, at least twice the old capacity and at least 4 |
| Arrays.TopDownIsPartial | Jint/Native/Array/ArrayInstance.cs:216-238 | a top-down deletion stopped at k removes only deletable indices of the range |
| Arrays.AscendingIsPartial | Jint/Native/Array/ArrayInstance.cs:146-177 | an ascending deletion stopped at k removes only deletable indices of the range |
| Arrays.ShrunkFromDeleted | Jint/Native/Array/ArrayInstance.cs:144-246 | the range deletion plus the final `length` update give the shrink outcome |
| Arrays.CopyToSparse | Jint/Native/Array/ArrayInstance.cs:527-535 | the new sparse map holds exactly the occupied dense slots |
| Arrays.Snapshot | Jint/Native/Array/ArrayInstance.cs:184-186 | the key snapshot lists each key of the set exactly once |
| Arrays.ListDense | Jint/Native/Array/ArrayInstance.cs:290-299 | the occupied dense slots are listed once each, by decimal text, in ascending order |
| Arrays.ListSparse | Jint/Native/Array/ArrayInstance.cs:300-306 | every sparse key is listed exactly once, by decimal text, with its descriptor |
| Arrays.ListBase | Jint/Native/Array/ArrayInstance.cs:308-311 | the generic protocol's entries list `length` and every generic key exactly once |
| Arrays.ListingIsOwnProperties | Jint/Native/Array/ArrayInstance.cs:288-312 | the enumeration lists exactly the own properties: each entry's descriptor is what GetOwnProperty reports, no name repeats, none is missed |
| Arrays.ArrayInstance.constructor | Jint/Native/Array/ArrayInstance.cs:22-33 | an empty array, dense with the given capacity below 10240, sparse from 10240 on |
| Arrays.ArrayInstance.GetLength | Jint/Native/Array/ArrayInstance.cs:283-286 | returns `length`, a 32-bit unsigned value |
| Arrays.ArrayInstance.GetOwnProperties | Jint/Native/Array/ArrayInstance.cs:288-312 | element entries first (ascending when dense), each once, then the generic entries with `length`, each once |
| Arrays.ArrayInstance.GetOwnProperty | Jint/Native/Array/ArrayInstance.cs:314-327 | an index reads the element store (absent is None, not undefined); other names read the `length` pair or the generic table |
| Arrays.ArrayInstance.SetOwnProperty | Jint/Native/Array/ArrayInstance.cs:329-339 | an index name overwrites that element; any other name overwrites the generic entry |
| Arrays.ArrayInstance.HasOwnProperty | Jint/Native/Array/ArrayInstance.cs:341-351 | with the dense read kept in bounds: an index is own iff below `length` and occupied; other names per the generic table |
| Arrays.ArrayInstance.HasIndexAsWritten | Jint/Native/Array/ArrayInstance.cs:343-348 | the index test as written fails exactly when dense and dense.Length <= index < length; otherwise it agrees with HasOwnProperty |
| Arrays.ArrayInstance.RemoveOwnProperty | Jint/Native/Array/ArrayInstance.cs:353-362 | removes the element for an index name and the generic entry; nothing else changes |
| Arrays.ArrayInstance.Delete | Jint/Native/Array/ArrayInstance.cs:158 | succeeds iff the property is absent or configurable, and then removes it; on refusal nothing changes |
| Arrays.ArrayInstance.DeleteIndex | Jint/Native/Array/ArrayInstance.cs:220 | deleting the text of index k succeeds iff k is not a non-configurable element, and removes only k |
| Arrays.ArrayInstance.BaseDefineLength | Jint/Native/Array/ArrayInstance.cs:122 | the generic define of `length`: refusal per throwOnError with no change, or the new value and writability |
| Arrays.ArrayInstance.ShrinkTopDown | Jint/Native/Array/ArrayInstance.cs:216-238 | deletes oldLen-1 down to newLen; a refusal at k leaves everything in [k+1, oldLen) removed and nothing below k touched |
| Arrays.ArrayInstance.ShrinkAscendingDense | Jint/Native/Array/ArrayInstance.cs:146-177 | deletes occupied slots of the range upward; a refusal at k leaves [newLen, k) removed and nothing above touched |
| Arrays.ArrayInstance.ShrinkSparse | Jint/Native/Array/ArrayInstance.cs:179-212 | deletes snapshot keys of the range; on refusal only deletable range indices are gone; on success the whole range is |
| Arrays.ArrayInstance.OccupiedCount | Jint/Native/Array/ArrayInstance.cs:128-142 | the count equals the number of stored elements |
| Arrays.ArrayInstance.DeleteRange | Jint/Native/Array/ArrayInstance.cs:144-239 | picks occupied-only when the count is below the range size, else top-down, with each strategy's outcome |
| Arrays.ArrayInstance.ShrinkFrom | Jint/Native/Array/ArrayInstance.cs:128-246 | succeeds iff no index in [newLen, oldLen) is non-configurable; a refusal at k leaves `length` = k + 1; `length` ends with the requested writability |
| Arrays.ArrayInstance.SettleLength | Jint/Native/Array/ArrayInstance.cs:161-174 | after a refusal at k `length` is k + 1 and the call fails; after success `length` is frozen if requested |
| Arrays.ArrayInstance.DefineLengthProperty | Jint/Native/Array/ArrayInstance.cs:81-247 | section 15.4.5.1 step 3: missing value to the generic define; inexact value RangeError with no change; growth stored; frozen shrink refused; otherwise the shrink |
| Arrays.ArrayInstance.DefineOwnProperty | Jint/Native/Array/ArrayInstance.cs:76-281 | dispatch on `length`, index and other keys, with the outcome of each case of section 15.4.5.1 |
| Arrays.ArrayInstance.Put | Jint/Native/Array/ArrayInstance.cs:40-74 | section 8.12.5: refused when CanPut fails; own data gets its value replaced; an accessor's setter is returned for invocation; else a default data property is defined |
| Arrays.ArrayInstance.SetIndexValue | Jint/Native/Array/ArrayInstance.cs:416-426 | stores a default data property and raises `length` to (index + 1) mod 2^32 when index >= length, regardless of writability |
| Arrays.ArrayInstance.TryGetDescriptor | Jint/Native/Array/ArrayInstance.cs:485-500 | reports an element iff the index is stored, with its descriptor |
| Arrays.ArrayInstance.EnsureCapacity | Jint/Native/Array/ArrayInstance.cs:544-553 | grows to the requested capacity, never shrinks, keeps every old slot, and new slots are empty |
| Arrays.ArrayInstance.WriteArrayValue | Jint/Native/Array/ArrayInstance.cs:502-542 | the element map gains index := desc; dense is kept iff index < 10240, the new size < 10240 and index < capacity + 50; otherwise it is converted one way to sparse |
| Arrays.ArrayInstance.DeleteAt | Jint/Native/Array/ArrayInstance.cs:470-483 | removes only that index and keeps the dense capacity; absent or out-of-range indices change nothing |
| Arrays.ArrayInstance.GetSmallestIndex | Jint/Native/Array/ArrayInstance.cs:428-447 | 0 when dense; the least key of a sparse map with 1..99 keys and no 0; 0 otherwise; never above an occupied index |
| ArrayLaws.IndexDefineStores | Jint/Native/Array/ArrayInstance.cs:248-278 | a successful index define stores every requested value, writable, enumerable and configurable field, leaves `length` > index and other elements as they were; a frozen length refuses index >= length |
| ArrayLaws.DefineKeepsLengthCovers | Jint/Native/Array/ArrayInstance.cs:76-281 | every definition keeps the length-covers invariant (`LengthCovers`), except a shrink refused by an occupied-only strategy |
| ArrayLaws.AscendingLeavesStragglers | Jint/Native/Array/ArrayInstance.cs:146-177 | an ascending shrink refused at 5 leaves `length` 6 with index 7 still occupied |
| ArrayLaws.HasOwnAgreesWithGetOwn | Jint/Native/Array/ArrayInstance.cs:341-351 | under the length-covers invariant, HasOwnProperty holds iff GetOwnProperty finds a property |
| ArrayLaws.InvalidLengthRejected | Jint/Native/Array/ArrayInstance.cs:88-93 | lengths -1, 2^32 and non-integers throw RangeError and change nothing |
| ArrayLaws.ShrinkExample | Jint/Native/Array/ArrayInstance.cs:216-246 | [0..5] all configurable, length := 2 gives {0, 1} and length 2 |
| ArrayLaws.ShrinkPartialFailureExample | Jint/Native/Array/ArrayInstance.cs:216-238 | [0..5] with 3 non-configurable, length := 0 fails leaving length 4 and {0, 1, 2, 3} |
| ArrayLaws.AscendingListingOfPrefix | Jint/Native/Array/ArrayInstance.cs:290-299 | an ascending listing of the indices [0, n) is exactly 0, 1, ..., n - 1 |
| ArrayLaws.EnumerationOrderExample | Jint/Native/Array/ArrayInstance.cs:288-312 | [10, 20, 30] with "foo" lists "0", "1", "2" first, then "foo" |
| ArrayLaws.PutCreatesIndex | Jint/Native/Array/ArrayInstance.cs:69-73 | assigning an absent index of an extensible array creates a default data property and raises `length` |
| ArrayLaws.PutReplacesValue | Jint/Native/Array/ArrayInstance.cs:54-58 | assigning an own writable data element replaces only its value |
| ArrayLaws.PutRefused | Jint/Native/Array/ArrayInstance.cs:42-50 | an assignment CanPut refuses changes nothing and reports per throwOnError |
| ArrayLaws.WriteThenRead | Jint/Native/Array/ArrayInstance.cs:485-542 | after a write at i, reading i gives the stored descriptor and every other index reads as before |
| ArrayLaws.HasOwnPropertyOverrun | Jint/Native/Array/ArrayInstance.cs:345-347 | a capacity-0 array with length 5 makes the as-written index test fail |
| Errors.Combine | Jint/Native/Error/ErrorPrototype.cs:62-70 | the result starts with the name, ends with the message, and has their lengths plus 2 for the separator when both are present |
| Errors.MessageText | Jint/Native/Error/ErrorPrototype.cs:52-61 | an undefined message reads as "" |
| Errors.NameTextAsWritten | Jint/Native/Error/ErrorPrototype.cs:50 | an undefined name reads as "undefined" |
| Errors.NameText | Jint/Native/Error/ErrorPrototype.cs:50 | an undefined name reads as "Error" (section 15.11.4.4 step 4) |
| Errors.PrototypeFor | Jint/Native/Error/ErrorPrototype.cs:24-31 | the prototype is Object.prototype iff the name is "Error", else Error.prototype |
| Errors.InitialProperties | Jint/Native/Error/ErrorPrototype.cs:21-22 | exactly `constructor` (non-enumerable, the constructor) and `message` ("" with writable, not enumerable, configurable) |
| Errors.ErrorPrototype.CreatePrototypeObject | Jint/Native/Error/ErrorPrototype.cs:18-34 | an extensible object with the initial properties and the prototype chosen by its name |
| Errors.ErrorPrototype.Configure | Jint/Native/Error/ErrorPrototype.cs:36-40 | adds `toString` (writable, not enumerable, configurable) and changes nothing else |
| Errors.ErrorPrototype.ToStringAsWritten | Jint/Native/Error/ErrorPrototype.cs:42-71 | a non-object throws TypeError; otherwise the combination of the as-written name and the message |
| Errors.ErrorPrototype.ToString | Jint/Native/Error/ErrorPrototype.cs:42-71 | a non-object throws TypeError; otherwise the combination of the name ("Error" if undefined) and the message |
| Errors.ToStringCases | Jint/Native/Error/ErrorPrototype.cs:44-70 | non-object throws; undefined message gives the name; empty name gives the message; else "name: message" |
| Errors.UndefinedNameDiffers | Jint/Native/Error/ErrorPrototype.cs:50 | the two readings agree unless the name is undefined, where the source gives "undefined: bad" instead of "Error: bad" |
| Errors.FirstColonOfCombine | Jint/Native/Error/ErrorPrototype.cs:70 | in "name: message" with a colon-free name the first ':' sits right after the name |
| Errors.CombineSplits | Jint/Native/Error/ErrorPrototype.cs:62-70 | a colon-free non-empty name and a non-empty message are recovered from their combination |

## Left out

- Numeric coercion (`ToNumber`, `ToUint32`, lines 79 and 89-90) works on IEEE doubles. A value is modelled only as undefined, an integer, or something else (`ObjectModel.Value`). The exactness test is "an integer in [0, 2^32)".
- The generic object protocol of `ObjectInstance` is not part of this model. It is stated as the ECMA-262 5.1 algorithms: [[DefineOwnProperty]] (8.12.9) as `ObjectModel.BaseDefine`, and [[CanPut]] (8.12.4) as `ObjectModel.CanPut`. [[Delete]] (8.12.7) is `Arrays.ArrayInstance.Delete`. The prototype-chain lookup (`GetProperty`) becomes a parameter `inherited`.
- Arrays.ArrayInstance.Put: the setter of an accessor is a guest function. It is returned to the caller instead of being called (lines 66-67).
- `TryGetValue` (lines 449-468) resolves getters by calling guest functions, so it is not modelled.
- The thread-local key buffer (`KeyCache`, line 184) is modelled as a fresh snapshot of the keys. Sharing the buffer and concurrency are not modelled.
- Dictionary capacity hints (lines 31 and 527) have no observable effect and are dropped.
- Arrays.ArrayInstance.GetOwnProperties: returns the whole sequence at once. The lazy, one-shot iteration is not modelled, and neither is mutation of the array during iteration. The order of the generic entries, `length` included, is unspecified.
- Arrays.ArrayInstance.constructor: the `length` property is created by the array constructor function, which is not part of this model. The model starts `length` at 0, writable.
- Arrays.ArrayInstance.SetOwnProperty: requires a name other than "length". `length` is held as two fields, not as a descriptor that can be overwritten.
- Arrays.ArrayInstance.RemoveOwnProperty: requires a name other than "length", for the same reason.
- Arrays.ArrayInstance.GetOwnProperty, Arrays.ArrayInstance.HasOwnProperty, Arrays.ArrayInstance.SetOwnProperty, Arrays.ArrayInstance.RemoveOwnProperty, Arrays.ArrayInstance.DefineOwnProperty and Arrays.ArrayInstance.Put: on the property name "" they use the corrected codec and treat it as a non-index name. The source calls the as-written parse (lines 248, 316, 331, 343 and 356) and throws at line 377; see the first finding.
- Descriptors are values here. The source shares descriptor objects, and raises `length` by writing through the one stored as the `length` property (lines 273 and 421-422). The model has the same effect on `length`, but not the sharing of descriptor objects between callers.
- Arrays.ArrayInstance.EnsureCapacity: requires dense storage. The source has no such guard; it is only called on the dense path.
- Arrays.ArrayInstance.ShrinkSparse: on a refusal, states only which indices may be gone. The Dictionary order decides which keys came before the refusal.
- Arrays.ListingIsOwnProperties: excludes an element at 2^32 - 1. Only SetIndexValue can store one, and its decimal text is not an index name.
- Behaviour that does not depend on the representation is not proved in general. A refused occupied-only shrink can leave a different state from a top-down one.
- Errors: `TypeConverter.ToString` of a non-string `name` or `message` can run guest code. The model takes the converted text as given (`Errors.Property.Text`).
- Errors: the engine is not modelled. Of the `ErrorInstance` base constructor `base(engine, name)`, the model keeps only the stored name (the field `Errors.ErrorPrototype.name`). The error constructor object and the function object wrapping `ToString` are abstracted as the markers `ErrorConstructor` and `ToStringFunction` of `Errors.Slot`.
- Errors.InitialProperties: `NonEnumerablePropertyDescriptor` is not part of this model. Its writable and configurable flags are taken to be true.

## Findings

| source | as written | input that shows it | evidently intended | confidence | as-written member | corrected member |
|---|---|---|---|---|---|---|
| Jint/Native/Array/ArrayInstance.cs:377 | `p[0]` is read before the length of `p` is checked | the property name "" | "" is not an array index, so the sentinel is returned | high; not executed | ArrayIndex.ParseAsWritten | ArrayIndex.ParseArrayIndex |
| Jint/Native/Array/ArrayInstance.cs:345-347 | `_dense[index]` is read whenever index < length, even past the end of the buffer | a capacity-0 array whose `length` is defined as 5, then HasOwnProperty("0") | an index beyond the buffer is not an own property | high; not executed | Arrays.ArrayInstance.HasIndexAsWritten | Arrays.ArrayInstance.HasOwnProperty |
| Jint/Native/Error/ErrorPrototype.cs:50 | an undefined `name` is converted to "undefined" | toString on an object whose `name` is undefined and `message` is "bad" | "Error: bad", per step 4 of section 15.11.4.4 | medium; not executed | Errors.ErrorPrototype.ToStringAsWritten | Errors.ErrorPrototype.ToString |
