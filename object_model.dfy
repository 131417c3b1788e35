/**
 * The generic object protocol that the array exotic object builds on:
 * guest values, property descriptors with tri-state attributes, the
 * completion of an operation (normal or a thrown guest error), and the
 * generic algorithms the array layer delegates to. The generic algorithms
 * are collaborators whose code is not part of this model; they are given
 * here as the ECMA-262 5.1 algorithms they implement ([[DefineOwnProperty]]
 * of section 8.12.9, [[CanPut]] of section 8.12.4).
 */
module ObjectModel {

  import opened Options

  /**
   * A guest value. Only what the array layer inspects is modelled: whether a
   * value is undefined and whether it is an integer. `Other` stands for every
   * value whose numeric conversion is not an integer (fractions, NaN,
   * non-numeric strings, objects, functions), told apart by a tag.
   */
  datatype Value = Undefined | Integer(i: int) | Other(tag: nat)

  /** A descriptor attribute: absent from the descriptor, or present with a flag. */
  datatype Attr = Unset | Set(flag: bool)

  /**
   * A property descriptor as in section 8.10: every field optional. A stored
   * property has all the fields of its kind present.
   */
  datatype Descriptor = Descriptor(
    value: Option<Value>,
    writable: Attr,
    getter: Option<Value>,
    setter: Option<Value>,
    enumerable: Attr,
    configurable: Attr)

  /** The guest-visible error classes of this layer. */
  datatype ErrorKind = TypeError | RangeError

  /** How a protocol call ends: normally with a success flag, or with a thrown error. */
  datatype Completion = Normal(ok: bool) | Throw(error: ErrorKind)

  /** A refusal: thrown as TypeError when the caller asked for it, else reported as false. */
  function Refuse(throwOnError: bool): (c: Completion)
    ensures throwOnError <==> c.Throw?
    ensures c == Throw(TypeError) || c == Normal(false)
  {
    if throwOnError then Throw(TypeError) else Normal(false)
  }

  function Flag(a: Attr, default: bool): bool {
    if a.Set? then a.flag else default
  }

  predicate IsAccessor(d: Descriptor) {
    d.getter.Some? || d.setter.Some?
  }

  predicate IsData(d: Descriptor) {
    d.value.Some? || d.writable.Set?
  }

  predicate IsGeneric(d: Descriptor) {
    !IsAccessor(d) && !IsData(d)
  }

  predicate Configurable(d: Descriptor) {
    d.configurable == Set(true)
  }

  /** A descriptor carrying only a value, all attributes unset (used when a value is overwritten). */
  function ValueOnly(v: Value): Descriptor {
    Descriptor(Some(v), Unset, None, None, Unset, Unset)
  }

  /** A new writable, enumerable, configurable data property. */
  function DefaultData(v: Value): Descriptor {
    Descriptor(Some(v), Set(true), None, None, Set(true), Set(true))
  }

  /** A data property with every attribute present. */
  function DataProperty(v: Value, writable: bool, enumerable: bool, configurable: bool): Descriptor {
    Descriptor(Some(v), Set(writable), None, None, Set(enumerable), Set(configurable))
  }

  /** The `length` property of an array: a non-enumerable, non-configurable data property. */
  function LengthDescriptor(n: nat, writable: bool): Descriptor {
    DataProperty(Integer(n), writable, false, false)
  }

  /**
   * The exactness test of section 15.4.5.1 step 3.c-d: ToUint32(v) equals
   * ToNumber(v) exactly when v is an integer in [0, 2^32).
   */
  function ExactLength(v: Value): (r: Option<nat>)
    ensures r.Some? <==> v.Integer? && 0 <= v.i < 0x1_0000_0000
    ensures r.Some? ==> v == Integer(r.value)
  {
    if v.Integer? && 0 <= v.i < 0x1_0000_0000 then Some(v.i) else None
  }

  /** The property created for a descriptor when there was none (section 8.12.9 step 4). */
  function Created(desc: Descriptor): Descriptor {
    if IsAccessor(desc) && !IsData(desc) then
      Descriptor(None, Unset, Some(desc.getter.GetOr(Undefined)), Some(desc.setter.GetOr(Undefined)),
                 Set(Flag(desc.enumerable, false)), Set(Flag(desc.configurable, false)))
    else
      Descriptor(Some(desc.value.GetOr(Undefined)), Set(Flag(desc.writable, false)), None, None,
                 Set(Flag(desc.enumerable, false)), Set(Flag(desc.configurable, false)))
  }

  /** Every field present in `desc` replaces the one in `current` (section 8.12.9 step 12). */
  function Merge(current: Descriptor, desc: Descriptor): Descriptor {
    Descriptor(
      if desc.value.Some? then desc.value else current.value,
      if desc.writable.Set? then desc.writable else current.writable,
      if desc.getter.Some? then desc.getter else current.getter,
      if desc.setter.Some? then desc.setter else current.setter,
      if desc.enumerable.Set? then desc.enumerable else current.enumerable,
      if desc.configurable.Set? then desc.configurable else current.configurable)
  }

  /** Section 8.12.9 step 9: a configurable property changes kind, keeping enumerable and configurable. */
  function Converted(current: Descriptor): Descriptor {
    if IsData(current) then
      Descriptor(None, Unset, Some(Undefined), Some(Undefined), current.enumerable, current.configurable)
    else
      Descriptor(Some(Undefined), Set(false), None, None, current.enumerable, current.configurable)
  }

  /** Section 8.12.9 steps 7-11: the redefinitions a non-configurable property refuses. */
  predicate Rejects(current: Descriptor, desc: Descriptor) {
    !Configurable(current) &&
    (|| desc.configurable == Set(true)
     || (desc.enumerable.Set? && desc.enumerable != current.enumerable)
     || (!IsGeneric(desc) && IsData(current) != IsData(desc))
     || (!IsGeneric(desc) && IsData(current) && IsData(desc) && current.writable != Set(true)
         && (desc.writable == Set(true) || (desc.value.Some? && desc.value != current.value)))
     || (!IsGeneric(desc) && !IsData(current) && !IsData(desc)
         && ((desc.setter.Some? && desc.setter != current.setter) || (desc.getter.Some? && desc.getter != current.getter))))
  }

  /**
   * The generic [[DefineOwnProperty]] of section 8.12.9, as a collaborator:
   * given what is stored under the key (if anything), the requested
   * descriptor and the object's extensibility, the property to store, or
   * None when the definition is refused.
   */
  function BaseDefine(current: Option<Descriptor>, desc: Descriptor, extensible: bool): Option<Descriptor> {
    match current
    case None => if extensible then Some(Created(desc)) else None
    case Some(c) =>
      if Rejects(c, desc) then None
      else if !IsGeneric(desc) && IsData(c) != IsData(desc) then Some(Merge(Converted(c), desc))
      else Some(Merge(c, desc))
  }

  /** A new key is accepted exactly when the object is extensible. */
  lemma BaseDefineNewKey(desc: Descriptor, extensible: bool)
    ensures BaseDefine(None, desc, extensible).Some? <==> extensible
    ensures extensible && IsData(desc) ==>
      BaseDefine(None, desc, true) == Some(Descriptor(Some(desc.value.GetOr(Undefined)), Set(Flag(desc.writable, false)),
        None, None, Set(Flag(desc.enumerable, false)), Set(Flag(desc.configurable, false))))
  {
  }

  /** A configurable property accepts every redefinition, keeping each requested field. */
  lemma BaseDefineConfigurable(c: Descriptor, desc: Descriptor, extensible: bool)
    requires Configurable(c)
    ensures BaseDefine(Some(c), desc, extensible).Some?
  {
  }

  /**
   * An accepted definition stores every field the request carries, and
   * defining the stored property again changes nothing.
   */
  lemma BaseDefineStoresRequest(current: Option<Descriptor>, desc: Descriptor, extensible: bool)
    requires BaseDefine(current, desc, extensible).Some?
    ensures var r := BaseDefine(current, desc, extensible).value;
      && (desc.value.Some? ==> r.value == desc.value)
      && (desc.writable.Set? ==> r.writable == desc.writable)
      && (desc.enumerable.Set? ==> r.enumerable == desc.enumerable)
      && (desc.configurable.Set? ==> r.configurable == desc.configurable)
      && (!(IsAccessor(desc) && IsData(desc)) && desc.getter.Some? ==> r.getter == desc.getter)
      && (!(IsAccessor(desc) && IsData(desc)) && desc.setter.Some? ==> r.setter == desc.setter)
      && BaseDefine(Some(r), r, extensible) == Some(r)
  {
  }

  /** A non-configurable, non-writable data property is frozen: its value and attributes stay. */
  lemma BaseDefineFrozen(c: Descriptor, desc: Descriptor, extensible: bool)
    requires IsData(c) && !IsAccessor(c) && c.configurable == Set(false) && c.writable == Set(false)
    requires BaseDefine(Some(c), desc, extensible).Some?
    ensures var r := BaseDefine(Some(c), desc, extensible).value;
      r.value == c.value && r.writable == c.writable && r.enumerable == c.enumerable && r.configurable == c.configurable
  {
  }

  /**
   * The generic define applied to an array's `length` property. `desc`
   * carries no value, or one already coerced to an unsigned 32-bit integer.
   * Gives the new (value, writable) pair, or None when refused.
   */
  function DefineLength(len: nat, writable: bool, desc: Descriptor): (r: Option<(nat, bool)>)
    requires desc.value.None? || (desc.value.value.Integer? && desc.value.value.i >= 0)
  {
    if desc.configurable == Set(true) || desc.enumerable == Set(true) then None
    else if IsAccessor(desc) && !IsData(desc) then None
    else if !writable && (desc.writable == Set(true) || (desc.value.Some? && desc.value != Some(Integer(len)))) then None
    else Some((if desc.value.Some? then desc.value.value.i else len, Flag(desc.writable, writable)))
  }

  /** DefineLength is the generic define on the `length` descriptor, in both directions. */
  lemma DefineLengthIsBaseDefine(len: nat, writable: bool, desc: Descriptor, extensible: bool)
    requires desc.value.None? || (desc.value.value.Integer? && desc.value.value.i >= 0)
    requires (desc.getter.None? && desc.setter.None?) || !IsData(desc)
    ensures DefineLength(len, writable, desc).Some? <==>
            BaseDefine(Some(LengthDescriptor(len, writable)), desc, extensible).Some?
    ensures DefineLength(len, writable, desc).Some? ==>
            var (n, w) := DefineLength(len, writable, desc).value;
            BaseDefine(Some(LengthDescriptor(len, writable)), desc, extensible) == Some(LengthDescriptor(n, w))
  {
  }

  /**
   * The generic [[CanPut]] of section 8.12.4, given the own property, the
   * property found on the prototype chain and the extensibility flag.
   */
  function CanPut(own: Option<Descriptor>, inherited: Option<Descriptor>, extensible: bool): bool {
    match own
    case Some(d) =>
      if IsAccessor(d) then d.setter.Some? && d.setter != Some(Undefined) else d.writable == Set(true)
    case None =>
      match inherited
      case None => extensible
      case Some(d) =>
        if IsAccessor(d) then d.setter.Some? && d.setter != Some(Undefined)
        else extensible && d.writable == Set(true)
  }
}
