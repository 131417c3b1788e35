/**
 * The Error prototype objects: how each is created (its [[Prototype]], its
 * `constructor` and `message` properties), the `toString` method installed
 * on it, and the name/message combination of section 15.11.4.4 of ECMA-262
 * 5.1 that `toString` computes.
 */
module Errors {

  /** What `Get` returns for `name` or `message`: undefined, or a value whose ToString is `s`. */
  datatype Property = Undefined | Text(s: string)

  /** The `this` value of a `toString` call. */
  datatype Receiver = NotAnObject | Object(name: Property, message: Property)

  /** How `toString` ends: with a string, or by throwing a TypeError. */
  datatype Outcome = Returned(s: string) | ThrewTypeError

  /** The values stored on a prototype object. */
  datatype Slot = ErrorConstructor(id: nat) | EmptyString | ToStringFunction

  /** A data property with its three attributes. */
  datatype DataProperty = Data(value: Slot, writable: bool, enumerable: bool, configurable: bool)

  /** The two objects a prototype can inherit from. */
  datatype Proto = ObjectPrototype | ErrorPrototypeObject

  /**
   * The combination rule: the name alone when the message is empty, the
   * message alone when the name is empty, else "name: message".
   */
  function Combine(name: string, msg: string): (r: string)
    ensures name != "" ==> |r| >= |name| && r[..|name|] == name
    ensures msg != "" ==> |r| >= |msg| && r[|r| - |msg|..] == msg
    ensures |r| == |name| + |msg| + (if name != "" && msg != "" then 2 else 0)
  {
    if name == "" then msg
    else if msg == "" then name
    else name + ": " + msg
  }

  /** An undefined message reads as the empty string. */
  function MessageText(p: Property): (s: string)
    ensures p.Text? ==> s == p.s
    ensures p.Undefined? ==> s == ""
  {
    if p.Undefined? then "" else p.s
  }

  /** The name as the source reads it: ToString(undefined) is "undefined". */
  function NameTextAsWritten(p: Property): (s: string)
    ensures p.Text? ==> s == p.s
    ensures p.Undefined? ==> s == "undefined"
  {
    if p.Undefined? then "undefined" else p.s
  }

  /** The name as section 15.11.4.4 step 4 reads it: undefined becomes "Error". */
  function NameText(p: Property): (s: string)
    ensures p.Text? ==> s == p.s
    ensures p.Undefined? ==> s == "Error"
  {
    if p.Undefined? then "Error" else p.s
  }

  /** The prototype a new Error prototype object inherits from, by its name. */
  function PrototypeFor(name: string): (r: Proto)
    ensures r == ObjectPrototype <==> name == "Error"
  {
    if name != "Error" then ErrorPrototypeObject else ObjectPrototype
  }

  /** The properties every prototype object starts with. */
  function InitialProperties(errorConstructor: nat): (m: map<string, DataProperty>)
    ensures m.Keys == {"constructor", "message"}
    ensures !m["constructor"].enumerable && m["constructor"].value == ErrorConstructor(errorConstructor)
    ensures m["message"] == Data(EmptyString, true, false, true)
  {
    map["constructor" := Data(ErrorConstructor(errorConstructor), true, false, true),
        "message" := Data(EmptyString, true, false, true)]
  }

  /** An Error prototype object: its name, its own properties and its [[Prototype]]. */
  class ErrorPrototype {
    var name: string
    var extensible: bool
    var properties: map<string, DataProperty>
    var prototype: Proto

    /**
     * CreatePrototypeObject: an extensible object with a non-enumerable
     * `constructor`, a `message` of "" (writable, not enumerable,
     * configurable), inheriting from Object.prototype when named "Error"
     * and from Error.prototype otherwise.
     */
    constructor CreatePrototypeObject(errorConstructor: nat, name: string)
      ensures this.name == name && extensible
      ensures properties == InitialProperties(errorConstructor)
      ensures prototype == PrototypeFor(name)
    {
      this.name := name;
      extensible := true;
      var props := map["constructor" := Data(ErrorConstructor(errorConstructor), true, false, true)];
      props := props["message" := Data(EmptyString, true, false, true)];
      properties := props;
      if name != "Error" {
        prototype := ErrorPrototypeObject;
      } else {
        prototype := ObjectPrototype;
      }
    }

    /** Configure: installs `toString` (writable, not enumerable, configurable). */
    method Configure()
      modifies this
      ensures properties == old(properties)["toString" := Data(ToStringFunction, true, false, true)]
      ensures name == old(name) && extensible == old(extensible) && prototype == old(prototype)
    {
      properties := properties["toString" := Data(ToStringFunction, true, false, true)];
    }

    /**
     * Error.prototype.toString as the source computes it: a non-object
     * receiver throws TypeError; an undefined name reads as "undefined".
     */
    function ToStringAsWritten(thisObject: Receiver): (r: Outcome)
      ensures r.ThrewTypeError? <==> thisObject.NotAnObject?
      ensures thisObject.Object? ==>
        r == Returned(Combine(NameTextAsWritten(thisObject.name), MessageText(thisObject.message)))
    {
      match thisObject
      case NotAnObject => ThrewTypeError
      case Object(name, message) =>
        var n := NameTextAsWritten(name);
        var msg := MessageText(message);
        Returned(Combine(n, msg))
    }

    /**
     * Error.prototype.toString with section 15.11.4.4 step 4 applied: an
     * undefined name reads as "Error".
     */
    function ToString(thisObject: Receiver): (r: Outcome)
      ensures r.ThrewTypeError? <==> thisObject.NotAnObject?
      ensures thisObject.Object? ==>
        r == Returned(Combine(NameText(thisObject.name), MessageText(thisObject.message)))
    {
      match thisObject
      case NotAnObject => ThrewTypeError
      case Object(name, message) =>
        var n := NameText(name);
        var msg := MessageText(message);
        Returned(Combine(n, msg))
    }
  }

  /** The three cases of the combination, and the undefined message treated as empty. */
  lemma ToStringCases(p: ErrorPrototype, name: string, message: Property)
    ensures message.Undefined? ==> p.ToString(Object(Text(name), message)) == Returned(name)
    ensures name == "" ==> p.ToString(Object(Text(name), message)) == Returned(MessageText(message))
    ensures name != "" && MessageText(message) != "" ==>
      p.ToString(Object(Text(name), message)) == Returned(name + ": " + MessageText(message))
    ensures p.ToString(NotAnObject) == ThrewTypeError
  {
  }

  /**
   * Where the name is defined, the source and the corrected rule agree; with
   * an undefined name the source yields "undefined: m" instead of "Error: m".
   */
  lemma UndefinedNameDiffers(p: ErrorPrototype, o: Receiver)
    ensures o.NotAnObject? || o.name.Text? ==> p.ToStringAsWritten(o) == p.ToString(o)
    ensures p.ToStringAsWritten(Object(Undefined, Text("bad"))) == Returned("undefined: bad")
    ensures p.ToString(Object(Undefined, Text("bad"))) == Returned("Error: bad")
  {
  }

  /** The position of the first ':' in `s`, or |s| when there is none. */
  function FirstColon(s: string): (i: nat)
    ensures i <= |s| && (i < |s| ==> s[i] == ':')
    ensures forall j :: 0 <= j < i ==> s[j] != ':'
  {
    if s == [] then 0 else if s[0] == ':' then 0 else 1 + FirstColon(s[1..])
  }

  /** In "name: message" with a colon-free name, the first ':' sits right after the name. */
  lemma {:induction false} FirstColonOfCombine(name: string, rest: string)
    requires forall i :: 0 <= i < |name| ==> name[i] != ':'
    ensures FirstColon(name + ": " + rest) == |name|
  {
    if name != [] {
      assert (name + ": " + rest)[1..] == name[1..] + ": " + rest;
      FirstColonOfCombine(name[1..], rest);
    }
  }

  /**
   * A non-empty colon-free name and a non-empty message are recovered from
   * the combined text: the name is everything before the first ':'.
   */
  lemma CombineSplits(name: string, msg: string, n2: string, m2: string)
    requires name != "" && msg != "" && n2 != "" && m2 != ""
    requires forall i :: 0 <= i < |name| ==> name[i] != ':'
    requires forall i :: 0 <= i < |n2| ==> n2[i] != ':'
    requires Combine(name, msg) == Combine(n2, m2)
    ensures name == n2 && msg == m2
  {
    var r := Combine(name, msg);
    FirstColonOfCombine(name, msg);
    FirstColonOfCombine(n2, m2);
    assert name == r[..|name|] == n2;
    assert msg == r[|name| + 2..] == m2;
  }
}
