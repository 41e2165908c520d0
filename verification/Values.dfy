/** The optional and fallible results used across the model. */
module Wrappers {
  datatype Option<+T> = None | Some(value: T) {
    function GetOr(default: T): T {
      if None? then default else value
    }
  }

  datatype Result<+T, +E> = Ok(value: T) | Err(error: E)
}

/**
 Decoded YAML documents (`map[string]any` trees) and the locations inside them.
 A document is determined by what sits at each of its locations.
 */
module Values {
  import opened Wrappers

  datatype Value =
    | Null
    | Bool(b: bool)
    | Num(n: int)
    | Str(s: string)
    | List(items: seq<Value>)
    | Map(fields: map<string, Value>)

  type Object = map<string, Value>

  /** One step into a document: a key of a map or a position of an array. */
  datatype Step = Field(key: string) | Elem(index: nat)

  /** What a location holds, without what lies below it. */
  datatype Tag = MapTag | ListTag(len: nat) | Scalar(v: Value)

  function TagOf(v: Value): Tag {
    match v
    case Map(_) => MapTag
    case List(items) => ListTag(|items|)
    case _ => Scalar(v)
  }

  /** The value reached by following `loc`, if every step exists. */
  function At(v: Value, loc: seq<Step>): Option<Value>
    decreases |loc|
  {
    if loc == [] then Some(v)
    else
      match loc[0]
      case Field(k) => if v.Map? && k in v.fields then At(v.fields[k], loc[1..]) else None
      case Elem(i) => if v.List? && i < |v.items| then At(v.items[i], loc[1..]) else None
  }

  function TagAt(v: Value, loc: seq<Step>): Option<Tag> {
    var r := At(v, loc);
    if r.Some? then Some(TagOf(r.value)) else None
  }

  /** The document has this string at the location. */
  predicate HoldsText(o: Object, loc: seq<Step>, text: string) {
    TagAt(Map(o), loc) == Some(Scalar(Str(text)))
  }

  /** The location that a list of keys leads to. */
  function FieldSteps(keys: seq<string>): (loc: seq<Step>)
    ensures |loc| == |keys| && forall i :: 0 <= i < |keys| ==> loc[i] == Field(keys[i])
  {
    if keys == [] then [] else [Field(keys[0])] + FieldSteps(keys[1..])
  }

  lemma {:induction false} AtOneStep(v: Value, step: Step)
    ensures At(v, [step]) ==
      match step
      case Field(k) => if v.Map? && k in v.fields then Some(v.fields[k]) else None
      case Elem(i) => if v.List? && i < |v.items| then Some(v.items[i]) else None
  {
    assert [step][1..] == [];
  }

  /** Two documents with the same tag at every location are equal. */
  lemma {:induction false} SameTagsSameValue(a: Value, b: Value)
    requires forall loc :: TagAt(a, loc) == TagAt(b, loc)
    ensures a == b
    decreases a
  {
    assert TagAt(a, []) == TagAt(b, []);
    match a {
      case Map(m) =>
        forall k | k in m || k in b.fields ensures k in m && k in b.fields && m[k] == b.fields[k] {
          assert TagAt(a, [Field(k)]) == TagAt(b, [Field(k)]);
          AtOneStep(a, Field(k));
          AtOneStep(b, Field(k));
          SameTagsBelow(a, b, Field(k));
          SameTagsSameValue(m[k], b.fields[k]);
        }
        assert m == b.fields;
      case List(items) =>
        forall i | 0 <= i < |items| ensures items[i] == b.items[i] {
          AtOneStep(a, Elem(i));
          AtOneStep(b, Elem(i));
          SameTagsBelow(a, b, Elem(i));
          SameTagsSameValue(items[i], b.items[i]);
        }
      case _ =>
    }
  }

  lemma {:induction false} SameTagsBelow(a: Value, b: Value, step: Step)
    requires forall loc :: TagAt(a, loc) == TagAt(b, loc)
    requires At(a, [step]).Some? && At(b, [step]).Some?
    ensures forall loc :: TagAt(At(a, [step]).value, loc) == TagAt(At(b, [step]).value, loc)
  {
    forall loc ensures TagAt(At(a, [step]).value, loc) == TagAt(At(b, [step]).value, loc) {
      assert ([step] + loc)[1..] == loc && [step][1..] == [];
      assert TagAt(a, [step] + loc) == TagAt(b, [step] + loc);
    }
  }
}
