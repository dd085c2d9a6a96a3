/**
  The live object graph the inspector reads through reflection. An object carries its
  runtime type chain (the runtime type first, then each base type), and each level of the
  chain holds the fields, properties and methods a reflection query on that type finds: the
  ones it declares and the non-private ones it inherits (public, protected, internal); a base
  type's private members appear only at that base's level. Property getters and zero-argument
  methods are represented by the value they yield.
 */
module Reflection {
  import opened Wrappers
  import opened Text

  /** The CLR types the editor compares against (`typeof(int)`, `typeof(void)`, ...). */
  datatype RuntimeType =
    | TypeInt | TypeBool | TypeFloat | TypeString | TypeColor | TypeObject | TypeEnum
    | TypeVector2 | TypeVector3 | TypeVector4 | TypeRect | TypeAnimationCurve | TypeBounds
    | TypeUnityObject | TypeVector2Int | TypeVector3Int | TypeRectInt | TypeBoundsInt
    | TypeQuaternion | TypeVoid
    | TypeNamed(fullName: string)

  /** A runtime value: null, a boxed primitive, a string, or an object (possibly enumerable). */
  datatype Value =
    | Null
    | Bool(b: bool)
    | Int(i: int)
    | Char(c: char)
    | Str(s: string)
    | Other(text: string)
    | Obj(chain: seq<TypeLevel>, elements: Option<seq<Value>>)

  /** One level of a runtime type chain and the members a query on that type sees. */
  datatype TypeLevel = TypeLevel(
    typeName: string,
    fields: map<string, Value>,
    properties: seq<PropertyInfo>,
    methods: seq<MethodInfo>)

  datatype PropertyInfo = PropertyInfo(name: string, propertyType: RuntimeType, value: Value)

  /** `result` is what invoking the method yields (meaningful for zero-argument methods). */
  datatype MethodInfo = MethodInfo(name: string, returnType: RuntimeType, parameterTypes: seq<RuntimeType>, result: Value)

  /**
    What a value enumerates when GetValue_Imp casts it to IEnumerable: the items of a
    collection object, or the characters of a string; nothing for anything else.
   */
  function Elements(v: Value): (r: Option<seq<Value>>)
    ensures v.Str? ==> r.Some? && |r.value| == |v.s| && forall i :: 0 <= i < |v.s| ==> r.value[i] == Char(v.s[i])
    ensures v.Obj? ==> r == v.elements
    ensures !v.Str? && !v.Obj? ==> r.None?
  {
    match v
    case Str(s) => Some(seq(|s|, i requires 0 <= i < |s| => Char(s[i])))
    case Obj(_, items) => items
    case _ => None
  }

  /** Type.GetProperty(name, ... | IgnoreCase) on one level: the first property whose name matches ignoring case. */
  function PropertyIgnoringCase(properties: seq<PropertyInfo>, name: string): (r: Option<PropertyInfo>)
    ensures r.Some? ==> r.value in properties && EqualsIgnoreCase(r.value.name, name)
    ensures r.None? <==> forall k :: 0 <= k < |properties| ==> !EqualsIgnoreCase(properties[k].name, name)
    decreases |properties|
  {
    if properties == [] then None
    else if EqualsIgnoreCase(properties[0].name, name) then Some(properties[0])
    else PropertyIgnoringCase(properties[1..], name)
  }

  /** The position of the first occurrence of `name` in `names`, or -1 when there is none. */
  function FirstIndexOf(names: seq<string>, name: string): (r: int)
    ensures -1 <= r < |names|
    ensures r >= 0 ==> names[r] == name
    ensures r < 0 <==> name !in names
    decreases |names|
  {
    if names == [] then -1
    else if names[0] == name then 0
    else
      var rest := FirstIndexOf(names[1..], name);
      assert name in names <==> name in names[1..] by {
        assert names == [names[0]] + names[1..];
      }
      if rest < 0 then -1 else rest + 1
  }

  /** No earlier position holds the name. */
  lemma {:induction false} FirstIndexOfIsFirst(names: seq<string>, name: string)
    ensures var r := FirstIndexOf(names, name);
      forall k :: 0 <= k < |names| && (r < 0 || k < r) ==> names[k] != name
    decreases |names|
  {
    if names != [] && names[0] != name {
      FirstIndexOfIsFirst(names[1..], name);
      assert forall k :: 0 < k < |names| ==> names[k] == names[1..][k - 1];
    }
  }

  /** The first level, from the runtime type towards its bases, whose names include `name`; -1 when none does. */
  function FirstLevelWith(levels: seq<seq<string>>, name: string): (r: int)
    ensures -1 <= r < |levels|
    ensures r >= 0 ==> name in levels[r]
    decreases |levels|
  {
    if levels == [] then -1
    else if name in levels[0] then 0
    else
      var rest := FirstLevelWith(levels[1..], name);
      if rest < 0 then -1 else rest + 1
  }

  /** No earlier level holds the name, and -1 means that no level does. */
  lemma {:induction false} FirstLevelWithIsFirst(levels: seq<seq<string>>, name: string)
    ensures var r := FirstLevelWith(levels, name);
      forall j :: 0 <= j < |levels| && (r < 0 || j < r) ==> name !in levels[j]
    decreases |levels|
  {
    if levels != [] && name !in levels[0] {
      FirstLevelWithIsFirst(levels[1..], name);
      assert forall j :: 0 < j < |levels| ==> levels[j] == levels[1..][j - 1];
    }
  }

  /** `levels[j][k]` is the first `name` of all the levels, read level by level. */
  predicate FirstNameAt(levels: seq<seq<string>>, name: string, j: int, k: int) {
    0 <= j < |levels| && 0 <= k < |levels[j]| && levels[j][k] == name
    && (forall i :: 0 <= i < k ==> levels[j][i] != name)
    && (forall l :: 0 <= l < j ==> name !in levels[l])
  }

  /** The two-step search finds the first occurrence, and finds nothing exactly when no level has the name. */
  lemma FirstNameFound(levels: seq<seq<string>>, name: string)
    ensures FirstLevelWith(levels, name) < 0 <==> forall j :: 0 <= j < |levels| ==> name !in levels[j]
    ensures forall j, k :: FirstNameAt(levels, name, j, k) ==>
      FirstLevelWith(levels, name) == j && FirstIndexOf(levels[j], name) == k
  {
    FirstLevelWithIsFirst(levels, name);
    forall j, k | FirstNameAt(levels, name, j, k)
      ensures FirstLevelWith(levels, name) == j && FirstIndexOf(levels[j], name) == k
    {
      assert name in levels[j];
      FirstIndexOfIsFirst(levels[j], name);
    }
  }

  /** The property names of each level of the chain. */
  function PropertyLevels(chain: seq<TypeLevel>): (levels: seq<seq<string>>)
    ensures |levels| == |chain|
    decreases |chain|
  {
    if chain == [] then [] else [PropertyNames(chain[0].properties)] + PropertyLevels(chain[1..])
  }

  function PropertyNames(properties: seq<PropertyInfo>): (names: seq<string>)
    ensures |names| == |properties|
    decreases |properties|
  {
    if properties == [] then [] else [properties[0].name] + PropertyNames(properties[1..])
  }

  /** The method names of each level of the chain. */
  function MethodLevels(chain: seq<TypeLevel>): (levels: seq<seq<string>>)
    ensures |levels| == |chain|
    decreases |chain|
  {
    if chain == [] then [] else [MethodNames(chain[0].methods)] + MethodLevels(chain[1..])
  }

  function MethodNames(methods: seq<MethodInfo>): (names: seq<string>)
    ensures |names| == |methods|
    decreases |methods|
  {
    if methods == [] then [] else [methods[0].name] + MethodNames(methods[1..])
  }

  /** Each level's names are the names of its properties, position by position. */
  lemma {:induction false} PropertyLevelsNames(chain: seq<TypeLevel>)
    ensures forall j :: 0 <= j < |chain| ==> |PropertyLevels(chain)[j]| == |chain[j].properties|
    ensures forall j, k :: 0 <= j < |chain| && 0 <= k < |chain[j].properties| ==>
      PropertyLevels(chain)[j][k] == chain[j].properties[k].name
    decreases |chain|
  {
    if chain != [] {
      PropertyLevelsNames(chain[1..]);
      PropertyNamesAt(chain[0].properties);
      assert forall j :: 0 < j < |chain| ==> chain[j] == chain[1..][j - 1] && PropertyLevels(chain)[j] == PropertyLevels(chain[1..])[j - 1];
    }
  }

  lemma {:induction false} PropertyNamesAt(properties: seq<PropertyInfo>)
    ensures forall k :: 0 <= k < |properties| ==> PropertyNames(properties)[k] == properties[k].name
    decreases |properties|
  {
    if properties != [] {
      PropertyNamesAt(properties[1..]);
      assert forall k :: 0 < k < |properties| ==> properties[k] == properties[1..][k - 1];
    }
  }

  /** Each level's names are the names of its methods, position by position. */
  lemma {:induction false} MethodLevelsNames(chain: seq<TypeLevel>)
    ensures forall j :: 0 <= j < |chain| ==> |MethodLevels(chain)[j]| == |chain[j].methods|
    ensures forall j, k :: 0 <= j < |chain| && 0 <= k < |chain[j].methods| ==>
      MethodLevels(chain)[j][k] == chain[j].methods[k].name
    decreases |chain|
  {
    if chain != [] {
      MethodLevelsNames(chain[1..]);
      MethodNamesAt(chain[0].methods);
      assert forall j :: 0 < j < |chain| ==> chain[j] == chain[1..][j - 1] && MethodLevels(chain)[j] == MethodLevels(chain[1..])[j - 1];
    }
  }

  lemma {:induction false} MethodNamesAt(methods: seq<MethodInfo>)
    ensures forall k :: 0 <= k < |methods| ==> MethodNames(methods)[k] == methods[k].name
    decreases |methods|
  {
    if methods != [] {
      MethodNamesAt(methods[1..]);
      assert forall k :: 0 < k < |methods| ==> methods[k] == methods[1..][k - 1];
    }
  }

  /**
    ReflectionUtility.GetProperty(target, name): the first property of exactly that name along the
    object's type chain, derived types first; none for a value that is not an object. What the
    search finds is stated by ReflectedPropertyFirst.
   */
  function ReflectedProperty(target: Value, name: string): (r: Option<PropertyInfo>)
    ensures r.Some? ==> target.Obj? && r.value.name == name
  {
    match target
    case Obj(chain, _) =>
      var levels := PropertyLevels(chain);
      PropertyLevelsNames(chain);
      var j := FirstLevelWith(levels, name);
      if j < 0 then None
      else
        var k := FirstIndexOf(levels[j], name);
        Some(chain[j].properties[k])
    case _ => None
  }

  /**
    The property found is one of the chain's, it is the first of that name (by level, then by
    position), and there is none exactly when the target is not an object or no level has the name.
   */
  lemma ReflectedPropertyFirst(target: Value, name: string)
    ensures var r := ReflectedProperty(target, name);
      r.Some? ==> exists j, k :: 0 <= j < |target.chain| && 0 <= k < |target.chain[j].properties| && target.chain[j].properties[k] == r.value
    ensures ReflectedProperty(target, name).None? <==> (!target.Obj? ||
      forall j, k :: 0 <= j < |target.chain| && 0 <= k < |target.chain[j].properties| ==> target.chain[j].properties[k].name != name)
    ensures target.Obj? ==>
      forall j, k :: 0 <= j < |target.chain| && 0 <= k < |target.chain[j].properties| && FirstNameAt(PropertyLevels(target.chain), name, j, k) ==> ReflectedProperty(target, name) == Some(target.chain[j].properties[k])
  {
    if target.Obj? {
      var levels := PropertyLevels(target.chain);
      PropertyLevelsNames(target.chain);
      FirstNameFound(levels, name);
      var j := FirstLevelWith(levels, name);
      if j >= 0 {
        var k := FirstIndexOf(levels[j], name);
        assert ReflectedProperty(target, name) == Some(target.chain[j].properties[k]);
      } else {
        forall j, k | 0 <= j < |target.chain| && 0 <= k < |target.chain[j].properties|
          ensures target.chain[j].properties[k].name != name
        {
          assert levels[j][k] == target.chain[j].properties[k].name;
        }
      }
    }
  }

  /**
    ReflectionUtility.GetMethod(target, name): the first method of exactly that name along the
    object's type chain, derived types first; none for a value that is not an object. What the
    search finds is stated by ReflectedMethodFirst.
   */
  function ReflectedMethod(target: Value, name: string): (r: Option<MethodInfo>)
    ensures r.Some? ==> target.Obj? && r.value.name == name
  {
    match target
    case Obj(chain, _) =>
      var levels := MethodLevels(chain);
      MethodLevelsNames(chain);
      var j := FirstLevelWith(levels, name);
      if j < 0 then None
      else
        var k := FirstIndexOf(levels[j], name);
        Some(chain[j].methods[k])
    case _ => None
  }

  /**
    The method found is one of the chain's, it is the first of that name (by level, then by
    position), and there is none exactly when the target is not an object or no level has the name.
   */
  lemma ReflectedMethodFirst(target: Value, name: string)
    ensures var r := ReflectedMethod(target, name);
      r.Some? ==> exists j, k :: 0 <= j < |target.chain| && 0 <= k < |target.chain[j].methods| && target.chain[j].methods[k] == r.value
    ensures ReflectedMethod(target, name).None? <==> (!target.Obj? ||
      forall j, k :: 0 <= j < |target.chain| && 0 <= k < |target.chain[j].methods| ==> target.chain[j].methods[k].name != name)
    ensures target.Obj? ==>
      forall j, k :: 0 <= j < |target.chain| && 0 <= k < |target.chain[j].methods| && FirstNameAt(MethodLevels(target.chain), name, j, k) ==> ReflectedMethod(target, name) == Some(target.chain[j].methods[k])
  {
    if target.Obj? {
      var levels := MethodLevels(target.chain);
      MethodLevelsNames(target.chain);
      FirstNameFound(levels, name);
      var j := FirstLevelWith(levels, name);
      if j >= 0 {
        var k := FirstIndexOf(levels[j], name);
        assert ReflectedMethod(target, name) == Some(target.chain[j].methods[k]);
      } else {
        forall j, k | 0 <= j < |target.chain| && 0 <= k < |target.chain[j].methods|
          ensures target.chain[j].methods[k].name != name
        {
          assert levels[j][k] == target.chain[j].methods[k].name;
        }
      }
    }
  }
}
