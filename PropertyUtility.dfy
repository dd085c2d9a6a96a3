/**
  The editor's property utility: reading a field's attributes and label, classifying its
  serialized type, resolving a serialized property path through the object graph, evaluating
  EnableIf/ShowIf conditions against the field's owner, and dispatching value-change callbacks.
 */
module PropertyUtility {
  import opened Wrappers
  import opened Text
  import opened Reflection
  import opened Serialization

  // ---------------------------------------------------------------------------
  // Attributes and label

  /** The attributes of `kind` among `attrs`, in declaration order. */
  function OfKind(attrs: seq<Attribute>, kind: AttributeKind): (r: seq<Attribute>)
    ensures |r| <= |attrs|
    decreases |attrs|
  {
    if attrs == [] then []
    else (if attrs[0].Kind() == kind then [attrs[0]] else []) + OfKind(attrs[1..], kind)
  }

  /** The attributes kept are exactly the declared ones of that kind. */
  lemma {:induction false} OfKindMembers(attrs: seq<Attribute>, kind: AttributeKind)
    ensures forall a :: a in OfKind(attrs, kind) <==> a in attrs && a.Kind() == kind
    decreases |attrs|
  {
    if attrs != [] {
      OfKindMembers(attrs[1..], kind);
      assert forall a :: a in attrs <==> a == attrs[0] || a in attrs[1..];
    }
  }

  /** `attrs[i]` is the first attribute of `kind` declared. */
  predicate FirstOfKindAt(attrs: seq<Attribute>, kind: AttributeKind, i: int) {
    0 <= i < |attrs| && attrs[i].Kind() == kind && forall j :: 0 <= j < i ==> attrs[j].Kind() != kind
  }

  lemma {:induction false} OfKindStartsWithFirst(attrs: seq<Attribute>, kind: AttributeKind, i: int)
    requires FirstOfKindAt(attrs, kind, i)
    ensures |OfKind(attrs, kind)| > 0 && OfKind(attrs, kind)[0] == attrs[i]
    decreases |attrs|
  {
    if i > 0 {
      assert attrs[0].Kind() != kind;
      assert FirstOfKindAt(attrs[1..], kind, i - 1) by {
        forall j | 0 <= j < i - 1 ensures attrs[1..][j].Kind() != kind {
          assert attrs[1..][j] == attrs[j + 1];
        }
      }
      OfKindStartsWithFirst(attrs[1..], kind, i - 1);
    }
  }

  /** Filtering keeps the declaration order: the filter of a concatenation is the concatenation of the filters. */
  lemma {:induction false} OfKindAppend(a: seq<Attribute>, b: seq<Attribute>, kind: AttributeKind)
    ensures OfKind(a + b, kind) == OfKind(a, kind) + OfKind(b, kind)
    decreases |a|
  {
    if a == [] {
      assert a + b == b;
    } else {
      var x, rest := a[0], a[1..];
      assert (a + b)[0] == x && (a + b)[1..] == rest + b;
      OfKindAppend(rest, b, kind);
      if x.Kind() == kind {
        assert OfKind(a + b, kind) == [x] + OfKind(rest + b, kind);
        assert OfKind(a, kind) == [x] + OfKind(rest, kind);
        assert [x] + (OfKind(rest, kind) + OfKind(b, kind)) == ([x] + OfKind(rest, kind)) + OfKind(b, kind);
      } else {
        assert OfKind(a + b, kind) == [] + OfKind(rest + b, kind) == OfKind(rest + b, kind);
        assert OfKind(a, kind) == [] + OfKind(rest, kind) == OfKind(rest, kind);
      }
    }
  }

  /** GetAttributes<T>: the attributes of `kind` on the backing field; none when the bridge finds no field. */
  function GetAttributes(p: SerializedProperty, kind: AttributeKind): (r: seq<Attribute>)
    ensures p.memberAttributes.None? ==> r == []
    ensures p.memberAttributes.Some? ==> forall a :: a in r <==> a in p.memberAttributes.value && a.Kind() == kind
    ensures forall k :: 0 <= k < |r| ==> r[k].Kind() == kind
  {
    match p.memberAttributes
    case None => []
    case Some(attrs) =>
      OfKindMembers(attrs, kind);
      var r := OfKind(attrs, kind);
      assert forall k :: 0 <= k < |r| ==> r[k] in r;
      r
  }

  /** GetAttribute<T>: the first attribute of `kind` declared on the backing field, if any. */
  function GetAttribute(p: SerializedProperty, kind: AttributeKind): (r: Option<Attribute>)
    ensures r.Some? ==> r.value.Kind() == kind
  {
    var all := GetAttributes(p, kind);
    if |all| > 0 then Some(all[0]) else None
  }

  /** The attribute found is the first one of its kind in declaration order, and there is none only when none is declared. */
  lemma GetAttributeIsFirstDeclared(p: SerializedProperty, kind: AttributeKind)
    ensures GetAttribute(p, kind).None? <==>
      p.memberAttributes.None? || forall a :: a in p.memberAttributes.value ==> a.Kind() != kind
    ensures p.memberAttributes.Some? ==>
      forall i :: FirstOfKindAt(p.memberAttributes.value, kind, i) ==> GetAttribute(p, kind) == Some(p.memberAttributes.value[i])
  {
    if p.memberAttributes.Some? {
      forall i | FirstOfKindAt(p.memberAttributes.value, kind, i)
        ensures GetAttribute(p, kind) == Some(p.memberAttributes.value[i])
      {
        OfKindStartsWithFirst(p.memberAttributes.value, kind, i);
      }
    }
  }

  /** GetLabel: the text of the first Label attribute, or the property's display name when it has none. */
  function GetLabel(p: SerializedProperty): (r: string)
    ensures GetAttribute(p, LabelKind).None? ==> r == p.displayName
  {
    match GetAttribute(p, LabelKind)
    case None => p.displayName
    case Some(a) => a.text
  }

  /** The label is the text of the first Label attribute declared, and the display name when none is declared. */
  lemma GetLabelIsFirstLabel(p: SerializedProperty)
    ensures p.memberAttributes.None? ==> GetLabel(p) == p.displayName
    ensures p.memberAttributes.Some? && (forall a :: a in p.memberAttributes.value ==> a.Kind() != LabelKind) ==>
      GetLabel(p) == p.displayName
    ensures p.memberAttributes.Some? ==>
      forall i :: FirstOfKindAt(p.memberAttributes.value, LabelKind, i) ==> p.memberAttributes.value[i] == Label(GetLabel(p))
  {
    if p.memberAttributes.Some? {
      var attrs := p.memberAttributes.value;
      if forall a :: a in attrs ==> a.Kind() != LabelKind {
        GetAttributeIsFirstDeclared(p, LabelKind);
      }
      forall i | FirstOfKindAt(attrs, LabelKind, i) ensures attrs[i] == Label(GetLabel(p)) {
        OfKindStartsWithFirst(attrs, LabelKind, i);
        assert GetAttribute(p, LabelKind) == Some(attrs[i]);
      }
    }
  }

  // ---------------------------------------------------------------------------
  // Serialized type and value

  /** GetPropertyType: the CLR type of a field of this serialized type, or nothing when it cannot be classified. */
  function GetPropertyType(p: SerializedProperty): (r: Option<RuntimeType>)
    ensures r.None? <==>
      p.propertyType.Gradient? || p.propertyType.Generic? || p.propertyType.ManagedReference? || p.propertyType.Unlisted?
    ensures r == Some(TypeInt) <==>
      p.propertyType.Integer? || p.propertyType.LayerMask? || p.propertyType.ArraySize?
      || p.propertyType.Character? || p.propertyType.FixedBufferSize?
  {
    match p.propertyType
    case Integer => Some(TypeInt)
    case Boolean => Some(TypeBool)
    case Float => Some(TypeFloat)
    case String => Some(TypeString)
    case Color => Some(TypeColor)
    case ObjectReference => Some(TypeObject)
    case LayerMask => Some(TypeInt)
    case Enum => Some(TypeEnum)
    case Vector2 => Some(TypeVector2)
    case Vector3 => Some(TypeVector3)
    case Vector4 => Some(TypeVector4)
    case Rect => Some(TypeRect)
    case ArraySize => Some(TypeInt)
    case Character => Some(TypeInt)
    case AnimationCurve => Some(TypeAnimationCurve)
    case Bounds => Some(TypeBounds)
    case ExposedReference => Some(TypeUnityObject)
    case Vector2Int => Some(TypeVector2Int)
    case Vector3Int => Some(TypeVector3Int)
    case RectInt => Some(TypeRectInt)
    case BoundsInt => Some(TypeBoundsInt)
    case FixedBufferSize => Some(TypeInt)
    case Quaternion => Some(TypeQuaternion)
    case Gradient => None
    case Generic => None
    case ManagedReference => None
    case Unlisted(_) => None
  }

  /**
    GetPropertyValue: the value of the property's typed accessor, or the InvalidOperationException
    message for a serialized type it does not support. It fails exactly for the types
    GetPropertyType cannot classify.
   */
  function GetPropertyValue(p: SerializedProperty): (r: Result<Value, string>)
    ensures r.Success? <==> GetPropertyType(p).Some?
    ensures r.Success? ==> r.value == p.current
    ensures r.Failure? ==> r.error == "Property type $" + p.typeName + " is not supported"
  {
    match p.propertyType
    case Integer | Boolean | Float | String | Color | ObjectReference | LayerMask | Enum
      | Vector2 | Vector3 | Vector4 | Rect | ArraySize | Character | AnimationCurve | Bounds
      | ExposedReference | Vector2Int | Vector3Int | RectInt | BoundsInt | FixedBufferSize | Quaternion =>
      Success(p.current)
    case ManagedReference | Generic | Gradient | Unlisted(_) =>
      Failure("Property type $" + p.typeName + " is not supported")
  }

  // ---------------------------------------------------------------------------
  // Property paths

  const ArrayDataMarker := ".Array.data["

  /** The path with every ".Array.data[" collapsed to "[", so that `list.Array.data[2]` reads `list[2]`. */
  function NormalizedPath(path: string): (r: string)
    ensures !Occurs(path, ArrayDataMarker) ==> r == path
  {
    ReplaceAllAbsent(path, ArrayDataMarker, "[");
    ReplaceAll(path, ArrayDataMarker, "[")
  }

  /** In the marker, '[' is only the last character, so no proper prefix of it is also a suffix. */
  lemma MarkerBracketOnlyAtEnd()
    ensures ArrayDataMarker[|ArrayDataMarker| - 1] == '['
    ensures forall t :: 0 <= t < |ArrayDataMarker| - 1 ==> ArrayDataMarker[t] != '['
  {
  }

  /** The first ".Array.data[" of a path becomes "[", and the rest of the path is normalised in turn. */
  lemma NormalizeMarker(x: string, y: string)
    requires !Occurs(x, ArrayDataMarker)
    ensures NormalizedPath(x + ArrayDataMarker + y) == x + "[" + NormalizedPath(y)
  {
    MarkerBracketOnlyAtEnd();
    NoStraddle(x, ArrayDataMarker);
    ReplaceFirst(x, ArrayDataMarker, "[", y);
  }

  /** One dot-separated element of a normalised path. */
  datatype PathElement =
    | Member(name: string)
    | Element(name: string, index: nat)
    | UnparsableIndex(name: string, text: string)

  /**
    An element is indexed when it holds '['. Its name is the text before the first '['; its
    index is what remains once every '[' and ']' is removed, read as an Int32.
   */
  function ParseElement(element: string): (r: PathElement)
    ensures r.Member? <==> '[' !in element
    ensures r.Member? ==> r.name == element
    ensures !r.Member? ==> |r.name| < |element| && element[..|r.name|] == r.name && element[|r.name|] == '[' && '[' !in r.name
  {
    var bracket := IndexOf(element, '[');
    if bracket < 0 then Member(element)
    else
      var text := ReplaceAll(ReplaceAll(element[bracket..], "[", ""), "]", "");
      match ParseInt32(text)
      case Some(i) => Element(element[..bracket], i)
      case None => UnparsableIndex(element[..bracket], text)
  }

  lemma RemoveLeading(c: char, s: string)
    requires c !in s
    ensures ReplaceAll([c] + s, [c], "") == s
  {
    assert ([c] + s)[..1] == [c] && ([c] + s)[1..] == s;
    RemoveCharAbsent(s, c);
  }

  lemma RemoveTrailing(c: char, s: string)
    requires c !in s
    ensures ReplaceAll(s + [c], [c], "") == s
  {
    RemoveCharAppend(s, [c], c);
    RemoveCharAbsent(s, c);
    assert ReplaceAll([c], [c], "") == "";
  }

  /** Removing every '[' and then every ']' from `[digits]` leaves the digits. */
  lemma StripBrackets(digits: string)
    requires forall k :: 0 <= k < |digits| ==> IsDigit(digits[k])
    ensures ReplaceAll(ReplaceAll("[" + digits + "]", "[", ""), "]", "") == digits
  {
    var closed := digits + "]";
    assert '[' !in closed by {
      forall k | 0 <= k < |closed| ensures closed[k] != '[' {
        if k < |digits| { assert closed[k] == digits[k]; }
      }
    }
    assert "[" + digits + "]" == ['['] + closed;
    RemoveLeading('[', closed);
    assert ']' !in digits by {
      forall k | 0 <= k < |digits| ensures digits[k] != ']' {
        assert IsDigit(digits[k]);
      }
    }
    RemoveTrailing(']', digits);
  }

  /** An element written the way the editor writes it, `name[i]`, parses back to `name` and `i`. */
  lemma ParseElementRoundTrip(name: string, i: nat)
    requires '[' !in name && i <= Int32Max
    ensures ParseElement(name + "[" + NatToString(i) + "]") == Element(name, i)
  {
    var digits := NatToString(i);
    var e := name + "[" + digits + "]";
    assert e == name + ['['] + (digits + "]");
    IndexOfSeparated(name, digits + "]", '[');
    assert e[|name|..] == "[" + digits + "]";
    assert e[..|name|] == name;
    StripBrackets(digits);
    DigitsValueOfNatToString(i);
  }

  /** The elements of a property path, after normalisation and splitting at '.'. */
  function PathElements(path: string): (es: seq<PathElement>)
    ensures |es| == |Split(NormalizedPath(path), '.')| >= 1
  {
    var parts := Split(NormalizedPath(path), '.');
    seq(|parts|, i requires 0 <= i < |parts| => ParseElement(parts[i]))
  }

  /** The path Unity writes for an element of an array field, `name.Array.data[i]`, walks to element `i` of `name`. */
  lemma ArrayElementPathWalk(root: Value, name: string, i: nat)
    requires '.' !in name && '[' !in name && i <= Int32Max
    ensures TargetOf(root, name + ArrayDataMarker + NatToString(i) + "]") == LookupElement(root, name, i)
  {
    var digits := NatToString(i);
    var tail := digits + "]";
    assert '.' !in tail by {
      forall k | 0 <= k < |tail| ensures tail[k] != '.' {
        if k < |digits| { assert tail[k] == digits[k]; }
      }
    }
    AbsentWithoutFirstChar(name, ArrayDataMarker);
    AbsentWithoutFirstChar(tail, ArrayDataMarker);
    var path := name + ArrayDataMarker + NatToString(i) + "]";
    assert path == name + ArrayDataMarker + tail;
    NormalizeMarker(name, tail);
    var e := name + "[" + digits + "]";
    assert NormalizedPath(path) == e;
    assert '.' !in e by {
      forall k | 0 <= k < |e| ensures e[k] != '.' {
        if k < |name| { assert e[k] == name[k]; }
        else if k > |name| && k < |name| + 1 + |digits| { assert e[k] == digits[k - |name| - 1]; }
      }
    }
    SplitWithoutSeparator(e, '.');
    ParseElementRoundTrip(name, i);
    var es := PathElements(path);
    assert es == [Element(name, i)];
    assert Walk(root, es) == Walk(Step(root, es[0]), es[1..]);
    assert es[1..] == [];
  }

  // ---------------------------------------------------------------------------
  // Member and element lookup (the two GetValue_Imp overloads)

  /** One type level: its field of that name, else its property matching the name ignoring case. */
  function FieldOrProperty(level: TypeLevel, name: string): Option<Value> {
    if name in level.fields then Some(level.fields[name])
    else
      match PropertyIgnoringCase(level.properties, name)
      case Some(prop) => Some(prop.value)
      case None => None
  }

  /** The first level of the chain that answers for `name`. */
  function FindMember(chain: seq<TypeLevel>, name: string): Option<Value>
    decreases |chain|
  {
    if chain == [] then None
    else
      match FieldOrProperty(chain[0], name)
      case Some(v) => Some(v)
      case None => FindMember(chain[1..], name)
  }

  /** The chain gives nothing exactly when no level answers, and otherwise the answer of one of its levels. */
  lemma {:induction false} FindMemberFound(chain: seq<TypeLevel>, name: string)
    ensures FindMember(chain, name).None? <==> forall j :: 0 <= j < |chain| ==> FieldOrProperty(chain[j], name).None?
    ensures FindMember(chain, name).Some? ==>
      exists j :: 0 <= j < |chain| && FieldOrProperty(chain[j], name) == FindMember(chain, name)
    decreases |chain|
  {
    if chain != [] && FieldOrProperty(chain[0], name).None? {
      FindMemberFound(chain[1..], name);
      assert forall j :: 0 < j < |chain| ==> chain[j] == chain[1..][j - 1];
      if FindMember(chain, name).Some? {
        var j :| 0 <= j < |chain[1..]| && FieldOrProperty(chain[1..][j], name) == FindMember(chain, name);
        assert FieldOrProperty(chain[j + 1], name) == FindMember(chain, name);
      }
    }
  }

  /** Named lookup: null for a source that is not an object or a chain that never answers. */
  function LookupMember(source: Value, name: string): (r: Value)
    ensures !source.Obj? ==> r == Null
  {
    match source
    case Obj(chain, _) => (match FindMember(chain, name) case Some(v) => v case None => Null)
    case _ => Null
  }

  /** A chain that never answers gives null; any value other than null is the answer of one of the levels. */
  lemma LookupMemberFound(source: Value, name: string)
    ensures source.Obj? && (forall j :: 0 <= j < |source.chain| ==> FieldOrProperty(source.chain[j], name).None?) ==>
      LookupMember(source, name) == Null
    ensures LookupMember(source, name) != Null ==>
      source.Obj? && exists j :: 0 <= j < |source.chain| && FieldOrProperty(source.chain[j], name) == Some(LookupMember(source, name))
  {
    if source.Obj? {
      FindMemberFound(source.chain, name);
    }
  }

  /** Indexed lookup: the element at `index` of the enumerable member, null when there is none. */
  function LookupElement(source: Value, name: string, index: nat): (r: Value)
    ensures Elements(LookupMember(source, name)).None? ==> r == Null
    ensures Elements(LookupMember(source, name)).Some? ==>
      var items := Elements(LookupMember(source, name)).value;
      (index < |items| ==> r == items[index]) && (index >= |items| ==> r == Null)
  {
    match Elements(LookupMember(source, name))
    case None => Null
    case Some(items) => if index < |items| then items[index] else Null
  }

  /** At the first level of the chain that declares `name`, a field wins over a property. */
  lemma {:induction false} LookupMemberAtFirstMatch(chain: seq<TypeLevel>, items: Option<seq<Value>>, name: string, i: nat)
    requires i < |chain|
    requires forall j :: 0 <= j < i ==> FieldOrProperty(chain[j], name).None?
    requires name in chain[i].fields || PropertyIgnoringCase(chain[i].properties, name).Some?
    ensures name in chain[i].fields ==> LookupMember(Obj(chain, items), name) == chain[i].fields[name]
    ensures name !in chain[i].fields ==>
      LookupMember(Obj(chain, items), name) == PropertyIgnoringCase(chain[i].properties, name).value.value
    decreases i
  {
    FindMemberAtFirstMatch(chain, name, i);
  }

  lemma {:induction false} FindMemberAtFirstMatch(chain: seq<TypeLevel>, name: string, i: nat)
    requires i < |chain|
    requires forall j :: 0 <= j < i ==> FieldOrProperty(chain[j], name).None?
    requires FieldOrProperty(chain[i], name).Some?
    ensures FindMember(chain, name) == FieldOrProperty(chain[i], name)
    decreases i
  {
    if i > 0 {
      assert FieldOrProperty(chain[0], name).None?;
      forall j | 0 <= j < i - 1 ensures FieldOrProperty(chain[1..][j], name).None? {
        assert chain[1..][j] == chain[j + 1];
      }
      FindMemberAtFirstMatch(chain[1..], name, i - 1);
    }
  }

  /** GetValue_Imp(source, name): walk the type chain from the runtime type to its bases. */
  method GetMemberValue(source: Value, name: string) returns (r: Value)
    ensures r == LookupMember(source, name)
  {
    if !source.Obj? {
      return Null;
    }
    var chain := source.chain;
    var k := 0;
    while k < |chain|
      invariant 0 <= k <= |chain|
      invariant FindMember(chain[k..], name) == FindMember(chain, name)
    {
      var level := chain[k];
      assert chain[k..][0] == level && chain[k..][1..] == chain[k + 1..];
      if name in level.fields {
        return level.fields[name];
      }
      var property := PropertyIgnoringCase(level.properties, name);
      if property.Some? {
        return property.value.value;
      }
      k := k + 1;
    }
    return Null;
  }

  /** GetValue_Imp(source, name, index): advance an enumerator over the member `index + 1` times. */
  method GetElementValue(source: Value, name: string, index: nat) returns (r: Value)
    ensures Elements(LookupMember(source, name)).None? ==> r == Null
    ensures Elements(LookupMember(source, name)).Some? ==>
      var items := Elements(LookupMember(source, name)).value;
      r == if index < |items| then items[index] else Null
  {
    var enumerable := GetMemberValue(source, name);
    var items := Elements(enumerable);
    if items.None? {
      return Null;
    }
    var moved := 0;
    for i := 0 to index + 1
      invariant moved == i <= |items.value|
    {
      if moved == |items.value| {
        return Null;
      }
      moved := moved + 1;
    }
    r := items.value[index];
  }

  // ---------------------------------------------------------------------------
  // Walking a path

  /** One element of the walk; an index Convert.ToInt32 would reject resolves to null. */
  function Step(obj: Value, e: PathElement): Value {
    match e
    case Member(n) => LookupMember(obj, n)
    case Element(n, i) => LookupElement(obj, n, i)
    case UnparsableIndex(_, _) => Null
  }

  function Walk(obj: Value, es: seq<PathElement>): Value
    decreases |es|
  {
    if es == [] then obj else Walk(Step(obj, es[0]), es[1..])
  }

  /** The object a property path denotes, starting at the inspected target. */
  function TargetOf(root: Value, path: string): Value {
    Walk(root, PathElements(path))
  }

  /** The object that holds the last element of a property path. */
  function OwnerOf(root: Value, path: string): Value {
    var es := PathElements(path);
    Walk(root, es[..|es| - 1])
  }

  /** A miss anywhere on the walk makes the whole walk null. */
  lemma {:induction false} WalkFromNull(es: seq<PathElement>)
    ensures Walk(Null, es) == Null
    decreases |es|
  {
    if es != [] {
      assert Step(Null, es[0]) == Null;
      WalkFromNull(es[1..]);
    }
  }

  lemma {:induction false} WalkAppend(obj: Value, es: seq<PathElement>, e: PathElement)
    ensures Walk(obj, es + [e]) == Step(Walk(obj, es), e)
    decreases |es|
  {
    if es == [] {
      assert [] + [e] == [e];
    } else {
      assert (es + [e])[1..] == es[1..] + [e];
      WalkAppend(Step(obj, es[0]), es[1..], e);
    }
  }

  /** The target of a path is its last element looked up on the owner. */
  lemma TargetIsLastElementOfOwner(root: Value, path: string)
    ensures var es := PathElements(path); TargetOf(root, path) == Step(OwnerOf(root, path), es[|es| - 1])
  {
    var es := PathElements(path);
    assert es == es[..|es| - 1] + [es[|es| - 1]];
    WalkAppend(root, es[..|es| - 1], es[|es| - 1]);
  }

  /** A property at the top level of the target is owned by the target itself. */
  lemma OwnerOfTopLevelPath(root: Value, path: string)
    requires '.' !in NormalizedPath(path)
    ensures OwnerOf(root, path) == root
  {
    SplitWithoutSeparator(NormalizedPath(path), '.');
  }

  /**
    The owner of a nested property is the target of the normalised path cut at its last '.'
    (when that prefix holds no ".Array.data[" of its own).
   */
  lemma OwnerIsTargetOfParentPath(root: Value, path: string)
    requires LastIndexOf(NormalizedPath(path), '.') >= 0
    requires !Occurs(NormalizedPath(path)[..LastIndexOf(NormalizedPath(path), '.')], ArrayDataMarker)
    ensures OwnerOf(root, path) == TargetOf(root, NormalizedPath(path)[..LastIndexOf(NormalizedPath(path), '.')])
  {
    var s := NormalizedPath(path);
    ParentPathElements(path, s[..LastIndexOf(s, '.')]);
  }

  /** The elements of a path without its last one are the elements of the path cut at its last '.'. */
  lemma ParentPathElements(path: string, parent: string)
    requires LastIndexOf(NormalizedPath(path), '.') >= 0
    requires parent == NormalizedPath(path)[..LastIndexOf(NormalizedPath(path), '.')]
    requires !Occurs(parent, ArrayDataMarker)
    ensures var es := PathElements(path); es[..|es| - 1] == PathElements(parent)
  {
    var s := NormalizedPath(path);
    var d := LastIndexOf(s, '.');
    var last := s[d + 1..];
    assert s == parent + ['.'] + last;
    SplitAround(parent, last, '.');
    assert '.' !in last by {
      forall k | 0 <= k < |last| ensures last[k] != '.' {
        assert last[k] == s[d + 1 + k];
      }
    }
    SplitWithoutSeparator(last, '.');
    ReplaceAllAbsent(parent, ArrayDataMarker, "[");
    assert NormalizedPath(parent) == parent;
    var parts, parentParts := Split(s, '.'), Split(parent, '.');
    assert parts == parentParts + [last];
    var es, parentEs := PathElements(path), PathElements(parent);
    forall k | 0 <= k < |parentParts| ensures es[k] == parentEs[k] {
      assert parts[k] == parentParts[k];
    }
    assert es[..|es| - 1] == parentEs;
  }

  /** Resolve one element, as the body of both walking loops does. */
  method ResolveElement(obj: Value, element: string) returns (r: Value)
    ensures r == Step(obj, ParseElement(element))
  {
    var bracket := IndexOf(element, '[');
    if bracket >= 0 {
      var elementName := element[..bracket];
      var text := ReplaceAll(ReplaceAll(element[bracket..], "[", ""), "]", "");
      var index := ParseInt32(text);
      if index.None? {
        // Convert.ToInt32 throws here in the C# code; the model resolves to null.
        return Null;
      }
      r := GetElementValue(obj, elementName, index.value);
    } else {
      r := GetMemberValue(obj, element);
    }
  }

  /** GetTargetObjectOfProperty: the object the property denotes; null for no property. */
  method GetTargetObjectOfProperty(so: SerializedObject, property: Option<SerializedProperty>) returns (obj: Value)
    ensures property.None? ==> obj == Null
    ensures property.Some? ==> obj == TargetOf(so.targetObject, property.value.propertyPath)
  {
    if property.None? {
      return Null;
    }
    var path := NormalizedPath(property.value.propertyPath);
    obj := so.targetObject;
    var elements := Split(path, '.');
    ghost var es := PathElements(property.value.propertyPath);
    for i := 0 to |elements|
      invariant Walk(so.targetObject, es) == Walk(obj, es[i..])
    {
      assert es[i..][0] == es[i] == ParseElement(elements[i]);
      assert es[i..][1..] == es[i + 1..];
      obj := ResolveElement(obj, elements[i]);
    }
  }

  /** GetTargetObjectWithProperty: the object holding the property, reached by every element but the last. */
  method GetTargetObjectWithProperty(so: SerializedObject, property: SerializedProperty) returns (obj: Value)
    ensures obj == OwnerOf(so.targetObject, property.propertyPath)
  {
    var path := NormalizedPath(property.propertyPath);
    obj := so.targetObject;
    var elements := Split(path, '.');
    ghost var es := PathElements(property.propertyPath);
    ghost var n := |es|;
    for i := 0 to |elements| - 1
      invariant Walk(so.targetObject, es[..n - 1]) == Walk(obj, es[i..n - 1])
    {
      assert es[i..n - 1][0] == es[i] == ParseElement(elements[i]);
      assert es[i..n - 1][1..] == es[i + 1..n - 1];
      obj := ResolveElement(obj, elements[i]);
    }
    assert es[..n - 1] == es[..|es| - 1];
  }

  // ---------------------------------------------------------------------------
  // Conditions

  /** The serialized path a condition is sought at: beside the property, in the same container. */
  function SiblingPath(propertyPath: string, condition: string): string {
    var indexOfDot := LastIndexOf(propertyPath, '.');
    var outerPath := if indexOfDot == -1 then "" else propertyPath[..indexOfDot];
    if |outerPath| == 0 then condition else outerPath + "." + condition
  }

  /**
    The sibling path ends with the condition, and before it holds the property path up to and
    including its last '.'; it is the bare condition when that '.' is missing or first.
   */
  lemma SiblingPathShape(propertyPath: string, condition: string)
    ensures var r := SiblingPath(propertyPath, condition);
      |r| >= |condition| && r[|r| - |condition|..] == condition
    ensures LastIndexOf(propertyPath, '.') <= 0 ==> SiblingPath(propertyPath, condition) == condition
    ensures var r := SiblingPath(propertyPath, condition);
      LastIndexOf(propertyPath, '.') > 0 ==>
        r[..|r| - |condition|] == propertyPath[..LastIndexOf(propertyPath, '.') + 1]
  {
    var d := LastIndexOf(propertyPath, '.');
    if d > 0 {
      var r := SiblingPath(propertyPath, condition);
      assert r == propertyPath[..d] + "." + condition;
      assert propertyPath[..d + 1] == propertyPath[..d] + ".";
    }
  }

  /**
    The sibling path replaces the property's last path element by the condition; a path whose
    only '.' is its first character keeps no prefix at all.
   */
  lemma SiblingPathSharesParent(propertyPath: string, condition: string)
    requires '.' !in condition
    ensures LastIndexOf(propertyPath, '.') != 0 ==>
      var parts := Split(propertyPath, '.');
      Split(SiblingPath(propertyPath, condition), '.') == parts[..|parts| - 1] + [condition]
    ensures LastIndexOf(propertyPath, '.') == 0 ==> SiblingPath(propertyPath, condition) == condition
  {
    var d := LastIndexOf(propertyPath, '.');
    if d < 0 {
      SplitWithoutSeparator(propertyPath, '.');
      SplitWithoutSeparator(condition, '.');
      assert SiblingPath(propertyPath, condition) == condition;
    } else if d > 0 {
      var parent, last := propertyPath[..d], propertyPath[d + 1..];
      assert propertyPath == parent + ['.'] + last;
      assert '.' !in last by {
        forall k | 0 <= k < |last| ensures last[k] != '.' {
          assert last[k] == propertyPath[d + 1 + k];
        }
      }
      assert SiblingPath(propertyPath, condition) == parent + ['.'] + condition;
      ReplaceLastPiece(parent, last, condition);
    }
  }

  /** Splitting `parent.last` and `parent.condition` differs only in the last piece. */
  lemma ReplaceLastPiece(parent: string, last: string, condition: string)
    requires '.' !in last && '.' !in condition
    ensures var parts := Split(parent + ['.'] + last, '.');
      Split(parent + ['.'] + condition, '.') == parts[..|parts| - 1] + [condition]
  {
    SplitAround(parent, last, '.');
    SplitWithoutSeparator(last, '.');
    SplitAround(parent, condition, '.');
    SplitWithoutSeparator(condition, '.');
    var parts := Split(parent + ['.'] + last, '.');
    assert parts == Split(parent, '.') + [last];
    assert parts[..|parts| - 1] == Split(parent, '.');
  }

  /** A property declared bool on the owner; its getter yields a bool. */
  predicate IsBoolProperty(p: PropertyInfo) {
    p.propertyType == TypeBool && p.value.Bool?
  }

  /** A zero-parameter method declared to return bool; invoking it yields a bool. */
  predicate IsBoolMethod(m: MethodInfo) {
    m.returnType == TypeBool && |m.parameterTypes| == 0 && m.result.Bool?
  }

  /** The serialized object holds a Boolean property at `path`. */
  predicate SerializedBooleanAt(so: SerializedObject, path: string) {
    path in so.properties && so.properties[path].propertyType == Boolean
  }

  /** `target`'s type chain has a bool property of that name (the first one found is bool). */
  predicate BoolPropertyOn(target: Value, name: string) {
    ReflectedProperty(target, name).Some? && IsBoolProperty(ReflectedProperty(target, name).value)
  }

  /** `target`'s type chain has a zero-parameter bool method of that name (the first one found is). */
  predicate BoolMethodOn(target: Value, name: string) {
    ReflectedMethod(target, name).Some? && IsBoolMethod(ReflectedMethod(target, name).value)
  }

  /**
    One condition: a serialized Boolean at the sibling path, else a bool property of the owner,
    else a zero-parameter bool method of the owner; nothing when none of them resolves.
   */
  function ConditionValue(so: SerializedObject, p: SerializedProperty, condition: string): Option<bool>
  {
    var conditionProperty := so.FindProperty(SiblingPath(p.propertyPath, condition));
    if conditionProperty.Some? && conditionProperty.value.propertyType == Boolean then
      Some(BoolValue(conditionProperty.value))
    else
      var target := OwnerOf(so.targetObject, p.propertyPath);
      var reflectionProperty := ReflectedProperty(target, condition);
      if reflectionProperty.Some? && IsBoolProperty(reflectionProperty.value) then
        Some(reflectionProperty.value.value.b)
      else
        var reflectionMethod := ReflectedMethod(target, condition);
        if reflectionMethod.Some? && IsBoolMethod(reflectionMethod.value) then
          Some(reflectionMethod.value.result.b)
        else None
  }

  /** The three sources of a condition's value, in the order they are tried. */
  lemma ConditionValuePrecedence(so: SerializedObject, p: SerializedProperty, condition: string)
    ensures var path := SiblingPath(p.propertyPath, condition);
      SerializedBooleanAt(so, path) ==> ConditionValue(so, p, condition) == Some(BoolValue(so.properties[path]))
    ensures var owner := OwnerOf(so.targetObject, p.propertyPath);
      !SerializedBooleanAt(so, SiblingPath(p.propertyPath, condition)) && BoolPropertyOn(owner, condition) ==>
        ConditionValue(so, p, condition) == Some(ReflectedProperty(owner, condition).value.value.b)
    ensures var owner := OwnerOf(so.targetObject, p.propertyPath);
      !SerializedBooleanAt(so, SiblingPath(p.propertyPath, condition)) && !BoolPropertyOn(owner, condition)
      && BoolMethodOn(owner, condition) ==>
        ConditionValue(so, p, condition) == Some(ReflectedMethod(owner, condition).value.result.b)
    ensures var owner := OwnerOf(so.targetObject, p.propertyPath);
      ConditionValue(so, p, condition).None? <==> (!SerializedBooleanAt(so, SiblingPath(p.propertyPath, condition))
        && !BoolPropertyOn(owner, condition) && !BoolMethodOn(owner, condition))
  {
  }

  /** Each condition's value, or its absence, in the conditions' order. */
  function ConditionValues(so: SerializedObject, p: SerializedProperty, conditions: seq<string>): (options: seq<Option<bool>>)
    ensures |options| == |conditions|
    decreases |conditions|
  {
    if conditions == [] then []
    else ConditionValues(so, p, conditions[..|conditions| - 1]) + [ConditionValue(so, p, conditions[|conditions| - 1])]
  }

  /** Position by position, the value is that of the condition there. */
  lemma {:induction false} ConditionValuesAt(so: SerializedObject, p: SerializedProperty, conditions: seq<string>)
    ensures forall i :: 0 <= i < |conditions| ==> ConditionValues(so, p, conditions)[i] == ConditionValue(so, p, conditions[i])
    decreases |conditions|
  {
    if conditions != [] {
      var init := conditions[..|conditions| - 1];
      ConditionValuesAt(so, p, init);
      var prefix := ConditionValues(so, p, init);
      var last := ConditionValue(so, p, conditions[|conditions| - 1]);
      assert ConditionValues(so, p, conditions) == prefix + [last];
      forall i | 0 <= i < |init|
        ensures (prefix + [last])[i] == ConditionValue(so, p, conditions[i])
      {
        assert init[i] == conditions[i] && (prefix + [last])[i] == prefix[i];
      }
    }
  }

  /** Values for a concatenation of condition lists are the concatenation of their values. */
  lemma {:induction false} ConditionValuesAppend(so: SerializedObject, p: SerializedProperty, a: seq<string>, b: seq<string>)
    ensures ConditionValues(so, p, a + b) == ConditionValues(so, p, a) + ConditionValues(so, p, b)
    decreases |b|
  {
    if b == [] {
      assert a + b == a;
    } else {
      var b' := b[..|b| - 1];
      assert (a + b)[..|a + b| - 1] == a + b';
      assert (a + b)[|a + b| - 1] == b[|b| - 1];
      ConditionValuesAppend(so, p, a, b');
    }
  }

  /** The values that are present, in order. */
  function Present(options: seq<Option<bool>>): (values: seq<bool>)
    ensures |values| <= |options|
    decreases |options|
  {
    if options == [] then []
    else
      var prefix := Present(options[..|options| - 1]);
      match options[|options| - 1]
      case Some(b) => prefix + [b]
      case None => prefix
  }

  /** Nothing is present exactly when every entry is absent. */
  lemma {:induction false} PresentEmpty(options: seq<Option<bool>>)
    ensures Present(options) == [] <==> forall i :: 0 <= i < |options| ==> options[i].None?
    decreases |options|
  {
    if options != [] {
      var init := options[..|options| - 1];
      PresentEmpty(init);
      assert forall i :: 0 <= i < |init| ==> init[i] == options[i];
    }
  }

  /** Keeping the present values commutes with concatenation. */
  lemma {:induction false} PresentAppend(a: seq<Option<bool>>, b: seq<Option<bool>>)
    ensures Present(a + b) == Present(a) + Present(b)
    decreases |b|
  {
    if b == [] {
      assert a + b == a;
    } else {
      var b' := b[..|b| - 1];
      assert (a + b)[..|a + b| - 1] == a + b';
      assert (a + b)[|a + b| - 1] == b[|b| - 1];
      PresentAppend(a, b');
    }
  }

  /** The values of the conditions that resolve, in the conditions' order. */
  function ResolvedConditionValues(so: SerializedObject, p: SerializedProperty, conditions: seq<string>): (values: seq<bool>)
    ensures |values| <= |conditions|
  {
    Present(ConditionValues(so, p, conditions))
  }

  /** No value is resolved exactly when no condition resolves. */
  lemma ResolvedConditionValuesEmpty(so: SerializedObject, p: SerializedProperty, conditions: seq<string>)
    ensures ResolvedConditionValues(so, p, conditions) == [] <==>
      forall i :: 0 <= i < |conditions| ==> ConditionValue(so, p, conditions[i]).None?
  {
    PresentEmpty(ConditionValues(so, p, conditions));
    ConditionValuesAt(so, p, conditions);
  }

  /** Resolving a list of conditions resolves each part in turn and keeps their order. */
  lemma ResolvedConditionValuesAppend(so: SerializedObject, p: SerializedProperty, a: seq<string>, b: seq<string>)
    ensures ResolvedConditionValues(so, p, a + b) == ResolvedConditionValues(so, p, a) + ResolvedConditionValues(so, p, b)
  {
    ConditionValuesAppend(so, p, a, b);
    PresentAppend(ConditionValues(so, p, a), ConditionValues(so, p, b));
  }

  /** The body of GetConditionValues' loop for one condition, with the container path computed once outside. */
  method ResolveCondition(so: SerializedObject, property: SerializedProperty, outerPath: string, condition: string)
    returns (resolved: Option<bool>)
    requires outerPath == var d := LastIndexOf(property.propertyPath, '.'); if d == -1 then "" else property.propertyPath[..d]
    ensures resolved == ConditionValue(so, property, condition)
  {
    var conditionPath := if |outerPath| == 0 then condition else outerPath + "." + condition;
    assert conditionPath == SiblingPath(property.propertyPath, condition);
    var conditionProperty := so.FindProperty(conditionPath);
    if conditionProperty.Some? && conditionProperty.value.propertyType == Boolean {
      return Some(BoolValue(conditionProperty.value));
    }
    var target := GetTargetObjectWithProperty(so, property);
    var reflectionProperty := ReflectedProperty(target, condition);
    if reflectionProperty.Some? && IsBoolProperty(reflectionProperty.value) {
      return Some(reflectionProperty.value.value.b);
    }
    var reflectionMethod := ReflectedMethod(target, condition);
    if reflectionMethod.Some? && IsBoolMethod(reflectionMethod.value) {
      return Some(reflectionMethod.value.result.b);
    }
    return None;
  }

  /** GetConditionValues: one bool per condition that resolves, in order; unresolved names are skipped. */
  method GetConditionValues(so: SerializedObject, property: SerializedProperty, conditions: seq<string>) returns (values: seq<bool>)
    ensures values == ResolvedConditionValues(so, property, conditions)
  {
    values := [];
    var indexOfDot := LastIndexOf(property.propertyPath, '.');
    var outerPath := if indexOfDot == -1 then "" else property.propertyPath[..indexOfDot];
    for i := 0 to |conditions|
      invariant values == Present(ConditionValues(so, property, conditions[..i]))
    {
      var resolved := ResolveCondition(so, property, outerPath, conditions[i]);
      ghost var options := ConditionValues(so, property, conditions[..i]);
      assert conditions[..i + 1][..i] == conditions[..i];
      assert ConditionValues(so, property, conditions[..i + 1]) == options + [resolved];
      assert (options + [resolved])[..|options|] == options;
      if resolved.Some? {
        values := values + [resolved.value];
      }
    }
    assert conditions[..|conditions|] == conditions;
  }

  /** The fold of the values under the operator: all of them for And, any of them for Or. */
  predicate Combined(values: seq<bool>, op: ConditionOperator) {
    match op
    case And => forall i :: 0 <= i < |values| ==> values[i]
    case Or => exists i :: 0 <= i < |values| && values[i]
  }

  /** GetConditionsFlag: fold with And from true or with Or from false, then negate when inverted. */
  method GetConditionsFlag(values: seq<bool>, op: ConditionOperator, invert: bool) returns (flag: bool)
    ensures flag == (Combined(values, op) != invert)
  {
    match op {
      case And =>
        flag := true;
        for i := 0 to |values|
          invariant flag == (forall k :: 0 <= k < i ==> values[k])
        {
          flag := flag && values[i];
        }
      case Or =>
        flag := false;
        for i := 0 to |values|
          invariant flag == (exists k :: 0 <= k < i && values[k])
        {
          flag := flag || values[i];
        }
    }
    flag := if invert then !flag else flag;
  }

  /** The shared body of IsEnabled and IsVisible once the attribute is found. */
  method EvaluateConditions(so: SerializedObject, property: SerializedProperty, typeName: string, cs: ConditionSet)
    returns (result: bool, warnings: seq<Warning>)
    ensures var values := ResolvedConditionValues(so, property, cs.conditions);
      if values == [] then !result && warnings == [ConditionUnresolved(typeName)]
      else result == (Combined(values, cs.op) != cs.inverted) && warnings == []
  {
    var conditionValues := GetConditionValues(so, property, cs.conditions);
    if |conditionValues| > 0 {
      result := GetConditionsFlag(conditionValues, cs.op, cs.inverted);
      return result, [];
    }
    return false, [ConditionUnresolved(typeName)];
  }

  /** IsEnabled: true without an EnableIf-family attribute; otherwise its conditions decide, failing closed. */
  method IsEnabled(so: SerializedObject, property: SerializedProperty) returns (enabled: bool, warnings: seq<Warning>)
    ensures GetAttribute(property, EnableIfKind).None? ==> enabled && warnings == []
    ensures GetAttribute(property, EnableIfKind).Some? ==>
      var a := GetAttribute(property, EnableIfKind).value;
      var values := ResolvedConditionValues(so, property, a.condition.conditions);
      if values == [] then !enabled && warnings == [ConditionUnresolved(a.typeName)]
      else enabled == (Combined(values, a.condition.op) != a.condition.inverted) && warnings == []
  {
    var enableIfAttribute := GetAttribute(property, EnableIfKind);
    if enableIfAttribute.None? {
      return true, [];
    }
    enabled, warnings := EvaluateConditions(so, property, enableIfAttribute.value.typeName, enableIfAttribute.value.condition);
  }

  /** IsVisible: true without a ShowIf-family attribute; otherwise its conditions decide, failing closed. */
  method IsVisible(so: SerializedObject, property: SerializedProperty) returns (visible: bool, warnings: seq<Warning>)
    ensures GetAttribute(property, ShowIfKind).None? ==> visible && warnings == []
    ensures GetAttribute(property, ShowIfKind).Some? ==>
      var a := GetAttribute(property, ShowIfKind).value;
      var values := ResolvedConditionValues(so, property, a.condition.conditions);
      if values == [] then !visible && warnings == [ConditionUnresolved(a.typeName)]
      else visible == (Combined(values, a.condition.op) != a.condition.inverted) && warnings == []
  {
    var showIfAttribute := GetAttribute(property, ShowIfKind);
    if showIfAttribute.None? {
      return true, [];
    }
    visible, warnings := EvaluateConditions(so, property, showIfAttribute.value.typeName, showIfAttribute.value.condition);
  }

  // ---------------------------------------------------------------------------
  // Value-change callbacks

  /** The shape OnValueChanged asks of a callback: void, with exactly two parameters. */
  predicate HasCallbackShape(m: MethodInfo) {
    m.returnType == TypeVoid && |m.parameterTypes| == 2
  }

  /** A callback the editor will invoke for a field of `fieldType`: the right shape, both parameters of that type. */
  predicate IsChangeCallbackFor(m: MethodInfo, fieldType: RuntimeType) {
    HasCallbackShape(m) && m.parameterTypes[0] == fieldType && m.parameterTypes[1] == fieldType
  }

  /** One callback is either invoked or answered by one logged warning. */
  datatype CallbackOutcome = Invoked(call: Invocation) | Skipped(warning: Warning)

  /** What happens to one OnValueChanged callback name. */
  function CallbackOutcomeOf(target: Value, fieldName: string, fieldType: RuntimeType, oldValue: Value, newValue: Value, callbackName: string)
    : CallbackOutcome
  {
    var callbackMethod := ReflectedMethod(target, callbackName);
    if callbackMethod.Some? && callbackMethod.value.returnType == TypeVoid && |callbackMethod.value.parameterTypes| == 2 then
      var param0, param1 := callbackMethod.value.parameterTypes[0], callbackMethod.value.parameterTypes[1];
      if fieldType == param0 && fieldType == param1 then
        Invoked(Invocation(target, callbackMethod.value, oldValue, newValue))
      else
        Skipped(CallbackTypeMismatch(fieldName, callbackMethod.value.name, fieldType, param0, param1))
    else
      Skipped(CallbackShapeInvalid("OnValueChangedAttribute"))
  }

  /** A matching callback is invoked with (old, new); any other yields the warning the editor logs for it. */
  lemma CallbackOutcomeCases(target: Value, fieldName: string, fieldType: RuntimeType, oldValue: Value, newValue: Value, callbackName: string)
    ensures var o, m := CallbackOutcomeOf(target, fieldName, fieldType, oldValue, newValue, callbackName), ReflectedMethod(target, callbackName);
      o.Invoked? <==> m.Some? && IsChangeCallbackFor(m.value, fieldType)
    ensures var o, m := CallbackOutcomeOf(target, fieldName, fieldType, oldValue, newValue, callbackName), ReflectedMethod(target, callbackName);
      o.Invoked? ==> o.call == Invocation(target, m.value, oldValue, newValue)
    ensures var o, m := CallbackOutcomeOf(target, fieldName, fieldType, oldValue, newValue, callbackName), ReflectedMethod(target, callbackName);
      m.Some? && HasCallbackShape(m.value) && !IsChangeCallbackFor(m.value, fieldType) ==>
        o == Skipped(CallbackTypeMismatch(fieldName, callbackName, fieldType, m.value.parameterTypes[0], m.value.parameterTypes[1]))
    ensures var o, m := CallbackOutcomeOf(target, fieldName, fieldType, oldValue, newValue, callbackName), ReflectedMethod(target, callbackName);
      (m.None? || !HasCallbackShape(m.value)) ==> o == Skipped(CallbackShapeInvalid("OnValueChangedAttribute"))
  {
  }

  /** The outcome of each OnValueChanged attribute, in declaration order. */
  function Dispatch(target: Value, fieldName: string, fieldType: RuntimeType, oldValue: Value, newValue: Value, callbacks: seq<Attribute>)
    : (outcomes: seq<CallbackOutcome>)
    requires forall k :: 0 <= k < |callbacks| ==> callbacks[k].OnValueChanged?
    ensures |outcomes| == |callbacks|
    decreases |callbacks|
  {
    if callbacks == [] then []
    else
      assert forall k :: 0 <= k < |callbacks[1..]| ==> callbacks[1..][k] == callbacks[k + 1];
      [CallbackOutcomeOf(target, fieldName, fieldType, oldValue, newValue, callbacks[0].callbackName)]
        + Dispatch(target, fieldName, fieldType, oldValue, newValue, callbacks[1..])
  }

  /** The outcome at each position is that of the callback declared there. */
  lemma {:induction false} DispatchAt(target: Value, fieldName: string, fieldType: RuntimeType, oldValue: Value, newValue: Value, callbacks: seq<Attribute>)
    requires forall k :: 0 <= k < |callbacks| ==> callbacks[k].OnValueChanged?
    ensures forall k :: 0 <= k < |callbacks| ==>
      Dispatch(target, fieldName, fieldType, oldValue, newValue, callbacks)[k]
        == CallbackOutcomeOf(target, fieldName, fieldType, oldValue, newValue, callbacks[k].callbackName)
    decreases |callbacks|
  {
    if callbacks != [] {
      var rest := callbacks[1..];
      assert forall k :: 0 <= k < |rest| ==> rest[k] == callbacks[k + 1];
      DispatchAt(target, fieldName, fieldType, oldValue, newValue, rest);
      var head := CallbackOutcomeOf(target, fieldName, fieldType, oldValue, newValue, callbacks[0].callbackName);
      var tail := Dispatch(target, fieldName, fieldType, oldValue, newValue, rest);
      assert Dispatch(target, fieldName, fieldType, oldValue, newValue, callbacks) == [head] + tail;
      forall k | 0 < k < |callbacks|
        ensures ([head] + tail)[k] == CallbackOutcomeOf(target, fieldName, fieldType, oldValue, newValue, callbacks[k].callbackName)
      {
        assert ([head] + tail)[k] == tail[k - 1];
      }
    }
  }

  /** The methods invoked, in order. */
  function Invocations(outcomes: seq<CallbackOutcome>): (calls: seq<Invocation>)
    ensures |calls| <= |outcomes|
    decreases |outcomes|
  {
    if outcomes == [] then []
    else
      match outcomes[0]
      case Invoked(c) => [c] + Invocations(outcomes[1..])
      case Skipped(_) => Invocations(outcomes[1..])
  }

  /** The warnings logged, in order. */
  function Warnings(outcomes: seq<CallbackOutcome>): (warnings: seq<Warning>)
    ensures |warnings| <= |outcomes|
    decreases |outcomes|
  {
    if outcomes == [] then []
    else
      match outcomes[0]
      case Invoked(_) => Warnings(outcomes[1..])
      case Skipped(w) => [w] + Warnings(outcomes[1..])
  }

  /** The calls invoked are exactly those of the Invoked outcomes, and the warnings those of the Skipped ones. */
  lemma {:induction false} OutcomesMembers(outcomes: seq<CallbackOutcome>)
    ensures forall c :: c in Invocations(outcomes) <==> Invoked(c) in outcomes
    ensures forall w :: w in Warnings(outcomes) <==> Skipped(w) in outcomes
    decreases |outcomes|
  {
    if outcomes != [] {
      OutcomesMembers(outcomes[1..]);
      assert forall o :: o in outcomes <==> o == outcomes[0] || o in outcomes[1..] by {
        assert outcomes == [outcomes[0]] + outcomes[1..];
      }
    }
  }

  /** Every callback yields exactly one invocation or one warning. */
  lemma {:induction false} InvocationsAndWarningsPartition(outcomes: seq<CallbackOutcome>)
    ensures |Invocations(outcomes)| + |Warnings(outcomes)| == |outcomes|
    decreases |outcomes|
  {
    if outcomes != [] {
      InvocationsAndWarningsPartition(outcomes[1..]);
    }
  }

  /** When every outcome is an invocation, the invocations are the outcomes' calls, in order, and nothing is warned. */
  lemma {:induction false} AllInvoked(outcomes: seq<CallbackOutcome>)
    requires forall k :: 0 <= k < |outcomes| ==> outcomes[k].Invoked?
    ensures Warnings(outcomes) == []
    ensures |Invocations(outcomes)| == |outcomes|
    ensures forall k :: 0 <= k < |outcomes| ==> Invocations(outcomes)[k] == outcomes[k].call
    decreases |outcomes|
  {
    if outcomes != [] {
      assert forall k :: 0 <= k < |outcomes[1..]| ==> outcomes[1..][k] == outcomes[k + 1];
      AllInvoked(outcomes[1..]);
    }
  }

  /** When every outcome is a warning, nothing is invoked and the warnings are the outcomes', in order. */
  lemma {:induction false} AllSkipped(outcomes: seq<CallbackOutcome>)
    requires forall k :: 0 <= k < |outcomes| ==> outcomes[k].Skipped?
    ensures Invocations(outcomes) == []
    ensures |Warnings(outcomes)| == |outcomes|
    ensures forall k :: 0 <= k < |outcomes| ==> Warnings(outcomes)[k] == outcomes[k].warning
    decreases |outcomes|
  {
    if outcomes != [] {
      assert forall k :: 0 <= k < |outcomes[1..]| ==> outcomes[1..][k] == outcomes[k + 1];
      AllSkipped(outcomes[1..]);
    }
  }

  /** The callback named by `a` resolves on `target` to a method the editor invokes for `fieldType`. */
  predicate CallbackMatches(target: Value, fieldType: RuntimeType, a: Attribute)
    requires a.OnValueChanged?
  {
    ReflectedMethod(target, a.callbackName).Some? && IsChangeCallbackFor(ReflectedMethod(target, a.callbackName).value, fieldType)
  }

  /** Every invocation carries the target and the (old, new) pair and calls a method of the right signature. */
  lemma DispatchInvocationsWellTyped(target: Value, fieldName: string, fieldType: RuntimeType, oldValue: Value, newValue: Value, callbacks: seq<Attribute>)
    requires forall k :: 0 <= k < |callbacks| ==> callbacks[k].OnValueChanged?
    ensures var outcomes := Dispatch(target, fieldName, fieldType, oldValue, newValue, callbacks);
      |Invocations(outcomes)| + |Warnings(outcomes)| == |callbacks|
      && forall c :: c in Invocations(outcomes) ==>
        c.target == target && c.oldValue == oldValue && c.newValue == newValue && IsChangeCallbackFor(c.callback, fieldType)
  {
    var outcomes := Dispatch(target, fieldName, fieldType, oldValue, newValue, callbacks);
    InvocationsAndWarningsPartition(outcomes);
    OutcomesMembers(outcomes);
    DispatchAt(target, fieldName, fieldType, oldValue, newValue, callbacks);
    forall c | c in Invocations(outcomes)
      ensures c.target == target && c.oldValue == oldValue && c.newValue == newValue && IsChangeCallbackFor(c.callback, fieldType)
    {
      var k :| 0 <= k < |outcomes| && outcomes[k] == Invoked(c);
      CallbackOutcomeCases(target, fieldName, fieldType, oldValue, newValue, callbacks[k].callbackName);
    }
  }

  /** When every callback matches, each is invoked once, in order, with (old, new), and nothing is warned. */
  lemma DispatchAllMatch(target: Value, fieldName: string, fieldType: RuntimeType, oldValue: Value, newValue: Value, callbacks: seq<Attribute>)
    requires forall k :: 0 <= k < |callbacks| ==> callbacks[k].OnValueChanged? && CallbackMatches(target, fieldType, callbacks[k])
    ensures var outcomes := Dispatch(target, fieldName, fieldType, oldValue, newValue, callbacks);
      Warnings(outcomes) == [] && |Invocations(outcomes)| == |callbacks|
      && forall k :: 0 <= k < |callbacks| ==>
        Some(Invocations(outcomes)[k].callback) == ReflectedMethod(target, callbacks[k].callbackName)
        && Invocations(outcomes)[k].oldValue == oldValue && Invocations(outcomes)[k].newValue == newValue
  {
    var outcomes := Dispatch(target, fieldName, fieldType, oldValue, newValue, callbacks);
    DispatchAt(target, fieldName, fieldType, oldValue, newValue, callbacks);
    forall k | 0 <= k < |callbacks|
      ensures outcomes[k].Invoked?
      ensures Some(outcomes[k].call.callback) == ReflectedMethod(target, callbacks[k].callbackName)
      ensures outcomes[k].call.oldValue == oldValue && outcomes[k].call.newValue == newValue
    {
      MatchingCallbackInvoked(target, fieldName, fieldType, oldValue, newValue, callbacks[k]);
    }
    AllInvoked(outcomes);
    forall k | 0 <= k < |callbacks|
      ensures Some(Invocations(outcomes)[k].callback) == ReflectedMethod(target, callbacks[k].callbackName)
      ensures Invocations(outcomes)[k].oldValue == oldValue && Invocations(outcomes)[k].newValue == newValue
    {
      assert Invocations(outcomes)[k] == outcomes[k].call;
    }
  }

  /** A callback that matches is invoked on the target with (old, new). */
  lemma MatchingCallbackInvoked(target: Value, fieldName: string, fieldType: RuntimeType, oldValue: Value, newValue: Value, a: Attribute)
    requires a.OnValueChanged? && CallbackMatches(target, fieldType, a)
    ensures CallbackOutcomeOf(target, fieldName, fieldType, oldValue, newValue, a.callbackName)
      == Invoked(Invocation(target, ReflectedMethod(target, a.callbackName).value, oldValue, newValue))
  {
    CallbackOutcomeCases(target, fieldName, fieldType, oldValue, newValue, a.callbackName);
  }

  /** When no callback matches, nothing is invoked and each callback yields its warning, in order. */
  lemma DispatchNoneMatch(target: Value, fieldName: string, fieldType: RuntimeType, oldValue: Value, newValue: Value, callbacks: seq<Attribute>)
    requires forall k :: 0 <= k < |callbacks| ==> callbacks[k].OnValueChanged? && !CallbackMatches(target, fieldType, callbacks[k])
    ensures var outcomes := Dispatch(target, fieldName, fieldType, oldValue, newValue, callbacks);
      Invocations(outcomes) == [] && |Warnings(outcomes)| == |callbacks|
  {
    var outcomes := Dispatch(target, fieldName, fieldType, oldValue, newValue, callbacks);
    DispatchAt(target, fieldName, fieldType, oldValue, newValue, callbacks);
    forall k | 0 <= k < |callbacks| ensures outcomes[k].Skipped? {
      CallbackOutcomeCases(target, fieldName, fieldType, oldValue, newValue, callbacks[k].callbackName);
    }
    AllSkipped(outcomes);
  }

  /**
    CallOnValueChangedCallbacks. `committed` is what the property's accessor reads once
    ApplyModifiedProperties has committed the edit; `applied` says whether this call committed it.
    `outcomes` lists, in attribute order, each callback invoked or warning logged.
    Fields of an unclassifiable type are left alone: nothing is committed, invoked or warned.
   */
  method CallOnValueChangedCallbacks(so: SerializedObject, property: SerializedProperty, committed: Value)
    returns (applied: bool, outcomes: seq<CallbackOutcome>)
    ensures applied <==> GetPropertyType(property).Some?
    ensures GetPropertyType(property).None? ==> outcomes == []
    ensures GetPropertyType(property).Some? ==>
      outcomes == Dispatch(OwnerOf(so.targetObject, property.propertyPath), property.name,
        GetPropertyType(property).value, property.current, committed, GetAttributes(property, OnValueChangedKind))
  {
    var propertyType := GetPropertyType(property);
    if propertyType.None? {
      return false, [];
    }
    var target := GetTargetObjectWithProperty(so, property);
    var oldValue := GetPropertyValue(property).value;
    applied := true;
    var newValue := GetPropertyValue(property.(current := committed)).value;
    var fieldName := property.name;
    var attrs := GetAttributes(property, OnValueChangedKind);
    outcomes := DispatchCallbacks(target, fieldName, propertyType.value, oldValue, newValue, attrs);
  }

  /** The foreach of CallOnValueChangedCallbacks: each attribute's callback in turn, in declaration order. */
  method DispatchCallbacks(target: Value, fieldName: string, fieldType: RuntimeType, oldValue: Value, newValue: Value,
                           attrs: seq<Attribute>)
    returns (outcomes: seq<CallbackOutcome>)
    requires forall k :: 0 <= k < |attrs| ==> attrs[k].OnValueChanged?
    ensures outcomes == Dispatch(target, fieldName, fieldType, oldValue, newValue, attrs)
  {
    outcomes := [];
    for i := 0 to |attrs|
      invariant |outcomes| == i
      invariant forall k :: 0 <= k < i ==>
        outcomes[k] == CallbackOutcomeOf(target, fieldName, fieldType, oldValue, newValue, attrs[k].callbackName)
    {
      outcomes := outcomes + [CallbackOutcomeOf(target, fieldName, fieldType, oldValue, newValue, attrs[i].callbackName)];
    }
    DispatchAt(target, fieldName, fieldType, oldValue, newValue, attrs);
  }
}
