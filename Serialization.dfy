/**
  The host editor's serialization surface as the drawers see it: a serialized object
  (the inspected target, its instance id, and the properties findable by path), a
  serialized property, the declarative attributes attached to a field, and the warnings
  the editor logs.
 */
module Serialization {
  import opened Wrappers
  import opened Reflection

  /** Unity's SerializedPropertyType; `Unlisted` stands for any value the switches do not name. */
  datatype SerializedPropertyType =
    | Generic | Integer | Boolean | Float | String | Color | ObjectReference | LayerMask | Enum
    | Vector2 | Vector3 | Vector4 | Rect | ArraySize | Character | AnimationCurve | Bounds
    | Gradient | Quaternion | ExposedReference | FixedBufferSize | Vector2Int | Vector3Int
    | RectInt | BoundsInt | ManagedReference
    | Unlisted(code: int)

  /**
    A serialized property. `current` is what its typed accessor (intValue, boolValue,
    objectReferenceValue, ...) returns now; `typeName` is its `type` text; `memberAttributes`
    is what the host's reflection bridge yields for the backing field: the attributes declared
    on it, or nothing when the bridge cannot find the field.
   */
  datatype SerializedProperty = SerializedProperty(
    propertyPath: string,
    name: string,
    displayName: string,
    typeName: string,
    propertyType: SerializedPropertyType,
    isArray: bool,
    current: Value,
    memberAttributes: Option<seq<Attribute>>)

  /** The serialized view of one inspected object. */
  datatype SerializedObject = SerializedObject(
    targetObject: Value,
    instanceID: int,
    properties: map<string, SerializedProperty>)
  {
    /** SerializedObject.FindProperty(path): the property at that path, or nothing. */
    function FindProperty(path: string): (r: Option<SerializedProperty>)
      ensures r.Some? <==> path in properties
      ensures r.Some? ==> r.value == properties[path]
    {
      if path in properties then Some(properties[path]) else None
    }
  }

  /** SerializedProperty.boolValue: the stored flag, false for a value that is not a bool. */
  function BoolValue(p: SerializedProperty): bool {
    p.current.Bool? && p.current.b
  }

  datatype ConditionOperator = And | Or

  /** The parameters shared by EnableIf/DisableIf and ShowIf/HideIf. */
  datatype ConditionSet = ConditionSet(conditions: seq<string>, op: ConditionOperator, inverted: bool)

  datatype TextAlignment = Left | Center | Right

  datatype ShowAssetPreviewAttribute = ShowAssetPreviewAttribute(width: int, height: int, alignment: TextAlignment)

  /**
    A declarative attribute on a field. `typeName` is the attribute's runtime type name
    (EnableIfAttribute, DisableIfAttribute, ShowIfAttribute, HideIfAttribute, ...).
   */
  datatype Attribute =
    | EnableIf(typeName: string, condition: ConditionSet)
    | ShowIf(typeName: string, condition: ConditionSet)
    | Label(text: string)
    | OnValueChanged(callbackName: string)
    | ShowAssetPreview(preview: ShowAssetPreviewAttribute)
    | ReorderableList
    | OtherAttribute(typeName: string)
  {
    function Kind(): AttributeKind {
      match this
      case EnableIf(_, _) => EnableIfKind
      case ShowIf(_, _) => ShowIfKind
      case Label(_) => LabelKind
      case OnValueChanged(_) => OnValueChangedKind
      case ShowAssetPreview(_) => ShowAssetPreviewKind
      case ReorderableList => ReorderableListKind
      case OtherAttribute(t) => OtherKind(t)
    }
  }

  /** The type argument of GetAttribute<T>/GetAttributes<T>. */
  datatype AttributeKind =
    | EnableIfKind | ShowIfKind | LabelKind | OnValueChangedKind | ShowAssetPreviewKind
    | ReorderableListKind | OtherKind(typeName: string)

  /** A warning passed to Debug.LogWarning or drawn as a warning help box. */
  datatype Warning =
    | ConditionUnresolved(attributeType: string)
    | CallbackTypeMismatch(field: string, callback: string, fieldType: RuntimeType, param0: RuntimeType, param1: RuntimeType)
    | CallbackShapeInvalid(attributeType: string)
    | ReorderableListOnNonArray
    | NoAssetPreview(propertyName: string)
  {
    /** The warning's text, for the warnings whose text names no CLR type. */
    function Message(): string
      requires !CallbackTypeMismatch?
    {
      match this
      case ConditionUnresolved(t) => t + " needs a valid boolean condition field, property or method name to work"
      case CallbackShapeInvalid(t) =>
        t + " can invoke only methods with 'void' return type and 2 parameters of the same type as the field the attribute was put on"
      case ReorderableListOnNonArray => "ReorderableListAttribute can be used only on arrays or lists"
      case NoAssetPreview(n) => n + " doesn't have an asset preview"
    }
  }

  /** One MethodInfo.Invoke(target, {oldValue, newValue}) of a value-change callback. */
  datatype Invocation = Invocation(target: Value, callback: MethodInfo, oldValue: Value, newValue: Value)
}
