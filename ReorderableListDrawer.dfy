/**
  The reorderable-list drawer. It keeps one list widget per array property, keyed by the
  inspected object's instance id and the property's name, built on first draw and reused after.
 */
module ReorderableListDrawer {
  import opened Text
  import opened Serialization

  /** GetPropertyKeyName: the decimal instance id of the inspected object, "/", the property's name. */
  function GetPropertyKeyName(so: SerializedObject, property: SerializedProperty): (key: string)
    ensures var n := IndexOf(key, '/');
      n == |IntToString(so.instanceID)| && key[..n] == IntToString(so.instanceID) && key[n + 1..] == property.name
  {
    IntToStringInjective(so.instanceID, so.instanceID);
    IndexOfSeparated(IntToString(so.instanceID), property.name, '/');
    IntToString(so.instanceID) + "/" + property.name
  }

  /** Two properties share a key exactly when their objects' ids and their names agree. */
  lemma PropertyKeyNameInjective(so1: SerializedObject, p1: SerializedProperty, so2: SerializedObject, p2: SerializedProperty)
    ensures GetPropertyKeyName(so1, p1) == GetPropertyKeyName(so2, p2) <==>
      so1.instanceID == so2.instanceID && p1.name == p2.name
  {
    IntToStringInjective(so1.instanceID, so2.instanceID);
    IntToStringInjective(so2.instanceID, so1.instanceID);
    if GetPropertyKeyName(so1, p1) == GetPropertyKeyName(so2, p2) {
      assert IntToString(so1.instanceID) + ['/'] + p1.name == IntToString(so2.instanceID) + ['/'] + p2.name;
      SeparatedPrefix(IntToString(so1.instanceID), p1.name, IntToString(so2.instanceID), p2.name, '/');
    }
  }

  /** The list widget, built over the serialized object and the array property it edits. */
  class ReorderableList {
    const serializedObject: SerializedObject
    const property: SerializedProperty

    constructor (serializedObject: SerializedObject, property: SerializedProperty)
      ensures this.serializedObject == serializedObject && this.property == property
    {
      this.serializedObject := serializedObject;
      this.property := property;
    }
  }

  /** What a draw produces: the default field under a warning, or the layout of a cached list. */
  datatype ListDraw = DefaultFieldWithWarning(warning: Warning) | ListLayout(list: ReorderableList)

  class ReorderableListPropertyDrawer {
    var reorderableListsByPropertyName: map<string, ReorderableList>

    /** Every cached list is stored under the key of the object and property it was built for. */
    ghost predicate Valid()
      reads this
    {
      forall key :: key in reorderableListsByPropertyName ==>
        GetPropertyKeyName(reorderableListsByPropertyName[key].serializedObject, reorderableListsByPropertyName[key].property) == key
    }

    constructor ()
      ensures Valid() && reorderableListsByPropertyName == map[]
    {
      reorderableListsByPropertyName := map[];
    }

    /**
      OnGUI_Internal, cache logic: a non-array property gets the warning and no entry; an array
      property gets the list cached under its key, built and inserted only on the first draw.
     */
    method OnGUI(so: SerializedObject, property: SerializedProperty) returns (drawn: ListDraw)
      requires Valid()
      modifies this
      ensures Valid()
      ensures !property.isArray ==>
        drawn == DefaultFieldWithWarning(ReorderableListOnNonArray)
        && reorderableListsByPropertyName == old(reorderableListsByPropertyName)
      ensures property.isArray ==>
        var key := GetPropertyKeyName(so, property);
        key in reorderableListsByPropertyName && drawn == ListLayout(reorderableListsByPropertyName[key])
      ensures property.isArray && GetPropertyKeyName(so, property) in old(reorderableListsByPropertyName) ==>
        reorderableListsByPropertyName == old(reorderableListsByPropertyName)
      ensures property.isArray && GetPropertyKeyName(so, property) !in old(reorderableListsByPropertyName) ==>
        fresh(drawn.list) && drawn.list.serializedObject == so && drawn.list.property == property
        && reorderableListsByPropertyName == old(reorderableListsByPropertyName)[GetPropertyKeyName(so, property) := drawn.list]
    {
      if !property.isArray {
        return DefaultFieldWithWarning(ReorderableListOnNonArray);
      }
      var key := GetPropertyKeyName(so, property);
      if key !in reorderableListsByPropertyName {
        var reorderableList := new ReorderableList(so, property);
        reorderableListsByPropertyName := reorderableListsByPropertyName[key := reorderableList];
      }
      drawn := ListLayout(reorderableListsByPropertyName[key]);
    }

    /** ClearCache: forget every list. */
    method ClearCache()
      modifies this
      ensures Valid() && reorderableListsByPropertyName == map[]
    {
      reorderableListsByPropertyName := map[];
    }
  }

  /** The list cached under a property's key was built for a property of that name on an object of that id. */
  lemma CachedListMatchesProperty(drawer: ReorderableListPropertyDrawer, so: SerializedObject, property: SerializedProperty)
    requires drawer.Valid()
    requires GetPropertyKeyName(so, property) in drawer.reorderableListsByPropertyName
    ensures var list := drawer.reorderableListsByPropertyName[GetPropertyKeyName(so, property)];
      list.serializedObject.instanceID == so.instanceID && list.property.name == property.name
  {
    var list := drawer.reorderableListsByPropertyName[GetPropertyKeyName(so, property)];
    PropertyKeyNameInjective(list.serializedObject, list.property, so, property);
  }
}
