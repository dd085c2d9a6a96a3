# NaughtyAttributes editor core in Dafny

This project models three parts of the NaughtyAttributes Unity editor extension. It proves
properties of each.

- **Property utility.** It covers the following:
  - reading a field's attributes and its label;
  - classifying a serialized property's type and reading its value;
  - resolving a serialized property path (`items.Array.data[2].name`) through the live object graph;
  - evaluating the named conditions of EnableIf/ShowIf attributes;
  - dispatching OnValueChanged callbacks.
- **Reorderable-list drawer.** It caches one list widget per array property, keyed by
  `<instance id>/<property name>`.
- **Asset-preview drawer.** It decides whether an object reference has a preview, at what
  size, and how tall the inspector row is.

## Files

- `Wrappers.dfy`: `Option` and `Result`.
- `Text.dfy`: the .NET string operations the core relies on. These are `String.Replace`,
  `Split('.')`, `IndexOf`/`LastIndexOf`, `Int32.ToString()` and `Convert.ToInt32`
  (reduced to decimal digits), plus their lemmas.
- `Reflection.dfy`: the object graph.
  - A value is null, a primitive, a string or an object.
  - An object carries its runtime type chain. Each level of the chain has a field map, a
    property list and a method list. A level holds the members its type declares and the
    non-private ones it inherits (public, protected, internal). A base type's private members
    appear only at that base's level, which is why GetValue_Imp walks the base types.
  - Also here: the case-insensitive property lookup and the stand-ins for the reflection
    helper's `GetProperty`/`GetMethod`.
- `Serialization.dfy`: the serialized property and object, the attributes, the warnings
  `Debug.LogWarning` receives, and the invocation record.
- `PropertyUtility.dfy`, `ReorderableListDrawer.dfy`, `ShowAssetPreviewDrawer.dfy`: the
  three parts of the core.

The loops of the C# code are methods with loop invariants:
- the type-chain walk and the enumerator of the two `GetValue_Imp` overloads;
- the two path walks;
- the condition list and the condition fold;
- the callback loop.

Each method is proved equal to a specification function, and the lemmas are about those
functions. The reorderable-list drawer is a class whose map field the methods update.

## Model

| member | source | states |
|---|---|---|
| Text.ReplaceAllAbsent | Scripts/Editor/Utility/PropertyUtility.cs:291 | a path without ".Array.data[" is left unchanged by normalisation |
| Text.RemoveCharAppend | Scripts/Editor/Utility/PropertyUtility.cs:301 | removing every occurrence of a character distributes over concatenation |
| Text.RemoveCharAbsent | Scripts/Editor/Utility/PropertyUtility.cs:301 | removing a character that does not occur leaves the text unchanged |
| Text.OccursInTail | Scripts/Editor/Utility/PropertyUtility.cs:291 | an occurrence of the pattern in the tail of a text is an occurrence in the text |
| Text.AbsentWithoutFirstChar | Scripts/Editor/Utility/PropertyUtility.cs:291 | a pattern does not occur in a text lacking the pattern's first character |
| Text.NoStraddle | Scripts/Editor/Utility/PropertyUtility.cs:291 | a pattern whose last character appears nowhere earlier in it cannot straddle the end of a text free of it |
| Text.ReplaceFirst | Scripts/Editor/Utility/PropertyUtility.cs:291 | when no occurrence starts earlier, Replace turns the occurrence at the end of `x` into the replacement and carries on after it |
| Text.Split | Scripts/Editor/Utility/PropertyUtility.cs:293 | splitting at '.' gives at least one piece and no piece contains '.' |
| Text.JoinSplit | Scripts/Editor/Utility/PropertyUtility.cs:293 | joining the pieces with the separator gives back the original text, so splitting loses nothing |
| Text.SplitWithoutSeparator | Scripts/Editor/Utility/PropertyUtility.cs:293 | a text without the separator splits into itself alone |
| Text.SplitAround | Scripts/Editor/Utility/PropertyUtility.cs:293 | splitting `a.b` gives the pieces of `a` followed by the pieces of `b` |
| Text.LastIndexOf | Scripts/Editor/Utility/PropertyUtility.cs:221 | -1 when the character is absent, else the position of its last occurrence |
| Text.IndexOf | Scripts/Editor/Utility/PropertyUtility.cs:299 | -1 when the character is absent, else the position of its first occurrence |
| Text.DigitChar | Assets/NaughtyAttributes/Scripts/Editor/PropertyDrawers_SpecialCase/ReorderableListPropertyDrawer.cs:16 | a digit below ten becomes a decimal digit character |
| Text.NatToString | Assets/NaughtyAttributes/Scripts/Editor/PropertyDrawers_SpecialCase/ReorderableListPropertyDrawer.cs:16 | a number's decimal text is non-empty and all digits |
| Text.IntToString | Assets/NaughtyAttributes/Scripts/Editor/PropertyDrawers_SpecialCase/ReorderableListPropertyDrawer.cs:16 | the decimal text of an int is non-empty, starts with '-' exactly for negative ints, and is otherwise digits |
| Text.DigitsValueOfNatToString | Assets/NaughtyAttributes/Scripts/Editor/PropertyDrawers_SpecialCase/ReorderableListPropertyDrawer.cs:16 | reading a number's decimal text back gives the number |
| Text.IntToStringInjective | Assets/NaughtyAttributes/Scripts/Editor/PropertyDrawers_SpecialCase/ReorderableListPropertyDrawer.cs:16 | distinct ints have distinct decimal texts, and no int's text contains '/' |
| Text.ParseInt32 | Scripts/Editor/Utility/PropertyUtility.cs:301 | the model accepts exactly the non-empty texts of decimal digits whose value is at most 2147483647, and then gives that value |
| Text.ParseInt32OfNatToString | Scripts/Editor/Utility/PropertyUtility.cs:301 | the decimal text of an index up to 2147483647 reads back as that index |
| Text.ParseInt32RejectsSign | Scripts/Editor/Utility/PropertyUtility.cs:301 | a leading '-' or '+' makes the index text unreadable in the model |
| Text.IndexOfSeparated | Scripts/Editor/Utility/PropertyUtility.cs:299 | in `x + sep + y`, with no `sep` in `x`, the first separator is at `|x|` |
| Text.SeparatedPrefix | Assets/NaughtyAttributes/Scripts/Editor/PropertyDrawers_SpecialCase/ReorderableListPropertyDrawer.cs:16 | `x + sep + y` determines `x` and `y` when `x` holds no `sep` |
| Reflection.Elements | Scripts/Editor/Utility/PropertyUtility.cs:374 | a string enumerates its Unicode scalar values in order; an object enumerates exactly its own items, or nothing; other values are not enumerable |
| Reflection.PropertyIgnoringCase | Scripts/Editor/Utility/PropertyUtility.cs:360 | the property found matches the name ignoring case, and there is none exactly when no property matches |
| Reflection.FirstIndexOf | Scripts/Editor/Utility/PropertyUtility.cs:233 | -1 when the name is absent, else the position of its first occurrence |
| Reflection.FirstIndexOfIsFirst | Scripts/Editor/Utility/PropertyUtility.cs:233 | no position before the one found holds the name |
| Reflection.FirstLevelWith | Scripts/Editor/Utility/PropertyUtility.cs:233 | the level found has the name |
| Reflection.FirstLevelWithIsFirst | Scripts/Editor/Utility/PropertyUtility.cs:233 | no level before the one found has the name, and -1 means that no level has it |
| Reflection.PropertyLevelsNames | Scripts/Editor/Utility/PropertyUtility.cs:233 | the names searched at each level are the names of its properties, position by position |
| Reflection.MethodLevelsNames | Scripts/Editor/Utility/PropertyUtility.cs:241 | the names searched at each level are the names of its methods, position by position |
| Reflection.FirstNameFound | Scripts/Editor/Utility/PropertyUtility.cs:233-248 | the two searches together find the first occurrence, level by level, and find nothing exactly when no level has the name |
| Reflection.ReflectedProperty | Scripts/Editor/Utility/PropertyUtility.cs:233 | a property is found only on an object, and only with exactly the requested name |
| Reflection.ReflectedPropertyFirst | Scripts/Editor/Utility/PropertyUtility.cs:233 | the property found is on the chain and is the first of that name, derived levels first; there is none exactly when the target is not an object or no level has the name |
| Reflection.ReflectedMethod | Scripts/Editor/Utility/PropertyUtility.cs:241 | a method is found only on an object, and only with exactly the requested name |
| Reflection.ReflectedMethodFirst | Scripts/Editor/Utility/PropertyUtility.cs:241 | the method found is on the chain and is the first of that name, derived levels first; there is none exactly when the target is not an object or no level has the name |
| PropertyUtility.OfKind | Scripts/Editor/Utility/PropertyUtility.cs:49 | no more attributes are kept than were declared |
| PropertyUtility.OfKindMembers | Scripts/Editor/Utility/PropertyUtility.cs:49 | the attributes kept are exactly the declared ones of the requested kind |
| PropertyUtility.OfKindStartsWithFirst | Scripts/Editor/Utility/PropertyUtility.cs:40 | the filtered list begins with the first attribute of that kind in declaration order |
| PropertyUtility.OfKindAppend | Scripts/Editor/Utility/PropertyUtility.cs:49 | filtering keeps declaration order: the filter of a concatenation is the concatenation of the filters |
| PropertyUtility.GetAttributes | Scripts/Editor/Utility/PropertyUtility.cs:43-50 | there are no attributes when the field cannot be found; otherwise the list holds exactly the field's attributes of that kind |
| PropertyUtility.GetAttribute | Scripts/Editor/Utility/PropertyUtility.cs:37-41 | the attribute returned is of the requested kind |
| PropertyUtility.GetAttributeIsFirstDeclared | Scripts/Editor/Utility/PropertyUtility.cs:37-41 | GetAttribute returns the first such attribute in declaration order, and null exactly when the field has none |
| PropertyUtility.GetLabel | Scripts/Editor/Utility/PropertyUtility.cs:52-56 | the display name is the label when GetAttribute finds no Label attribute |
| PropertyUtility.GetLabelIsFirstLabel | Scripts/Editor/Utility/PropertyUtility.cs:52-56 | the label is the text of the first Label attribute declared, and the display name when the field is not found or declares none |
| PropertyUtility.GetPropertyType | Scripts/Editor/Utility/PropertyUtility.cs:92-124 | the type is null exactly for Gradient, Generic, ManagedReference and unlisted types, and is int exactly for Integer, LayerMask, ArraySize, Character and FixedBufferSize |
| PropertyUtility.GetPropertyValue | Scripts/Editor/Utility/PropertyUtility.cs:58-124 | the value is read without throwing exactly when GetPropertyType classifies the type; otherwise it fails with "Property type $<type> is not supported" |
| PropertyUtility.NormalizedPath | Scripts/Editor/Utility/PropertyUtility.cs:291 | a path without ".Array.data[" is its own normal form |
| PropertyUtility.MarkerBracketOnlyAtEnd | Scripts/Editor/Utility/PropertyUtility.cs:291 | in ".Array.data[" the character '[' occurs only at the end |
| PropertyUtility.NormalizeMarker | Scripts/Editor/Utility/PropertyUtility.cs:291 | in `x + ".Array.data[" + y`, with no marker in `x`, that marker becomes "[" and `y` is normalised in turn |
| PropertyUtility.ParseElement | Scripts/Editor/Utility/PropertyUtility.cs:297-301 | an element is a plain member exactly when it has no '['; otherwise its name is the text before the first '[' |
| PropertyUtility.RemoveLeading | Scripts/Editor/Utility/PropertyUtility.cs:301 | removing a leading character that occurs nowhere else leaves the rest |
| PropertyUtility.RemoveTrailing | Scripts/Editor/Utility/PropertyUtility.cs:301 | removing a trailing character that occurs nowhere else leaves the rest |
| PropertyUtility.StripBrackets | Scripts/Editor/Utility/PropertyUtility.cs:301 | removing '[' and then ']' from `[digits]` leaves the digits |
| PropertyUtility.ParseElementRoundTrip | Scripts/Editor/Utility/PropertyUtility.cs:297-301 | `name[i]` parses back to `name` and `i` for every index up to 2147483647 |
| PropertyUtility.PathElements | Scripts/Editor/Utility/PropertyUtility.cs:291-293 | the path has one element per piece of the normalised, split path, and at least one |
| PropertyUtility.ArrayElementPathWalk | Scripts/Editor/Utility/PropertyUtility.cs:291-308 | the path `name.Array.data[i]` Unity writes for an array element walks to element `i` of member `name` |
| PropertyUtility.LookupMemberAtFirstMatch | Scripts/Editor/Utility/PropertyUtility.cs:350-367 | at the first level of the type chain that answers, a field takes precedence over a property |
| PropertyUtility.FindMemberAtFirstMatch | Scripts/Editor/Utility/PropertyUtility.cs:352-367 | the chain answers with the first level that has the field or the property |
| PropertyUtility.FindMemberFound | Scripts/Editor/Utility/PropertyUtility.cs:352-367 | the chain gives nothing exactly when no level has the field or the property, and otherwise the answer of one of its levels |
| PropertyUtility.LookupMember | Scripts/Editor/Utility/PropertyUtility.cs:343-347 | a value that is not an object has no members: the lookup gives null |
| PropertyUtility.LookupMemberFound | Scripts/Editor/Utility/PropertyUtility.cs:343-370 | null for a chain where no level has the member; any value other than null is a level's field or property value |
| PropertyUtility.LookupElement | Scripts/Editor/Utility/PropertyUtility.cs:372-390 | null when the member is not enumerable or has `index` elements or fewer; otherwise its element at `index` |
| PropertyUtility.GetMemberValue | Scripts/Editor/Utility/PropertyUtility.cs:343-370 | the type-chain loop returns the member lookup: null for a null source, a field before a property at each level, and null once the chain is exhausted |
| PropertyUtility.GetElementValue | Scripts/Editor/Utility/PropertyUtility.cs:372-390 | null when the member is not enumerable or has `index` elements or fewer; otherwise the element at `index` |
| PropertyUtility.WalkFromNull | Scripts/Editor/Utility/PropertyUtility.cs:295-308 | once a step of the walk gives null, the whole walk gives null |
| PropertyUtility.WalkAppend | Scripts/Editor/Utility/PropertyUtility.cs:295-308 | walking one more element applies one more step to the result |
| PropertyUtility.TargetIsLastElementOfOwner | Scripts/Editor/Utility/PropertyUtility.cs:284-341 | the property's target is its last path element looked up on its owner |
| PropertyUtility.OwnerOfTopLevelPath | Scripts/Editor/Utility/PropertyUtility.cs:318-341 | a property whose normalised path has no '.' is owned by the inspected object itself |
| PropertyUtility.ParentPathElements | Scripts/Editor/Utility/PropertyUtility.cs:291-293 | the elements of a path without its last one are the elements of the normalised path cut at its last '.' |
| PropertyUtility.OwnerIsTargetOfParentPath | Scripts/Editor/Utility/PropertyUtility.cs:284-341 | the owner equals the target of the normalised path cut at its last '.' |
| PropertyUtility.ResolveElement | Scripts/Editor/Utility/PropertyUtility.cs:297-307 | one loop step resolves the element as the element's parse says: member lookup, indexed lookup, or null for an index that cannot be read |
| PropertyUtility.GetTargetObjectOfProperty | Scripts/Editor/Utility/PropertyUtility.cs:284-311 | null for no property; otherwise the walk of every path element from the inspected object |
| PropertyUtility.GetTargetObjectWithProperty | Scripts/Editor/Utility/PropertyUtility.cs:318-341 | the walk of every path element except the last |
| PropertyUtility.SiblingPathShape | Scripts/Editor/Utility/PropertyUtility.cs:221-225 | the condition's path ends with the condition; it is the bare condition when the property path has no '.' past position 0, and otherwise starts with the property path up to and including its last '.' |
| PropertyUtility.SiblingPathSharesParent | Scripts/Editor/Utility/PropertyUtility.cs:221-225 | the condition's path is the property's path with the last element replaced by the condition; when the only '.' is at position 0 it is the bare condition |
| PropertyUtility.ReplaceLastPiece | Scripts/Editor/Utility/PropertyUtility.cs:221-225 | splitting `parent.last` and `parent.condition` at '.' differs only in the last piece |
| PropertyUtility.ConditionValuePrecedence | Scripts/Editor/Utility/PropertyUtility.cs:225-248 | a serialized Boolean at the sibling path decides first, then a bool property of the owner, then a zero-parameter bool method of the owner; nothing exactly when none of the three resolves |
| PropertyUtility.ConditionValues | Scripts/Editor/Utility/PropertyUtility.cs:223-250 | one entry per condition |
| PropertyUtility.ConditionValuesAt | Scripts/Editor/Utility/PropertyUtility.cs:223-250 | the entry at each position is the value of the condition at that position |
| PropertyUtility.ConditionValuesAppend | Scripts/Editor/Utility/PropertyUtility.cs:223-250 | the entries for two condition lists one after the other are the entries of each list, in order |
| PropertyUtility.Present | Scripts/Editor/Utility/PropertyUtility.cs:223-250 | no more values are kept than entries |
| PropertyUtility.PresentEmpty | Scripts/Editor/Utility/PropertyUtility.cs:223-250 | nothing is kept exactly when every entry is absent |
| PropertyUtility.PresentAppend | Scripts/Editor/Utility/PropertyUtility.cs:223-250 | keeping the present values of two lists one after the other keeps those of each, in order |
| PropertyUtility.ResolvedConditionValues | Scripts/Editor/Utility/PropertyUtility.cs:217-253 | at most one value per condition |
| PropertyUtility.ResolvedConditionValuesEmpty | Scripts/Editor/Utility/PropertyUtility.cs:217-253 | no value is resolved exactly when no condition resolves |
| PropertyUtility.ResolvedConditionValuesAppend | Scripts/Editor/Utility/PropertyUtility.cs:223-250 | conditions are resolved one after another, keeping their order |
| PropertyUtility.ResolveCondition | Scripts/Editor/Utility/PropertyUtility.cs:221-248 | one pass of the loop, with the container path computed once before it, gives the condition's value as the precedence above decides |
| PropertyUtility.GetConditionValues | Scripts/Editor/Utility/PropertyUtility.cs:217-253 | the loop returns the resolved values: per condition, the first of a serialized Boolean sibling, a bool property, or a zero-parameter bool method; unresolved names are skipped |
| PropertyUtility.GetConditionsFlag | Scripts/Editor/Utility/PropertyUtility.cs:255-277 | the flag is the conjunction (And, true when empty) or the disjunction (Or, false when empty) of the values, negated exactly when inverted |
| PropertyUtility.EvaluateConditions | Scripts/Editor/Utility/PropertyUtility.cs:183-193 | when no condition resolves, false with exactly one warning naming the attribute; otherwise the combined flag and no warning |
| PropertyUtility.IsEnabled | Scripts/Editor/Utility/PropertyUtility.cs:175-194 | true and silent without an EnableIf attribute; otherwise as its conditions decide, and false with one warning when none resolves |
| PropertyUtility.IsVisible | Scripts/Editor/Utility/PropertyUtility.cs:196-215 | true and silent without a ShowIf attribute; otherwise as its conditions decide, and false with one warning when none resolves |
| PropertyUtility.CallbackOutcomeCases | Scripts/Editor/Utility/PropertyUtility.cs:141-171 | a callback is invoked with (old, new) on the owner exactly when it returns void and takes two parameters of the field's type; a void two-parameter callback of other types logs the type-mismatch warning naming the field, the callback and the three types; any other callback, or a missing one, logs the shape warning naming OnValueChangedAttribute |
| PropertyUtility.Dispatch | Scripts/Editor/Utility/PropertyUtility.cs:139-172 | one outcome per OnValueChanged attribute |
| PropertyUtility.DispatchAt | Scripts/Editor/Utility/PropertyUtility.cs:139-172 | the outcome at each position is the outcome of the callback declared at that position, one per attribute |
| PropertyUtility.Invocations | Scripts/Editor/Utility/PropertyUtility.cs:139-172 | there are no more invoked calls than outcomes |
| PropertyUtility.Warnings | Scripts/Editor/Utility/PropertyUtility.cs:139-172 | there are no more logged warnings than outcomes |
| PropertyUtility.OutcomesMembers | Scripts/Editor/Utility/PropertyUtility.cs:139-172 | the invoked calls are exactly the calls of the Invoked outcomes, and the logged warnings exactly the warnings of the Skipped ones |
| PropertyUtility.InvocationsAndWarningsPartition | Scripts/Editor/Utility/PropertyUtility.cs:139-172 | every callback yields exactly one invocation or one warning |
| PropertyUtility.AllInvoked | Scripts/Editor/Utility/PropertyUtility.cs:139-153 | when every outcome is an invocation, the calls are the outcomes' calls in order and nothing is warned |
| PropertyUtility.AllSkipped | Scripts/Editor/Utility/PropertyUtility.cs:154-171 | when every outcome is a warning, nothing is invoked and the warnings are the outcomes' in order |
| PropertyUtility.DispatchInvocationsWellTyped | Scripts/Editor/Utility/PropertyUtility.cs:139-172 | each callback yields one invocation or one warning, and every invocation is on the owner, with (old, new), of a method of matching signature |
| PropertyUtility.MatchingCallbackInvoked | Scripts/Editor/Utility/PropertyUtility.cs:139-153 | a callback that matches is invoked on the owner with (old, new) |
| PropertyUtility.DispatchAllMatch | Scripts/Editor/Utility/PropertyUtility.cs:139-153 | when every callback matches, each is invoked in order and nothing is warned |
| PropertyUtility.DispatchNoneMatch | Scripts/Editor/Utility/PropertyUtility.cs:154-171 | when no callback matches, nothing is invoked and each callback warns once |
| PropertyUtility.CallOnValueChangedCallbacks | Scripts/Editor/Utility/PropertyUtility.cs:126-173 | nothing is applied, invoked or warned when GetPropertyType is null; otherwise the change is applied and the outcomes are, in attribute order, the outcome of each callback on the owner with the old and committed values |
| PropertyUtility.DispatchCallbacks | Scripts/Editor/Utility/PropertyUtility.cs:139-172 | the foreach over the OnValueChanged attributes yields, in order, the outcome of each callback |
| ReorderableListDrawer.GetPropertyKeyName | Assets/NaughtyAttributes/Scripts/Editor/PropertyDrawers_SpecialCase/ReorderableListPropertyDrawer.cs:14-17 | the key splits at its first '/' into the decimal text of the instance id and the property name |
| ReorderableListDrawer.PropertyKeyNameInjective | Assets/NaughtyAttributes/Scripts/Editor/PropertyDrawers_SpecialCase/ReorderableListPropertyDrawer.cs:14-17 | two properties share a cache key exactly when their objects' instance ids and their names are equal |
| ReorderableListDrawer.ReorderableList.constructor | Assets/NaughtyAttributes/Scripts/Editor/PropertyDrawers_SpecialCase/ReorderableListPropertyDrawer.cs:33 | the list is built over the given serialized object and property |
| ReorderableListDrawer.ReorderableListPropertyDrawer.constructor | Assets/NaughtyAttributes/Scripts/Editor/PropertyDrawers_SpecialCase/ReorderableListPropertyDrawer.cs:12 | the cache starts empty |
| ReorderableListDrawer.ReorderableListPropertyDrawer.OnGUI | Assets/NaughtyAttributes/Scripts/Editor/PropertyDrawers_SpecialCase/ReorderableListPropertyDrawer.cs:19-54 | a non-array draw warns and leaves the cache unchanged; an array draw leaves its key in the cache and lays out that entry; an existing entry is reused and the cache is unchanged; otherwise exactly one fresh entry is added and every other key is unchanged |
| ReorderableListDrawer.ReorderableListPropertyDrawer.ClearCache | Assets/NaughtyAttributes/Scripts/Editor/PropertyDrawers_SpecialCase/ReorderableListPropertyDrawer.cs:56-59 | the cache is empty afterwards |
| ReorderableListDrawer.CachedListMatchesProperty | Assets/NaughtyAttributes/Scripts/Editor/PropertyDrawers_SpecialCase/ReorderableListPropertyDrawer.cs:29-53 | the list cached under a property's key was built for a property of that name on an object with that instance id |
| ShowAssetPreviewDrawer.Clamp | Assets/NaughtyAttributes/Scripts/Editor/PropertyDrawers/ShowAssetPreviewPropertyDrawer.cs:106-107 | the result is within [min, max]: `min` below the range, `max` above it, and the value itself inside it |
| ShowAssetPreviewDrawer.GetAssetPreview | Assets/NaughtyAttributes/Scripts/Editor/PropertyDrawers/ShowAssetPreviewPropertyDrawer.cs:81-95 | a preview exists only for an ObjectReference with a non-null reference, and is then the loader's texture |
| ShowAssetPreviewDrawer.GetAssetPreviewSize | Assets/NaughtyAttributes/Scripts/Editor/PropertyDrawers/ShowAssetPreviewPropertyDrawer.cs:97-111 | (0, 0) without a texture; otherwise each dimension is the attribute's value clamped to [0, texture dimension]: 0 for a negative value, the texture dimension for a larger one, the value itself in range |
| ShowAssetPreviewDrawer.GetPropertyHeight | Assets/NaughtyAttributes/Scripts/Editor/PropertyDrawers/ShowAssetPreviewPropertyDrawer.cs:9-28 | the base height plus the help box for a non-ObjectReference; the base height without a preview; with a preview, the base height plus the clamped preview height, which is at most the texture height |
| ShowAssetPreviewDrawer.OnGUI | Assets/NaughtyAttributes/Scripts/Editor/PropertyDrawers/ShowAssetPreviewPropertyDrawer.cs:30-79 | a non-ObjectReference draws the default field with the warning "<name> doesn't have an asset preview"; an ObjectReference draws a preview exactly when one exists |
| ShowAssetPreviewDrawer.HeightMatchesDrawing | Assets/NaughtyAttributes/Scripts/Editor/PropertyDrawers/ShowAssetPreviewPropertyDrawer.cs:9-79 | when the loader answers both passes alike, the height reserved for a row matches its drawing: the help box, nothing, or the preview's clamped height |
| ShowAssetPreviewDrawer.PreviewArrivingBetweenPasses | Assets/NaughtyAttributes/Scripts/Editor/PropertyDrawers/ShowAssetPreviewPropertyDrawer.cs:9-79 | a preview the loader supplies only after the layout pass is drawn into a row that reserved the base height alone |

## Left out

- Rendering is not modelled: EditorGUI, EditorGUILayout, GUI.Label, the help boxes, ReorderableList internals and its header, element and height callbacks.
- Float layout is not modelled either: preview alignment, rect offsets and `singleLineHeight`. Row heights, GetPropertyHeight(property) and GetHelpBoxHeight() are integer parameters.
- ShowAssetPreviewDrawer.GetAssetPreview: AssetPreview.GetAssetPreview loads textures asynchronously in the editor. Here the loader is the parameter `previewOf`.
- ShowAssetPreviewDrawer.GetAssetPreviewSize: the size is the pair of clamped ints. That these ints convert exactly to the floats of Vector2 is not modelled.
- ShowAssetPreviewDrawer.OnGUI: the attribute is passed in as the drawer's own attribute. The C# code looks it up with GetAttribute and would throw a NullReferenceException if the lookup failed.
- ShowAssetPreviewDrawer.GetPropertyHeight: the attribute is a parameter here too. The C# code looks it up with GetAttribute (line 16), and a failed lookup would make GetAssetPreviewSize throw.
- ShowAssetPreviewDrawer.GetAssetPreviewSize: the attribute it is given is assumed present; the C# code would throw a NullReferenceException on a null attribute when a texture exists.
- ShowAssetPreviewDrawer.HeightMatchesDrawing: the agreement is stated only when the loader answers the layout pass and the repaint pass alike. The editor loads previews asynchronously, so a preview can arrive between the passes; PreviewArrivingBetweenPasses states what happens then.
- Unity's private bridge from a serialized property to its field (GetFieldInfoAndStaticTypeFromProperty, lines 13-35) is not modelled. Its result is the property's `memberAttributes`: none when no field is found, otherwise the field's attributes, including inherited ones, in declaration order. The CLR does not promise any order for GetCustomAttributes.
- The helper ReflectionUtility is not part of this model. Its GetProperty and GetMethod are modelled as the first member of exactly that name along the object's type chain. The search order (runtime type first, then each base type) and the restriction to instance members are assumptions of the model. When a derived and a base type share a name, or a static member has it, the helper may resolve the other member.
- Serialization.SerializedObject.FindProperty: the serialized object is an abstract map from property paths to properties. How Unity builds and iterates that store is not modelled.
- Text.ParseInt32: narrower than Convert.ToInt32, which also accepts a sign and surrounding whitespace. Unity writes array indices as plain digits.
- Reflection.Elements: a string's elements are Unicode scalar values (Dafny's `char`), but .NET enumerates UTF-16 code units. After a character outside the Basic Multilingual Plane, the indices differ: for "a", an emoji (U+1F600), then "b", .NET's element 1 is a high surrogate and element 3 is 'b', while the model has three elements.
- PropertyUtility.IsBoolProperty and PropertyUtility.IsBoolMethod: besides the declared type `bool`, they require the yielded value to be a bool. This stands for the CLR's guarantee that a bool-typed member yields a bool; the C# code checks only the declared type (PropertyUtility.cs lines 233-248). It is an assumption of the model, not an extra check.
- Reflection.PropertyIgnoringCase: case is folded for ASCII letters only. When several properties match, it takes the first; .NET would throw AmbiguousMatchException there.
- PropertyUtility.GetMemberValue: only object values have reflected members. The members of boxed primitives and strings (for instance String.Length) are not modelled, and neither is Unity's "fake null" for destroyed objects.
- PropertyUtility.GetPropertyValue: the typed accessors (intValue, enumValueIndex, ...) are collapsed into the property's stored value. The model states only whether the call succeeds and what it returns.
- PropertyUtility.ResolveElement: where Convert.ToInt32 throws in the C# code (FormatException or OverflowException), the step resolves to null. An index text with a sign or surrounding whitespace counts as unreadable, even though Convert.ToInt32 would accept it. Unity writes indices as plain digits.
- PropertyUtility.OwnerIsTargetOfParentPath: the equality is stated for the normalised path cut at its last '.', when that prefix holds no ".Array.data[" of its own. Beyond that proviso, normalising a second time is not modelled.
- PropertyUtility.CallOnValueChangedCallbacks: ApplyModifiedProperties is modelled only through the value the accessor reads afterwards, the parameter `committed`. MethodInfo.Invoke is modelled as the recorded Invocation. Exceptions thrown by callbacks are not modelled.
- PropertyUtility.CallbackOutcomeOf: the type-mismatch warning keeps its parts (field, callback, field type, two parameter types). It is not formatted into text with Environment.NewLine and CLR type names.
- PropertyUtility.GetConditionsFlag: the `default` branch, which throws InvalidOperationException, is not modelled. C# can reach it with a value cast outside the enum, such as `(EConditionOperator)2`; the model's operator type has exactly the two named values.
- Debug.LogWarning's context object is not modelled. Invocations and warnings are returned as one sequence of callback outcomes, in the order they happen.
- ReorderableListDrawer: the static `Instance` singleton is not modelled, and neither are the flags passed to the list constructor (draggable, header, add and remove buttons).
- ReorderableListDrawer.CachedListMatchesProperty: the key uses the property's name, not its path. Two properties of the same object with the same name therefore share one entry, and the lemma can guarantee only the id and the name of the property the list was built for.
