/**
  The asset-preview drawer: whether an object reference has a preview, the preview's size
  clamped to the texture, the row height, and the warning drawn for other property types.
  Heights are abstract integers; the texture loader is a parameter.
 */
module ShowAssetPreviewDrawer {
  import opened Wrappers
  import opened Reflection
  import opened Serialization

  /** A preview texture by its pixel dimensions. */
  datatype Texture = Texture(width: nat, height: nat)

  /** A preview size (Vector2 built from two ints). */
  datatype Size = Size(x: int, y: int)

  /** Mathf.Clamp on ints: raise to `min`, else lower to `max`. */
  function Clamp(value: int, min: int, max: int): (r: int)
    ensures min <= max ==> min <= r <= max
    ensures min <= value <= max ==> r == value
    ensures value < min ==> r == min
    ensures min <= max && value > max ==> r == max
  {
    if value < min then min else if value > max then max else value
  }

  /** GetAssetPreview: a texture only for an ObjectReference that refers to something. */
  function GetAssetPreview(p: SerializedProperty, previewOf: Value -> Option<Texture>): (r: Option<Texture>)
    ensures r.Some? ==> p.propertyType == ObjectReference && p.current != Null
    ensures p.propertyType == ObjectReference && p.current != Null ==> r == previewOf(p.current)
  {
    if p.propertyType == ObjectReference then
      if p.current != Null then previewOf(p.current) else None
    else None
  }

  /** GetAssetPreviewSize: zero without a texture; else the attribute's size clamped into the texture. */
  function GetAssetPreviewSize(p: SerializedProperty, attr: ShowAssetPreviewAttribute, previewOf: Value -> Option<Texture>): (size: Size)
    ensures GetAssetPreview(p, previewOf).None? ==> size == Size(0, 0)
    ensures GetAssetPreview(p, previewOf).Some? ==>
      var t := GetAssetPreview(p, previewOf).value;
      0 <= size.x <= t.width && 0 <= size.y <= t.height
      && (0 <= attr.width <= t.width ==> size.x == attr.width)
      && (0 <= attr.height <= t.height ==> size.y == attr.height)
    ensures GetAssetPreview(p, previewOf).Some? ==>
      var t := GetAssetPreview(p, previewOf).value;
      (attr.width < 0 ==> size.x == 0) && (attr.width > t.width ==> size.x == t.width)
      && (attr.height < 0 ==> size.y == 0) && (attr.height > t.height ==> size.y == t.height)
  {
    match GetAssetPreview(p, previewOf)
    case None => Size(0, 0)
    case Some(previewTexture) =>
      Size(Clamp(attr.width, 0, previewTexture.width), Clamp(attr.height, 0, previewTexture.height))
  }

  /**
    GetPropertyHeight_Internal: the base height plus the help box for a non-reference, plus the
    preview's height when a reference has a preview, and the base height alone otherwise.
   */
  function GetPropertyHeight(p: SerializedProperty, attr: ShowAssetPreviewAttribute, previewOf: Value -> Option<Texture>,
                             baseHeight: int, helpBoxHeight: int): (h: int)
    ensures p.propertyType != ObjectReference ==> h == baseHeight + helpBoxHeight
    ensures p.propertyType == ObjectReference && GetAssetPreview(p, previewOf).None? ==> h == baseHeight
    ensures p.propertyType == ObjectReference && GetAssetPreview(p, previewOf).Some? ==>
      baseHeight <= h <= baseHeight + GetAssetPreview(p, previewOf).value.height
      && h == baseHeight + GetAssetPreviewSize(p, attr, previewOf).y
  {
    if p.propertyType == ObjectReference then
      var previewTexture := GetAssetPreview(p, previewOf);
      if previewTexture.Some? then baseHeight + GetAssetPreviewSize(p, attr, previewOf).y
      else baseHeight
    else baseHeight + helpBoxHeight
  }

  /** What a draw produces: the field with an optional preview, or the default field under a warning box. */
  datatype PreviewDraw =
    | FieldWithPreview(preview: Option<(Texture, Size)>)
    | DefaultWithHelpBox(warning: Warning)

  /** OnGUI_Internal without layout: which of the two drawings is made, and with what. */
  function OnGUI(p: SerializedProperty, attr: ShowAssetPreviewAttribute, previewOf: Value -> Option<Texture>): (d: PreviewDraw)
    ensures d.DefaultWithHelpBox? <==> p.propertyType != ObjectReference
    ensures d.DefaultWithHelpBox? ==> d.warning == NoAssetPreview(p.name) && d.warning.Message() == p.name + " doesn't have an asset preview"
    ensures d.FieldWithPreview? ==> (d.preview.Some? <==> GetAssetPreview(p, previewOf).Some?)
  {
    if p.propertyType == ObjectReference then
      match GetAssetPreview(p, previewOf)
      case Some(previewTexture) => FieldWithPreview(Some((previewTexture, GetAssetPreviewSize(p, attr, previewOf))))
      case None => FieldWithPreview(None)
    else
      DefaultWithHelpBox(NoAssetPreview(p.name))
  }

  /**
    The height reserved for a row is what its drawing occupies below the base field, provided the
    loader gives the layout pass and the repaint pass the same answer for this property.
   */
  lemma HeightMatchesDrawing(p: SerializedProperty, attr: ShowAssetPreviewAttribute,
                             heightLoader: Value -> Option<Texture>, drawLoader: Value -> Option<Texture>,
                             baseHeight: int, helpBoxHeight: int)
    requires GetAssetPreview(p, heightLoader) == GetAssetPreview(p, drawLoader)
    ensures var h := GetPropertyHeight(p, attr, heightLoader, baseHeight, helpBoxHeight);
      match OnGUI(p, attr, drawLoader)
      case DefaultWithHelpBox(_) => h == baseHeight + helpBoxHeight
      case FieldWithPreview(None) => h == baseHeight
      case FieldWithPreview(Some((texture, size))) => h == baseHeight + size.y && 0 <= size.y <= texture.height
  {
  }

  /**
    A preview that becomes available between the two passes is drawn into a row that reserved
    only the base height.
   */
  lemma PreviewArrivingBetweenPasses(p: SerializedProperty, attr: ShowAssetPreviewAttribute,
                                     heightLoader: Value -> Option<Texture>, drawLoader: Value -> Option<Texture>,
                                     baseHeight: int, helpBoxHeight: int)
    requires GetAssetPreview(p, heightLoader).None? && GetAssetPreview(p, drawLoader).Some?
    ensures GetPropertyHeight(p, attr, heightLoader, baseHeight, helpBoxHeight) == baseHeight
    ensures OnGUI(p, attr, drawLoader).FieldWithPreview? && OnGUI(p, attr, drawLoader).preview.Some?
  {
  }
}
