/**
 * `PhotoCard`: the editing card of one photo. Each user event on the card becomes one call of
 * `onUpdateCategory(id, category, isCustom)` or `onRemove(id)`.
 */
module PhotoCard {
  import opened Results
  import opened Types
  import PdfPage

  /** The value of the menu entry that switches to free-text entry. */
  const CUSTOM_OPTION := "custom"

  /** The events a card reacts to. The menu exists only in preset mode; the text field and the
      back-to-menu button only in custom mode; the remove button always. */
  datatype CardEvent =
    | MenuChanged(value: string)
    | CustomTextChanged(text: string)
    | BackToMenuClicked
    | RemoveClicked

  /** The callback a card calls. */
  datatype CardAction =
    | UpdateCategory(id: string, category: string, isCustom: bool)
    | Remove(id: string)

  /** The callback fired by `event` on the card of `photo`; `None` when the control that would
      raise the event is not on the card in its current mode. */
  function OnEvent(photo: Photo, event: CardEvent): (r: Option<CardAction>)
    ensures r.Some? ==> r.value.id == photo.id
    ensures event.RemoveClicked? ==> r == Some(Remove(photo.id))
    ensures event.MenuChanged? ==>
      (photo.isCustomCategory <==> r.None?) &&
      (r.Some? && event.value == CUSTOM_OPTION ==> r.value == UpdateCategory(photo.id, "", true)) &&
      (r.Some? && event.value != CUSTOM_OPTION ==> r.value == UpdateCategory(photo.id, event.value, false))
    ensures event.CustomTextChanged? ==>
      (!photo.isCustomCategory <==> r.None?) &&
      (r.Some? ==> r.value == UpdateCategory(photo.id, event.text, true))
    ensures event.BackToMenuClicked? ==>
      (!photo.isCustomCategory <==> r.None?) &&
      (r.Some? ==> r.value == UpdateCategory(photo.id, DEFAULT_CATEGORIES[0], false))
    ensures r.Some? && r.value.UpdateCategory? ==>
      (r.value.isCustom <==> (event.CustomTextChanged? || event == MenuChanged(CUSTOM_OPTION)))
  {
    match event
    case MenuChanged(value) =>
      if photo.isCustomCategory then None
      else if value == CUSTOM_OPTION then Some(UpdateCategory(photo.id, "", true))
      else Some(UpdateCategory(photo.id, value, false))
    case CustomTextChanged(text) =>
      if photo.isCustomCategory then Some(UpdateCategory(photo.id, text, true)) else None
    case BackToMenuClicked =>
      if photo.isCustomCategory then Some(UpdateCategory(photo.id, DEFAULT_CATEGORIES[0], false)) else None
    case RemoveClicked =>
      Some(Remove(photo.id))
  }

  /** The card's picture has the shape the photo will have in the exported page. */
  function AspectClass(mode: LayoutMode): (r: PdfPage.Aspect)
    ensures r == PdfPage.CellAspect(mode)
  {
    if mode == Portrait then PdfPage.Aspect(3, 4) else PdfPage.Aspect(4, 3)
  }
}
