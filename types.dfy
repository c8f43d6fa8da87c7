/** The record, constants and layout choice every component of the photo report shares. */
module Types {

  /** The two page orientations a session can be laid out in. */
  datatype LayoutMode = Portrait | Landscape

  /** A browser `File`: its name, its declared MIME type and its bytes. */
  datatype File = File(name: string, mime: string, bytes: seq<bv8>)

  /** One uploaded photo: `PhotoData`. `previewUrl` is the object URL that displays `file`. */
  datatype Photo = Photo(id: string, file: File, previewUrl: string, category: string, isCustomCategory: bool)

  /** The preset room/space categories offered by the category menu, in menu order. */
  const DEFAULT_CATEGORIES: seq<string> :=
    ["客廳", "餐廳", "廚房", "少年房間", "書房", "浴廁", "陽台", "玄關", "大門", "建物外觀"]

  /** The most photos one report may hold. */
  const MAX_PHOTOS: nat := 10

  /** How many photos one report page holds. */
  const PHOTOS_PER_PAGE: nat := 4

  /** The preset list has ten distinct entries, and a new photo's category is the living room. */
  lemma DefaultCategoriesShape()
    ensures |DEFAULT_CATEGORIES| == 10 && DEFAULT_CATEGORIES[0] == "客廳"
    ensures forall i, j :: 0 <= i < j < |DEFAULT_CATEGORIES| ==> DEFAULT_CATEGORIES[i] != DEFAULT_CATEGORIES[j]
  {
  }
}
