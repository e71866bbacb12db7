/**
 * The wardrobe table: one row per clothing item with the columns
 * 카테고리 (category), 색상 (colour), 스타일 (style), 사이즈 (size) and 이미지 (image path).
 * A row's identity is its position.
 */
module Wardrobe {
  import opened Options

  /** A wardrobe row as the session holds it; `image` is "" when the item has no picture. */
  datatype Item = Item(category: string, color: string, style: string, size: string, image: string)

  /** A wardrobe row as read back from the CSV file: an empty image cell comes back missing (NaN). */
  datatype StoredRow = StoredRow(category: string, color: string, style: string, size: string, image: Option<string>)

  /** The image cell of a row after a CSV write and read: an empty path is read back as a missing value. */
  function PersistImage(path: string): (cell: Option<string>)
    ensures cell.None? <==> path == ""
    ensures cell.Some? ==> cell.value == path
  {
    if path == "" then None else Some(path)
  }

  /** What the wardrobe file yields for `items` once written and read back. */
  function Persist(items: seq<Item>): (rows: seq<StoredRow>)
    ensures |rows| == |items|
    ensures forall k :: 0 <= k < |items| ==> (rows[k].image.None? <==> items[k].image == "")
  {
    seq(|items|, i requires 0 <= i < |items| =>
      var it := items[i];
      StoredRow(it.category, it.color, it.style, it.size, PersistImage(it.image)))
  }

  /** The load-time step `fillna('')` on the image column; every other column is kept as read. */
  function Normalise(rows: seq<StoredRow>): (items: seq<Item>)
    ensures |items| == |rows|
    ensures forall k :: 0 <= k < |rows| ==>
      && items[k].category == rows[k].category && items[k].color == rows[k].color
      && items[k].style == rows[k].style && items[k].size == rows[k].size
      && (rows[k].image.None? ==> items[k].image == "")
      && (rows[k].image.Some? ==> items[k].image == rows[k].image.value)
  {
    seq(|rows|, i requires 0 <= i < |rows| =>
      var r := rows[i];
      Item(r.category, r.color, r.style, r.size, r.image.GetOr("")))
  }

  /** Saving the wardrobe and loading it again gives back the same rows: fillna undoes what the CSV round trip does to "". */
  lemma NormaliseAfterPersist(items: seq<Item>)
    ensures Normalise(Persist(items)) == items
  {
    var back := Normalise(Persist(items));
    forall k | 0 <= k < |items| ensures back[k] == items[k] {
      var it := items[k];
      assert Persist(items)[k].image == PersistImage(it.image);
    }
  }
}
