/** The gallery's item record (the `ImageGallery` type the components share). */
module ImageTypes {

  /** dnd-kit's `UniqueIdentifier`: a string or a number. Datatype equality
      is JavaScript's `===` on these: `Str("1")` and `Num(1)` differ. */
  datatype Id = Str(text: string) | Num(number: int)

  /** One image card: its identifier, the image it shows, and whether it is
      ticked for deletion. */
  datatype Item = Item(id: Id, slug: string, isSelected: bool)

  /** Some item of `items` carries the identifier `id`. */
  predicate HasId(items: seq<Item>, id: Id)
  {
    exists i :: 0 <= i < |items| && items[i].id == id
  }

  /** No two items of `items` share an identifier. */
  predicate UniqueIds(items: seq<Item>)
  {
    forall i, j :: 0 <= i < j < |items| ==> items[i].id != items[j].id
  }
}
