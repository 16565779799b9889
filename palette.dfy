/**
 * The category palette of graph/NodeCategories.java and the BLACK colour
 * that the rest of the program uses to mean "not categorised yet".
 */
module Palette {
  import opened Wrappers

  /** Every colour a node is ever given: BLACK plus the six palette colours. */
  datatype Color = Black | Magenta | Orange | Red | Green | Cyan | Pink

  /** The `categories` array, in its order. */
  const Categories: seq<Color> := [Magenta, Orange, Red, Green, Cyan, Pink]

  /** getSize(): the number of palette colours. */
  function Size(): (n: nat)
    ensures n == |Categories|
    ensures n == 6
  {
    |Categories|
  }

  /**
   * getColor(index): the palette colour at `index`; None stands for the
   * ArrayIndexOutOfBoundsException that any other index raises.
   */
  function GetColor(index: int): (c: Option<Color>)
    ensures c.Some? <==> 0 <= index < Size()
    ensures c.Some? ==> c.value != Black
    ensures c.Some? ==> forall j :: 0 <= j < Size() && j != index ==> Categories[j] != c.value
  {
    if 0 <= index < |Categories| then Some(Categories[index]) else None
  }

  /** The six palette colours are pairwise distinct and none of them is BLACK. */
  lemma {:induction false} CategoriesDistinct()
    ensures forall i, j :: 0 <= i < j < |Categories| ==> Categories[i] != Categories[j]
    ensures Black !in Categories
    ensures forall c: Color :: c != Black <==> c in Categories
  {
  }
}
