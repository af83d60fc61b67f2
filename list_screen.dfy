/**
 * The index arithmetic of the list screen: entries are laid out two per row,
 * and the last row asks the view model for the next page.
 */
module PokemonListScreen {

  /** `itemCount`: the number of rows, half the list size rounded up. */
  function ItemCount(size: nat): (n: nat)
    ensures 2 * n >= size && 2 * n <= size + 1
  {
    if size % 2 == 0 then size / 2 else size / 2 + 1
  }

  /** The bounds in the contract of ItemCount determine it: it is the ceiling of `size / 2`. */
  lemma ItemCountUnique(size: nat, n: nat)
    requires 2 * n >= size && 2 * n <= size + 1
    ensures n == ItemCount(size)
  {
  }

  /** The right-hand cell of a row: an entry, or the spacer that fills an odd list's last row. */
  datatype Cell<T> = Entry(entry: T) | Spacer

  datatype Row<T> = Row(left: T, right: Cell<T>)

  /**
   * `PokedexRow`: the row shows the entry at twice the row index on the left
   * and, when the list is long enough, the one after it on the right; the
   * left access demands that its index is in bounds.
   */
  function PokedexRow<T>(entries: seq<T>, rowIndex: nat): (row: Row<T>)
    requires rowIndex * 2 < |entries|
    ensures row.left == entries[2 * rowIndex]
    ensures row.right.Entry? <==> 2 * rowIndex + 1 < |entries|
    ensures row.right.Entry? ==> row.right.entry == entries[2 * rowIndex + 1]
  {
    Row(entries[rowIndex * 2],
        if |entries| >= rowIndex * 2 + 2 then Entry(entries[rowIndex * 2 + 1]) else Spacer)
  }

  /** Every row the list renders has its left index in bounds. */
  lemma RowInBounds(size: nat, rowIndex: nat)
    requires rowIndex < ItemCount(size)
    ensures rowIndex * 2 < size
  {
  }

  /** The rows the lazy column renders: one `PokedexRow` for each of the `itemCount` items. */
  function Grid<T>(entries: seq<T>): (rows: seq<Row<T>>)
    ensures |rows| == ItemCount(|entries|)
  {
    seq(ItemCount(|entries|), (r: int) requires 0 <= r < ItemCount(|entries|) => PokedexRow(entries, r))
  }

  /** The entries a row shows, left to right. */
  function Shown<T>(row: Row<T>): (r: seq<T>)
    ensures 1 <= |r| <= 2 && r[0] == row.left
  {
    [row.left] + (if row.right.Entry? then [row.right.entry] else [])
  }

  /** The entries a sequence of rows shows, top to bottom. */
  function ShownAll<T>(rows: seq<Row<T>>): (r: seq<T>)
    ensures |rows| <= |r| <= 2 * |rows|
  {
    if rows == [] then [] else ShownAll(rows[..|rows| - 1]) + Shown(rows[|rows| - 1])
  }

  lemma {:induction false} ShownPrefix<T>(entries: seq<T>, k: nat)
    requires k <= ItemCount(|entries|)
    ensures ShownAll(Grid(entries)[..k]) == entries[..if 2 * k <= |entries| then 2 * k else |entries|]
  {
    if k > 0 {
      var rows := Grid(entries);
      assert rows[..k][..k - 1] == rows[..k - 1];
      ShownPrefix(entries, k - 1);
      var last := rows[k - 1];
      assert last == PokedexRow(entries, k - 1);
    }
  }

  /** The grid shows every entry exactly once, in list order. */
  lemma GridShowsEachEntryOnce<T>(entries: seq<T>)
    ensures ShownAll(Grid(entries)) == entries
  {
    var rows := Grid(entries);
    assert rows[..|rows|] == rows;
    ShownPrefix(entries, |rows|);
    assert entries[..|entries|] == entries;
  }

  /** Entry `i` sits in row `i / 2`, on the left when `i` is even and on the right when odd. */
  lemma EntryPosition<T>(entries: seq<T>, i: nat)
    requires i < |entries|
    ensures i / 2 < ItemCount(|entries|)
    ensures i % 2 == 0 ==> Grid(entries)[i / 2].left == entries[i]
    ensures i % 2 == 1 ==> Grid(entries)[i / 2].right == Entry(entries[i])
  {
  }

  /** A row's right cell is the spacer exactly in the last row of an odd-sized list. */
  lemma SpacerOnlyInLastOddRow<T>(entries: seq<T>, rowIndex: nat)
    requires rowIndex < ItemCount(|entries|)
    ensures Grid(entries)[rowIndex].right.Spacer? <==>
      rowIndex == ItemCount(|entries|) - 1 && |entries| % 2 == 1
  {
  }

  /**
   * The load trigger evaluated as row `it` is composed: of the rendered rows
   * only the last can fire it, and the last fires it exactly when the end is
   * not reached and nothing is loading or being searched.
   */
  predicate TriggersLoad(it: int, itemCount: int, endReached: bool, isLoading: bool, isSearching: bool): (b: bool)
    ensures 0 <= it < itemCount && b ==> it == itemCount - 1
    ensures it == itemCount - 1 ==> (b <==> !endReached && !isLoading && !isSearching)
  {
    it >= itemCount - 1 && !endReached && !isLoading && !isSearching
  }

  /**
   * The rows whose composition calls `loadPokemonPaginated`: only the last
   * row, and only when the end is not reached and nothing is loading or being
   * searched; an empty list has no rows and loads nothing.
   */
  function LoadTriggerRows(size: nat, endReached: bool, isLoading: bool, isSearching: bool): (rows: set<nat>)
    ensures rows == if size > 0 && !endReached && !isLoading && !isSearching
                    then {ItemCount(size) - 1} else {}
  {
    var n := ItemCount(size);
    var rows := set it: nat | it < n && TriggersLoad(it, n, endReached, isLoading, isSearching);
    assert size > 0 && !endReached && !isLoading && !isSearching ==> n - 1 in rows;
    rows
  }
}
