/**
 * What the two services share about a store table: rows addressed by a
 * string key, the result of a statement, and the `.eq('id', id)` selection
 * that an update or a delete applies to.
 */
module Tables {
  import opened Wrappers
  import opened Records

  /** The table after a call and what the call resolved or threw. */
  datatype Response<Row, T> = Response(table: seq<Row>, result: Result<T, Exception>)

  /** Some row of `rows` has key `id`. */
  predicate HasKey<Row>(rows: seq<Row>, key: Row -> string, id: string) {
    exists i :: 0 <= i < |rows| && key(rows[i]) == id
  }

  /** The primary-key invariant: no two rows share a key. */
  predicate UniqueKeys<Row>(rows: seq<Row>, key: Row -> string) {
    forall i, j :: 0 <= i < j < |rows| ==> key(rows[i]) != key(rows[j])
  }

  /** The position of the first row with key `id`, or None when no row has it. */
  function IndexOfKey<Row>(rows: seq<Row>, key: Row -> string, id: string): (r: Option<nat>)
    ensures r.Some? <==> HasKey(rows, key, id)
    ensures r.Some? ==> r.value < |rows| && key(rows[r.value]) == id
    ensures r.Some? ==> forall k :: 0 <= k < r.value ==> key(rows[k]) != id
  {
    if |rows| == 0 then None
    else if key(rows[0]) == id then Some(0)
    else
      var rest := IndexOfKey(rows[1..], key, id);
      assert forall i :: 1 <= i < |rows| ==> rows[i] == rows[1..][i - 1];
      assert HasKey(rows[1..], key, id) ==> HasKey(rows, key, id);
      if rest.Some? then Some(rest.value + 1) else None
  }

  /** On a table with distinct keys, no other row shares the key of the row at `j`. */
  lemma OnlyRowWithKey<Row>(rows: seq<Row>, key: Row -> string, j: int)
    requires UniqueKeys(rows, key)
    requires 0 <= j < |rows|
    ensures forall i :: 0 <= i < |rows| && key(rows[i]) == key(rows[j]) ==> i == j
  {
  }

  /** Removing one row from a table with distinct keys leaves the keys distinct. */
  lemma RemoveKeepsKeysUnique<Row>(rows: seq<Row>, key: Row -> string, j: int)
    requires UniqueKeys(rows, key)
    requires 0 <= j < |rows|
    ensures UniqueKeys(rows[..j] + rows[j + 1..], key)
  {
    var rest := rows[..j] + rows[j + 1..];
    forall a, b | 0 <= a < b < |rest|
      ensures key(rest[a]) != key(rest[b])
    {
      var a', b' := if a < j then a else a + 1, if b < j then b else b + 1;
      assert rest[a] == rows[a'] && rest[b] == rows[b'];
    }
  }

  /** The `.neq`-style selection a delete keeps: every row whose key is not `id`. */
  function KeyOtherThan<Row>(key: Row -> string, id: string): Row -> bool {
    (row: Row) => key(row) != id
  }

  /** Each row with key `id` replaced by `change` of it; every other row as it was. */
  function UpdateWhere<Row>(rows: seq<Row>, key: Row -> string, id: string, change: Row -> Row): seq<Row> {
    seq(|rows|, i requires 0 <= i < |rows| => if key(rows[i]) == id then change(rows[i]) else rows[i])
  }

  /** The key column of the `dreams` table. */
  function DreamKey(d: Dream): string {
    d.id
  }

  /** The key column of the `styles` table. */
  function StyleKey(s: Style): string {
    s.id
  }
}
