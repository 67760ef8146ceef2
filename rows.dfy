/**
 * Rows as the table gateway exposes them: a dictionary from column to value.
 * A column that is absent from a row holds the column default (NULL).
 * The upsert primitive (find by key, then `setFromArray` or `createRow`,
 * then `save`) is shared by every table the loader writes.
 */
module Rows {

  datatype Value = IntVal(i: int) | StrVal(s: string)

  type Row<C> = map<C, Value>

  /** What an upsert did, as the loader reports it. */
  datatype Action = Insert | Update

  /** `setFromArray`: every supplied column takes the supplied value, every
      other column keeps the value it had. */
  function SetFromArray<C>(row: Row<C>, data: Row<C>): (r: Row<C>)
    ensures r.Keys == row.Keys + data.Keys
    ensures forall c :: c in data ==> r[c] == data[c]
    ensures forall c :: c in row && c !in data ==> r[c] == row[c]
  {
    row + data
  }

  /** UPDATE when `find(key)` returns a row, INSERT otherwise. */
  function ActionFor<K, V>(table: map<K, V>, key: K): Action
  {
    if key in table then Update else Insert
  }

  /** Find the row stored under `key`; overwrite its supplied columns if it
      exists, or create a row holding exactly `data` otherwise; then save it.
      `saved` is the answer of `save()`: when it fails the table is unchanged. */
  function Upsert<K, C>(table: map<K, Row<C>>, key: K, data: Row<C>, saved: bool): (r: map<K, Row<C>>)
    ensures !saved ==> r == table
    ensures saved ==> r.Keys == table.Keys + {key}
    ensures saved ==> forall c :: c in data ==> c in r[key] && r[key][c] == data[c]
    ensures saved ==> r[key].Keys == (if key in table then table[key].Keys else {}) + data.Keys
    ensures saved && key in table ==> forall c :: c !in data && c in table[key] ==> r[key][c] == table[key][c]
    ensures forall k :: k != key && k in table ==> r[k] == table[k]
  {
    if !saved then table
    else if key in table then table[key := SetFromArray(table[key], data)]
    else table[key := data]
  }

  /** Upserting the same data under the same key twice leaves the table as
      upserting it once: the second call's values simply overwrite the first's. */
  lemma UpsertTwice<K, C>(table: map<K, Row<C>>, key: K, data: Row<C>, saved: bool)
    ensures Upsert(Upsert(table, key, data, saved), key, data, saved) == Upsert(table, key, data, saved)
  {
    var once := Upsert(table, key, data, saved);
    if saved {
      assert SetFromArray(once[key], data) == once[key];
    }
  }
}
