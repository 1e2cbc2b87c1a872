/** The two result shapes every component uses: an optional value (Go's nil pointer,
    SQL's NULL) and a value-or-error pair (Go's `(value, error)` returns). */
module Prelude {

  datatype Option<+T> = None | Some(value: T)

  datatype Result<+T, +E> = Ok(value: T) | Err(error: E)

  /** Of a table nothing but row k may differ; k may be new. */
  ghost predicate OnlyRow<K, V>(before: map<K, V>, after: map<K, V>, k: K) {
    after.Keys == before.Keys + {k} && forall q :: q in before && q != k ==> after[q] == before[q]
  }
}
