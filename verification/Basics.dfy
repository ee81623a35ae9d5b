/** What all parts share: optional values, the width of ids, and tables of handles. */
module Basics {
  const TWO_64: nat := 0x1_0000_0000_0000_0000
  const RESERVED_ID_CNT: nat := 4096_0000

  /** The id that stands for no branch or no version. */
  const NULL_ID: nat := RESERVED_ID_CNT - 1

  datatype Option<+T> = None | Some(value: T)

  function Find<A, B>(m: map<A, B>, a: A): Option<B> {
    if a in m then Some(m[a]) else None
  }

  /** Identifies one of the maps in the database. */
  type Handle = nat

  /** No two slots of a table lead to the same map. */
  ghost predicate Distinct<S(!new)>(slots: map<S, Handle>) {
    forall s, t :: s in slots && t in slots && slots[s] == slots[t] ==> s == t
  }
}
