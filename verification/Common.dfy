/** Types and small predicates that several components share. */
module Common {
  datatype Option<T> = None | Some(value: T)

  /** The two Internet address families. */
  datatype Family = INET | INET6

  /** The bytes of an address, in network order. */
  type Octets = seq<bv8>

  predicate IsDigit(c: char) { '0' <= c <= '9' }

  predicate AllDigits(s: string) { forall c <- s :: IsDigit(c) }
}
