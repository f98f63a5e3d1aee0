/** Types shared by the server variants and the client. */
module Common {

  /** An optional request field: `None` is a field the JSON body leaves out. */
  datatype Option<+T> = None | Some(value: T)

  /** A document identifier, assigned by the store. */
  type Id = nat

  /** A point in time, in milliseconds since the epoch. */
  type Time = int

  /** A bid or price. Only comparisons and copies are made on it. */
  type Money = real

  /** JavaScript truthiness of an optional string field: present and not the empty string. */
  predicate Truthy(s: Option<string>)
  {
    s.Some? && s.value != ""
  }
}
