/** Object ids. Every object a statement creates takes its id from one allocator. */
module Oids {
  /** The first id the allocator hands out; built-in types and accounts lie below it. */
  const FIRST_USER_OID := 10_000
}
