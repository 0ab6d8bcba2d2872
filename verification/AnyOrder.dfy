/** Loops over a Go map, and over the rows of an UPDATE, take the next element in no promised order. */
module AnyOrder {
  method Pick<T>(s: set<T>) returns (x: T)
    requires s != {}
    ensures x in s
  {
    x :| x in s;
  }
}
