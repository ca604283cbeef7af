/** Sequences that list each element once, as sorted key lists do. */
module Listings {

  ghost predicate Distinct<T>(s: seq<T>) {
    forall i, j | 0 <= i < j < |s| :: s[i] != s[j]
  }

  /** `s` lists the set, each element once. */
  ghost predicate Lists<T(!new)>(s: seq<T>, all: set<T>) {
    Distinct(s) && forall x :: x in s <==> x in all
  }
}
