/** Facts about finite sets that loops over Go maps need. */
module Sets {

  /**
    A non-empty set has an element, so a loop over the keys of a map can pick
    the next one.
   */
  lemma NonEmptyHasMember<T>(s: set<T>) returns (x: T)
    requires s != {}
    ensures x in s
  {
    if forall y :: y !in s {
      assert false;
    }
    x :| x in s;
  }
}
