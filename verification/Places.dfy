/** Places in a list, for saying that one list is picked from another in order. */
module Places {

  ghost predicate Ascending(at: seq<nat>, bound: nat) {
    && (forall i, j | 0 <= i < j < |at| :: at[i] < at[j])
    && (forall i | 0 <= i < |at| :: at[i] < bound)
  }

  lemma NoPlaces()
    ensures forall bound: nat :: Ascending([], bound)
  {
  }

  lemma AscendingMore(at: seq<nat>, bound: nat)
    requires Ascending(at, bound)
    ensures Ascending(at, bound + 1) && Ascending(at + [bound], bound + 1)
    ensures forall k: nat :: k in at + [bound] <==> k in at || k == bound
    ensures forall k: nat :: k in at ==> k < bound
  {
  }
}
