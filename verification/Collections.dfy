/** A fact about finite sets. */
module Collections {
  lemma SubsetSize<T>(less: set<T>, more: set<T>)
    requires less <= more
    ensures |less| <= |more|
  {
    assert more == less + (more - less);
  }
}
