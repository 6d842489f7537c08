/**
The tree of rows and the pages in memory speak of the same split: what page::store of obj/btree.h does to
an arena of pages in Rows is what it does to the slots of two pages in Split.
*/
module TreeSplit {
  import opened PageData
  import R = Rows
  import opened Split

  /** The split of a page in the tree of rows is the split of a page in memory. */
  lemma TreeSplits(pages: seq<R.Page>, p: nat, key: Key, ptr: Ptr)
    requires p < |pages| && |pages[p].recs| >= 2 && (pages[p].leftmost == Null <==> pages[p].level == 0)
    ensures var e, m, leftmost := pages[p].recs, |pages[p].recs| / 2, pages[p].leftmost;
            var after, s := R.SplitPages(pages, p, key, ptr), |pages|;
            && |after| == s + 1 && (forall q :: 0 <= q < s && q != p ==> after[q] == pages[q])
            && (after[p].recs, after[s].recs) == SplitParts(leftmost, e, m, key, ptr)
            && after[p].leftmost == leftmost && after[s].leftmost == Rightmost(leftmost, e, m)
            && after[p].sibling == Ptr.Child(s) && after[s].sibling == pages[p].sibling
            && Bumped(pages[p].counter, after[p].counter) && after[s].counter == 0
            && after[p].level == after[s].level == pages[p].level
            && R.SplitKey(pages[p]) == e[m].key
  {
    hide Inserted, InsertPos;
    BumpIs(pages[p].counter);
    EvenStays();
  }
}
