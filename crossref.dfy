/**
 * The final pass over the related pairs collected from every document: a pair
 * is written only when both of its codes are stored articles, and a write
 * that raises is skipped.
 */
module CrossRef {
  import opened Tables
  import opened Store

  /** The row a pair is written as, when both of its codes are stored articles. */
  predicate Admissible(pair: (string, string), articles: map<string, Article>) {
    pair.0 in articles && pair.1 in articles
  }

  /** The rows the first `k` pairs leave, in order. */
  function Validated(pairs: seq<(string, string)>, articles: map<string, Article>, failed: set<RelatedRow>, k: nat)
    : seq<RelatedRow>
    requires k <= |pairs|
  {
    if k == 0 then []
    else
      Validated(pairs, articles, failed, k - 1) + PairRows(pairs[k - 1], articles, failed)
  }

  /** The row one pair leaves: none unless both codes are stored articles and the insert does not raise. */
  function PairRows(pair: (string, string), articles: map<string, Article>, failed: set<RelatedRow>): seq<RelatedRow> {
    var row := RelatedRow(pair.0, pair.1);
    if Admissible(pair, articles) && row !in failed then [row] else []
  }

  /**
   * A row is written exactly when one of the first `k` pairs gives it, both
   * of its codes are stored articles and its insert does not raise.
   */
  lemma {:induction false} ValidatedIff(pairs: seq<(string, string)>, articles: map<string, Article>,
                                         failed: set<RelatedRow>, k: nat, row: RelatedRow)
    requires k <= |pairs|
    ensures row in Validated(pairs, articles, failed, k) <==>
      row.first in articles && row.second in articles && row !in failed &&
      exists j :: 0 <= j < k && pairs[j] == (row.first, row.second)
  {
    if k > 0 {
      ValidatedIff(pairs, articles, failed, k - 1, row);
      if pairs[k - 1] == (row.first, row.second) && row.first in articles && row.second in articles && row !in failed {
        assert PairRows(pairs[k - 1], articles, failed) == [row];
      }
    }
  }

  /** One pair: inserted when both of its articles are stored and its insert does not raise. */
  method ValidatePair(store: Store, pair: (string, string), faults: Faults)
    requires store.Valid()
    modifies store`related
    ensures store.Valid()
    ensures store.related == old(store.related) + PairRows(pair, store.articles, faults.related)
  {
    var (id1, id2) := pair;
    if id1 !in store.articles || id2 !in store.articles {
      return;
    }
    var row := RelatedRow(id1, id2);
    if row !in faults.related {
      store.AddRelated(row);
    }
  }

  /** Step 5: the pairs in order; each one with both articles stored is inserted. */
  method ValidateRelated(store: Store, pairs: seq<(string, string)>, faults: Faults)
    requires store.Valid()
    modifies store`related
    ensures store.Valid()
    ensures store.related == old(store.related) + Validated(pairs, store.articles, faults.related, |pairs|)
  {
    ghost var articles := store.articles;
    for i := 0 to |pairs|
      invariant store.Valid()
      invariant store.related == old(store.related) + Validated(pairs, articles, faults.related, i)
    {
      ghost var done := Validated(pairs, articles, faults.related, i);
      ValidatePair(store, pairs[i], faults);
      AppendAssoc(old(store.related), done, PairRows(pairs[i], articles, faults.related));
    }
  }
}
