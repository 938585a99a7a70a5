/** What a search promises, and what a history of operations leaves to search. */
module VectorStoreLaws {
  import opened Wrappers
  import opened Sequences
  import opened Orders
  import opened Cosine
  import opened VectorStore

  // ----- Search -----

  function RankOfHit(h: Hit): Rank { Rank(h.score, h.id) }

  /** The list holds the best `k` candidate points, best first: each is stored, a candidate
      and carries its own score and metadata, and every candidate left out ranks after it. */
  ghost predicate IsAnswer(
    sqrt: real -> real, points: Points, query: Vector, k: nat, candidates: Option<seq<string>>, hits: seq<Hit>)
  {
    && (forall h :: h in hits ==> h.id in points && h.metadata == points[h.id].metadata)
    && IsBest(Before, Ranks(sqrt, query, points, candidates), k, Map(RankOfHit, hits))
  }

  lemma RanksOfHits(points: Points, ranking: seq<Rank>)
    requires forall x :: x in ranking ==> x.id in points
    ensures Map(RankOfHit, HitsOf(points, ranking)) == ranking
  {
  }

  lemma HitsOfRanks(points: Points, hits: seq<Hit>)
    requires forall h :: h in hits ==> h.id in points && h.metadata == points[h.id].metadata
    ensures (forall x :: x in Map(RankOfHit, hits) ==> x.id in points)
    ensures HitsOf(points, Map(RankOfHit, hits)) == hits
  {
    assert forall i :: 0 <= i < |hits| ==> hits[i] in hits;
  }

  /** The answer of a search is the one list of best candidates, whatever order the store
      keeps its points in. */
  lemma SearchAnswers(
    sqrt: real -> real, points: Points, query: Vector, k: nat, candidates: Option<seq<string>>, hits: seq<Hit>)
    ensures IsAnswer(sqrt, points, query, k, candidates, hits) <==> hits == TopK(sqrt, points, query, k, candidates)
  {
    var ranks := Ranks(sqrt, query, points, candidates);
    var best := Take(Ranking(ranks), k);
    assert IsBest(Before, ranks, k, best) by {
      BeforeTotal();
      TakeIsBest(Before, ranks, k);
    }
    RanksOfHits(points, best);
    if IsAnswer(sqrt, points, query, k, candidates, hits) {
      BestRanksUnique(ranks, k, Map(RankOfHit, hits), best);
      HitsOfRanks(points, hits);
    }
  }

  lemma BestRanksUnique(ranks: set<Rank>, k: nat, a: seq<Rank>, b: seq<Rank>)
    requires IsBest(Before, ranks, k, a) && IsBest(Before, ranks, k, b)
    ensures a == b
  {
    BeforeTotal();
    BestIsUnique(Before, ranks, k, a, b);
  }

  // ----- What an answer says of its scores -----

  /** The point is stored and belongs to a wanted entity, if the search is restricted. */
  predicate Wanted(points: Points, candidates: Option<seq<string>>, id: string) {
    id in points && (candidates.None? || points[id].metadata.entityId in candidates.value)
  }

  /** The rank behind a hit. */
  lemma HitIsRank(
    sqrt: real -> real, points: Points, query: Vector, k: nat, candidates: Option<seq<string>>, i: nat) returns (x: Rank)
    requires i < |TopK(sqrt, points, query, k, candidates)|
    ensures var best := Take(Ranking(Ranks(sqrt, query, points, candidates)), k);
            i < |best| && best[i] == x && x in Ranks(sqrt, query, points, candidates) && x.id in points
            && TopK(sqrt, points, query, k, candidates)[i] == Hit(x.id, x.score, points[x.id].metadata)
  {
    var best := Take(Ranking(Ranks(sqrt, query, points, candidates)), k);
    x := best[i];
    assert x in best;
  }

  /** Every hit is a wanted point with its own similarity and metadata. */
  lemma HitsAreTrue(sqrt: real -> real, points: Points, query: Vector, k: nat, candidates: Option<seq<string>>, i: nat)
    requires i < |TopK(sqrt, points, query, k, candidates)|
    ensures var h := TopK(sqrt, points, query, k, candidates)[i];
            Wanted(points, candidates, h.id) && h.score == Similarity(sqrt, query, points[h.id].vector)
            && h.metadata == points[h.id].metadata
  {
    var x := HitIsRank(sqrt, points, query, k, candidates, i);
  }

  lemma RankingDescends(ranks: set<Rank>, k: nat, i: nat, j: nat)
    requires i < j < |Take(Ranking(ranks), k)|
    ensures var a, b := Take(Ranking(ranks), k)[i], Take(Ranking(ranks), k)[j];
            a.score >= b.score && (a.score == b.score ==> StringLt(a.id, b.id))
  {
    BeforeTotal();
    EnumerateAscends(Before, ranks);
    var a, b := Ranking(ranks)[i], Ranking(ranks)[j];
    assert Before(a, b);
  }

  /** Better scores come first, equal scores in the order of their ids. */
  lemma HitsDescend(
    sqrt: real -> real, points: Points, query: Vector, k: nat, candidates: Option<seq<string>>, i: nat, j: nat)
    requires i < j < |TopK(sqrt, points, query, k, candidates)|
    ensures var a, b := TopK(sqrt, points, query, k, candidates)[i], TopK(sqrt, points, query, k, candidates)[j];
            a.score >= b.score && (a.score == b.score ==> StringLt(a.id, b.id))
  {
    var a := HitIsRank(sqrt, points, query, k, candidates, i);
    var b := HitIsRank(sqrt, points, query, k, candidates, j);
    RankingDescends(Ranks(sqrt, query, points, candidates), k, i, j);
  }

  lemma TakeHolds<T>(s: seq<T>, k: nat, i: nat)
    requires i < |s|
    ensures i < k ==> s[i] in Take(s, k)
  {
    if i < k {
      assert Take(s, k)[i] == s[i];
    }
  }

  lemma RankedLater(ranks: set<Rank>, k: nat, x: Rank)
    requires x in ranks && x !in Take(Ranking(ranks), k)
    ensures |Take(Ranking(ranks), k)| == k
    ensures k > 0 ==> var last := Take(Ranking(ranks), k)[k - 1];
                      last.score >= x.score && (last.score == x.score ==> StringLt(last.id, x.id))
  {
    BeforeTotal();
    EnumerateAscends(Before, ranks);
    var all := Ranking(ranks);
    var i :| 0 <= i < |all| && all[i] == x;
    TakeHolds(all, k, i);
    if k > 0 {
      assert Before(all[k - 1], x);
    }
  }

  /** A wanted point that is left out scores no better than the last of the `k` hits, and on a
      tie has the larger id. */
  lemma LeftOutScoresLess(
    sqrt: real -> real, points: Points, query: Vector, k: nat, candidates: Option<seq<string>>, id: string)
    requires Wanted(points, candidates, id)
    requires forall h :: h in TopK(sqrt, points, query, k, candidates) ==> h.id != id
    ensures |TopK(sqrt, points, query, k, candidates)| == k
    ensures k > 0 ==> var last := TopK(sqrt, points, query, k, candidates)[k - 1];
                      var score := Similarity(sqrt, query, points[id].vector);
                      score <= last.score && (score == last.score ==> StringLt(last.id, id))
  {
    var ranks := Ranks(sqrt, query, points, candidates);
    var x := RankOf(sqrt, query, points, id);
    var best := Take(Ranking(ranks), k);
    forall i | 0 <= i < |best| ensures best[i] != x {
      var y := HitIsRank(sqrt, points, query, k, candidates, i);
      assert TopK(sqrt, points, query, k, candidates)[i] in TopK(sqrt, points, query, k, candidates);
    }
    RankedLater(ranks, k, x);
    if k > 0 {
      var last := HitIsRank(sqrt, points, query, k, candidates, k - 1);
    }
  }

  /** There are as many hits as wanted points, up to `k`. */
  lemma HitsAreCounted(sqrt: real -> real, points: Points, query: Vector, k: nat, candidates: Option<seq<string>>)
    ensures var wanted := set id | id in points && Wanted(points, candidates, id);
            |TopK(sqrt, points, query, k, candidates)| == if k < |wanted| then k else |wanted|
  {
    var ranks := Ranks(sqrt, query, points, candidates);
    var wanted := set id | id in points && Wanted(points, candidates, id);
    var ids := set x | x in ranks :: x.id;
    InjectiveImage(ranks, ids);
    forall id | id in wanted ensures id in ids {
      assert RankOf(sqrt, query, points, id) in ranks;
    }
    assert ids == wanted;
  }

  /** Asking for more only appends. */
  lemma MoreExtends(
    sqrt: real -> real, points: Points, query: Vector, k: nat, more: nat, candidates: Option<seq<string>>)
    requires k <= more
    ensures TopK(sqrt, points, query, k, candidates) <= TopK(sqrt, points, query, more, candidates)
    ensures TopK(sqrt, points, query, k, candidates) == Take(TopK(sqrt, points, query, more, candidates), k)
  {
    var ranking := Ranking(Ranks(sqrt, query, points, candidates));
    assert Take(Take(ranking, more), k) == Take(ranking, k);
    TakeHits(points, Take(ranking, more), k);
  }

  lemma TakeHits(points: Points, ranking: seq<Rank>, k: nat)
    requires forall x :: x in ranking ==> x.id in points
    ensures HitsOf(points, Take(ranking, k)) == Take(HitsOf(points, ranking), k)
  {
  }

  function Passes(candidates: Option<seq<string>>): Hit -> bool {
    (h: Hit) => candidates.None? || h.metadata.entityId in candidates.value
  }

  function RankPasses(points: Points, candidates: Option<seq<string>>): Rank -> bool {
    (x: Rank) => x.id in points && IsCandidate(candidates, points[x.id])
  }

  function HitOf(points: Points, x: Rank): Hit
    requires x.id in points
  {
    Hit(x.id, x.score, points[x.id].metadata)
  }

  lemma HitsPush(points: Points, ranking: seq<Rank>, x: Rank)
    requires forall y :: y in ranking + [x] ==> y.id in points
    ensures (forall y :: y in ranking ==> y.id in points) && x.id in points
    ensures HitsOf(points, ranking + [x]) == HitsOf(points, ranking) + [HitOf(points, x)]
  {
    assert forall y :: y in ranking ==> y in ranking + [x];
    assert x in ranking + [x];
  }

  lemma {:induction false} FilterHits(points: Points, candidates: Option<seq<string>>, ranking: seq<Rank>)
    requires forall x :: x in ranking ==> x.id in points
    ensures HitsOf(points, Filter(RankPasses(points, candidates), ranking))
            == Filter(Passes(candidates), HitsOf(points, ranking))
  {
    if ranking != [] {
      var front := ranking[..|ranking| - 1];
      var last := ranking[|ranking| - 1];
      FilterHits(points, candidates, front);
      HitsPush(points, front, last);
      FrontLast(ranking);
      FilterPush(Passes(candidates), HitsOf(points, front), HitOf(points, last));
      assert RankPasses(points, candidates)(last) == Passes(candidates)(HitOf(points, last));
      if RankPasses(points, candidates)(last) {
        HitsPush(points, Filter(RankPasses(points, candidates), front), last);
      }
    }
  }

  /** Candidates are picked before the list is cut: the answer is the first `k` candidates
      of the full ranking, not the candidates among its first `k`. */
  lemma FilterThenTruncate(
    sqrt: real -> real, points: Points, query: Vector, k: nat, candidates: Option<seq<string>>)
    ensures TopK(sqrt, points, query, k, candidates)
            == Take(Filter(Passes(candidates), TopK(sqrt, points, query, |points|, None)), k)
  {
    var all, some := Ranks(sqrt, query, points, None), Ranks(sqrt, query, points, candidates);
    var keep := RankPasses(points, candidates);
    RankingOfPart(keep, all, some);
    RanksFewer(sqrt, query, points, None);
    FilterHits(points, candidates, Ranking(all));
    TakeHits(points, Ranking(some), k);
  }

  lemma RankingOfPart(keep: Rank -> bool, all: set<Rank>, part: set<Rank>)
    requires forall x :: x in part <==> x in all && keep(x)
    ensures Ranking(part) == Filter(keep, Ranking(all))
  {
    BeforeTotal();
    FilterEnumerate(Before, keep, all, part);
  }

  lemma RanksFewer(sqrt: real -> real, query: Vector, points: Points, candidates: Option<seq<string>>)
    ensures |Ranks(sqrt, query, points, candidates)| <= |points|
  {
    var ids := set x | x in Ranks(sqrt, query, points, candidates) :: x.id;
    InjectiveImage(Ranks(sqrt, query, points, candidates), ids);
    SubsetSize(ids, points.Keys);
  }

  lemma {:induction false} InjectiveImage(ranks: set<Rank>, ids: set<string>)
    requires ids == set x | x in ranks :: x.id
    requires forall x, y :: x in ranks && y in ranks && x.id == y.id ==> x == y
    ensures |ranks| == |ids|
  {
    if ranks != {} {
      var x :| x in ranks;
      InjectiveImage(ranks - {x}, ids - {x.id});
    }
  }

  /** Every score of an answer lies between -1 and 1. */
  lemma ScoresAreBounded(
    sqrt: real -> real, points: Points, query: Vector, k: nat, candidates: Option<seq<string>>, h: Hit)
    requires IsRoot(sqrt, SquaredNorm(query))
    requires forall id :: id in points ==> IsRoot(sqrt, SquaredNorm(points[id].vector))
    ensures h in TopK(sqrt, points, query, k, candidates) ==> -1.0 <= h.score <= 1.0
  {
    var ranking := Take(Ranking(Ranks(sqrt, query, points, candidates)), k);
    if i :| 0 <= i < |ranking| && h == HitsOf(points, ranking)[i] {
      assert ranking[i] in ranking;
      SimilarityBounds(sqrt, query, points[h.id].vector);
    }
  }

  // ----- Writes -----

  /** The last point of a batch with a given id. */
  ghost function LastWith(batch: seq<NewPoint>, id: string): Option<NewPoint> {
    if batch == [] then None
    else if batch[|batch| - 1].id == id then Some(batch[|batch| - 1])
    else LastWith(batch[..|batch| - 1], id)
  }

  /** An upsert overwrites by id, the last of a batch wins, and no other point changes. */
  lemma {:induction false} UpsertOverwrites(points: Points, batch: seq<NewPoint>, id: string)
    ensures var after, last := UpsertAll(points, batch), LastWith(batch, id);
            && (id in after <==> id in points || last.Some?)
            && (last.Some? ==> after[id] == Point(last.value.vector, last.value.metadata))
            && (last.None? && id in points ==> after[id] == points[id])
  {
    if batch != [] {
      UpsertOverwrites(points, batch[..|batch| - 1], id);
    }
  }

  function IdOf(p: NewPoint): string { p.id }

  lemma {:induction false} LastWithIsIt(batch: seq<NewPoint>, p: NewPoint)
    requires Distinct(Map(IdOf, batch)) && p in batch
    ensures LastWith(batch, p.id) == Some(p)
  {
    var front, last := batch[..|batch| - 1], batch[|batch| - 1];
    FrontLast(batch);
    assert Map(IdOf, front) == Map(IdOf, batch)[..|front|];
    if last != p {
      var i :| 0 <= i < |front| && front[i] == p;
      assert Map(IdOf, batch)[i] == p.id;
      assert Map(IdOf, batch)[|batch| - 1] == last.id;
      LastWithIsIt(front, p);
    }
  }

  lemma {:induction false} NoLastWith(batch: seq<NewPoint>, id: string)
    ensures LastWith(batch, id).Some? ==> LastWith(batch, id).value in batch && LastWith(batch, id).value.id == id
    ensures LastWith(batch, id).None? ==> forall p :: p in batch ==> p.id != id
  {
    if batch != [] {
      NoLastWith(batch[..|batch| - 1], id);
      FrontLast(batch);
    }
  }

  /** A batch without repeated ids may be written in any order. */
  lemma UpsertIgnoresOrder(points: Points, a: seq<NewPoint>, b: seq<NewPoint>)
    requires multiset(a) == multiset(b) && Distinct(Map(IdOf, a)) && Distinct(Map(IdOf, b))
    ensures UpsertAll(points, a) == UpsertAll(points, b)
  {
    assert forall p :: p in a <==> p in multiset(a);
    assert forall p :: p in b <==> p in multiset(b);
    forall id ensures LastWith(a, id) == LastWith(b, id) {
      NoLastWith(a, id);
      NoLastWith(b, id);
      if LastWith(a, id).Some? {
        LastWithIsIt(b, LastWith(a, id).value);
      }
    }
    var x, y := UpsertAll(points, a), UpsertAll(points, b);
    forall id ensures (id in x <==> id in y) && (id in x ==> x[id] == y[id]) {
      UpsertOverwrites(points, a, id);
      UpsertOverwrites(points, b, id);
    }
    SamePoints(x, y);
  }

  lemma SamePoints(x: Points, y: Points)
    requires forall id :: (id in x <==> id in y) && (id in x ==> x[id] == y[id])
    ensures x == y
  {
    assert x.Keys == y.Keys;
  }

  /** Deleting what a batch added gives back the points from before. */
  lemma DeleteUndoesUpsert(points: Points, batch: seq<NewPoint>, ids: seq<string>)
    requires forall id :: id in ids <==> id in Map(IdOf, batch)
    requires forall p :: p in batch ==> p.id !in points
    ensures UpsertAll(points, batch) - Elements(ids) == points
  {
    var after := UpsertAll(points, batch);
    forall id
      ensures id in after - Elements(ids) <==> id in points
      ensures id in points ==> after[id] == points[id]
    {
      UpsertOverwrites(points, batch, id);
      NoLastWith(batch, id);
      if LastWith(batch, id).Some? {
        var p := LastWith(batch, id).value;
        var i :| 0 <= i < |batch| && batch[i] == p;
        assert Map(IdOf, batch)[i] == id;
      }
    }
    SamePoints(after - Elements(ids), points);
  }

  function NotDeleted(ids: seq<string>): Hit -> bool { (h: Hit) => h.id !in ids }

  function RankNotDeleted(ids: seq<string>): Rank -> bool { (x: Rank) => x.id !in ids }

  lemma {:induction false} DropHits(points: Points, ids: seq<string>, ranking: seq<Rank>)
    requires forall x :: x in ranking ==> x.id in points
    ensures forall x :: x in Filter(RankNotDeleted(ids), ranking) ==> x.id in points - Elements(ids)
    ensures HitsOf(points - Elements(ids), Filter(RankNotDeleted(ids), ranking))
            == Filter(NotDeleted(ids), HitsOf(points, ranking))
  {
    if ranking != [] {
      var front, last := ranking[..|ranking| - 1], ranking[|ranking| - 1];
      var kept := Filter(RankNotDeleted(ids), front);
      DropHits(points, ids, front);
      FrontLast(ranking);
      HitsPush(points, front, last);
      FilterPush(RankNotDeleted(ids), front, last);
      FilterPush(NotDeleted(ids), HitsOf(points, front), HitOf(points, last));
      if last.id !in ids {
        HitsPush(points - Elements(ids), kept, last);
      }
    }
  }

  /** After a delete a search answers what is left of the full ranking, in its order. */
  lemma SearchAfterDelete(
    sqrt: real -> real, points: Points, query: Vector, k: nat, candidates: Option<seq<string>>, ids: seq<string>)
    ensures TopK(sqrt, points - Elements(ids), query, k, candidates)
            == Take(Filter(NotDeleted(ids), TopK(sqrt, points, query, |points|, candidates)), k)
  {
    var all := Ranks(sqrt, query, points, candidates);
    var left := Ranks(sqrt, query, points - Elements(ids), candidates);
    RankingOfPart(RankNotDeleted(ids), all, left);
    RanksFewer(sqrt, query, points, candidates);
    DropHits(points, ids, Ranking(all));
    TakeHits(points - Elements(ids), Ranking(left), k);
  }

  // ----- Histories -----

  ghost function Run(contents: Contents, ops: seq<Operation>): Contents {
    if ops == [] then contents else Apply(Run(contents, ops[..|ops| - 1]), ops[|ops| - 1])
  }

  function Touches(collection: string): Operation -> bool { (op: Operation) => op.collection == collection }

  ghost predicate SameAt(x: Contents, y: Contents, collection: string) {
    (collection in x <==> collection in y) && PointsOf(x, collection) == PointsOf(y, collection)
  }

  lemma ApplyIsLocal(x: Contents, y: Contents, op: Operation, collection: string)
    requires SameAt(x, y, collection)
    ensures SameAt(Apply(x, op), Apply(y, op), collection)
    ensures op.collection != collection ==> SameAt(Apply(x, op), y, collection)
  {
  }

  lemma RunPush(contents: Contents, ops: seq<Operation>, op: Operation)
    ensures Run(contents, ops + [op]) == Apply(Run(contents, ops), op)
  {
    assert (ops + [op])[..|ops|] == ops;
  }

  /** What a collection holds after a history depends on the operations on it alone. */
  lemma {:induction false} CollectionsAreIsolated(contents: Contents, ops: seq<Operation>, collection: string)
    ensures SameAt(Run(contents, ops), Run(contents, Filter(Touches(collection), ops)), collection)
  {
    if ops != [] {
      var front, last := ops[..|ops| - 1], ops[|ops| - 1];
      var own := Filter(Touches(collection), front);
      CollectionsAreIsolated(contents, front, collection);
      FrontLast(ops);
      FilterPush(Touches(collection), front, last);
      ApplyIsLocal(Run(contents, front), Run(contents, own), last, collection);
      RunPush(contents, own, last);
    }
  }

  /** Recreating a collection forgets its history. */
  lemma {:induction false} RecreateForgets(
    contents: Contents, ops: seq<Operation>, collection: string, after: seq<Operation>)
    ensures SameAt(Run(contents, (ops + [Recreate(collection)]) + after),
                   Run(map[], [Recreate(collection)] + after), collection)
  {
    var long, short := ops + [Recreate(collection)], [Recreate(collection)];
    if after == [] {
      assert long + after == long && short + after == [] + [Recreate(collection)];
      RunPush(contents, ops, Recreate(collection));
      RunPush(map[], [], Recreate(collection));
    } else {
      var front, last := after[..|after| - 1], after[|after| - 1];
      RecreateForgets(contents, ops, collection, front);
      assert long + after == (long + front) + [last] && short + after == (short + front) + [last];
      RunPush(contents, long + front, last);
      RunPush(map[], short + front, last);
      ApplyIsLocal(Run(contents, long + front), Run(map[], short + front), last, collection);
    }
  }
}
