/** The in-memory vector store: collections of points, and search by brute-force cosine
    similarity, best first, ties by point id. */
module VectorStore {
  import opened Wrappers
  import opened Sequences
  import opened Orders
  import opened Cosine

  datatype ChunkType = Summary | Section

  datatype Metadata = Metadata(entityId: string, pageId: string, chunkType: ChunkType, contentHash: string, generation: nat)

  datatype Point = Point(vector: Vector, metadata: Metadata)

  datatype NewPoint = NewPoint(id: string, vector: Vector, metadata: Metadata)

  datatype Hit = Hit(id: string, score: real, metadata: Metadata)

  datatype Error = CollectionNotFound(collection: string)

  type Points = map<string, Point>

  // ----- The ranking -----

  datatype Rank = Rank(score: real, id: string)

  /** Higher scores first, equal scores by id. */
  predicate Before(a: Rank, b: Rank) {
    a.score > b.score || (a.score == b.score && StringLt(a.id, b.id))
  }

  lemma BeforeTotal()
    ensures StrictTotal(Before)
  {
    StringLtTotal();
  }

  /** The wanted entities, when the caller restricts the search, hold the point's entity. */
  predicate IsCandidate(candidates: Option<seq<string>>, p: Point) {
    candidates.None? || p.metadata.entityId in candidates.value
  }

  function RankOf(sqrt: real -> real, query: Vector, points: Points, id: string): Rank
    requires id in points
  {
    Rank(Similarity(sqrt, query, points[id].vector), id)
  }

  function Ranks(sqrt: real -> real, query: Vector, points: Points, candidates: Option<seq<string>>): (r: set<Rank>)
    ensures forall x :: x in r <==>
                        x.id in points && IsCandidate(candidates, points[x.id]) && x == RankOf(sqrt, query, points, x.id)
  {
    set id | id in points && IsCandidate(candidates, points[id]) :: RankOf(sqrt, query, points, id)
  }

  function Ranking(ranks: set<Rank>): (r: seq<Rank>)
    ensures |r| == |ranks| && forall x :: x in r <==> x in ranks
  {
    BeforeTotal();
    Enumerate(Before, ranks)
  }

  function HitsOf(points: Points, ranking: seq<Rank>): (r: seq<Hit>)
    requires forall x :: x in ranking ==> x.id in points
    ensures |r| == |ranking|
    ensures forall i :: 0 <= i < |r| ==> r[i] == Hit(ranking[i].id, ranking[i].score, points[ranking[i].id].metadata)
  {
    seq(|ranking|, i requires 0 <= i < |ranking| => Hit(ranking[i].id, ranking[i].score, points[ranking[i].id].metadata))
  }

  /** What a search of a collection answers. */
  function TopK(sqrt: real -> real, points: Points, query: Vector, k: nat, candidates: Option<seq<string>>): seq<Hit> {
    HitsOf(points, Take(Ranking(Ranks(sqrt, query, points, candidates)), k))
  }

  // ----- The contents -----

  type Contents = map<string, Points>

  function PointsOf(contents: Contents, collection: string): Points {
    if collection in contents then contents[collection] else map[]
  }

  function UpsertAll(points: Points, batch: seq<NewPoint>): Points {
    if batch == [] then points
    else
      var p := batch[|batch| - 1];
      UpsertAll(points, batch[..|batch| - 1])[p.id := Point(p.vector, p.metadata)]
  }

  lemma UpsertPush(points: Points, batch: seq<NewPoint>, p: NewPoint)
    ensures UpsertAll(points, batch + [p]) == UpsertAll(points, batch)[p.id := Point(p.vector, p.metadata)]
  {
    assert (batch + [p])[..|batch|] == batch;
  }

  datatype Operation =
    | EnsureCollection(collection: string)
    | Upsert(collection: string, batch: seq<NewPoint>)
    | Delete(collection: string, ids: seq<string>)
    | Recreate(collection: string)

  function Apply(contents: Contents, op: Operation): Contents {
    match op
    case EnsureCollection(c) => contents[c := PointsOf(contents, c)]
    case Upsert(c, batch) => contents[c := UpsertAll(PointsOf(contents, c), batch)]
    case Delete(c, ids) => if c in contents then contents[c := contents[c] - Elements(ids)] else contents
    case Recreate(c) => contents[c := map[]]
  }

  class MockVectorStore {
    const sqrt: real -> real
    var inner: Contents

    constructor (sqrt: real -> real)
      ensures this.sqrt == sqrt && inner == map[]
    {
      this.sqrt := sqrt;
      inner := map[];
    }

    method EnsureCollection(collection: string)
      modifies this
      ensures inner == Apply(old(inner), Operation.EnsureCollection(collection))
    {
      if collection !in inner {
        inner := inner[collection := map[]];
      }
    }

    method Upsert(collection: string, batch: seq<NewPoint>)
      modifies this
      ensures inner == Apply(old(inner), Operation.Upsert(collection, batch))
    {
      var points := PointsOf(inner, collection);
      for i := 0 to |batch|
        invariant inner == old(inner)
        invariant points == UpsertAll(PointsOf(old(inner), collection), batch[..i])
      {
        TakeStep(batch, i);
        UpsertPush(PointsOf(inner, collection), batch[..i], batch[i]);
        points := points[batch[i].id := Point(batch[i].vector, batch[i].metadata)];
      }
      TakeAll(batch);
      inner := inner[collection := points];
    }

    method Search(collection: string, query: Vector, topK: nat, candidates: Option<seq<string>>)
      returns (outcome: Result<seq<Hit>, Error>)
      ensures outcome == if collection in inner
                         then Success(TopK(sqrt, inner[collection], query, topK, candidates))
                         else Failure(CollectionNotFound(collection))
    {
      if collection !in inner {
        return Failure(CollectionNotFound(collection));
      }
      var points := inner[collection];
      var scored := Score(sqrt, points, query, candidates);
      var sorted := SortByRank(scored);
      RankingIs(Ranks(sqrt, query, points, candidates), sorted);
      return Success(HitsOf(points, Take(sorted, topK)));
    }

    method Delete(collection: string, ids: seq<string>)
      modifies this
      ensures inner == Apply(old(inner), Operation.Delete(collection, ids))
    {
      if collection in inner {
        var points := inner[collection];
        for i := 0 to |ids|
          invariant inner == old(inner)
          invariant points == old(inner[collection]) - Elements(ids[..i])
        {
          TakeStep(ids, i);
          assert Elements(ids[..i + 1]) == Elements(ids[..i]) + {ids[i]};
          points := points - {ids[i]};
        }
        TakeAll(ids);
        inner := inner[collection := points];
      }
    }

    method RecreateCollection(collection: string)
      modifies this
      ensures inner == Apply(old(inner), Operation.Recreate(collection))
    {
      inner := inner[collection := map[]];
    }
  }

  /** Scores the candidate points, visiting them in whatever order the map hands them out. */
  method Score(sqrt: real -> real, points: Points, query: Vector, candidates: Option<seq<string>>)
    returns (scored: seq<Rank>)
    ensures Lists(scored, Ranks(sqrt, query, points, candidates))
  {
    scored := [];
    var rest := points.Keys;
    while rest != {}
      invariant rest <= points.Keys
      invariant Distinct(scored)
      invariant forall x :: x in scored <==> x in Ranks(sqrt, query, points, candidates) && x.id !in rest
      decreases |rest|
    {
      var id :| id in rest;
      rest := rest - {id};
      if IsCandidate(candidates, points[id]) {
        var rank := RankOf(sqrt, query, points, id);
        assert rank !in scored;
        scored := scored + [rank];
      }
    }
  }

  /** The sort: any order of visiting ends in the one ascending order. */
  method SortByRank(scored: seq<Rank>) returns (sorted: seq<Rank>)
    requires Distinct(scored)
    ensures Ascending(Before, sorted)
    ensures forall x :: x in sorted <==> x in scored
  {
    sorted := [];
    BeforeTotal();
    for i := 0 to |scored|
      invariant Ascending(Before, sorted)
      invariant forall x :: x in sorted <==> x in scored[..i]
    {
      var rank := scored[i];
      TakeStep(scored, i);
      var at := 0;
      while at < |sorted| && Before(sorted[at], rank)
        invariant 0 <= at <= |sorted|
        invariant forall j :: 0 <= j < at ==> Before(sorted[j], rank)
      {
        at := at + 1;
      }
      InsertAscends(sorted, at, rank);
      sorted := sorted[..at] + [rank] + sorted[at..];
    }
    TakeAll(scored);
  }

  lemma InsertAscends(s: seq<Rank>, at: nat, x: Rank)
    requires StrictTotal(Before) && Ascending(Before, s) && at <= |s| && x !in s
    requires forall j :: 0 <= j < at ==> Before(s[j], x)
    requires at < |s| ==> !Before(s[at], x)
    ensures Ascending(Before, s[..at] + [x] + s[at..])
    ensures forall y :: y in s[..at] + [x] + s[at..] <==> y in s || y == x
  {
    forall j | at <= j < |s| ensures Before(x, s[j]) {
      assert s[at] in s;
      assert Before(x, s[at]);
    }
    assert s == s[..at] + s[at..];
  }

  lemma RankingIs(ranks: set<Rank>, sorted: seq<Rank>)
    requires Ascending(Before, sorted) && forall x :: x in sorted <==> x in ranks
    ensures sorted == Ranking(ranks)
  {
    BeforeTotal();
    EnumerateAscends(Before, ranks);
    AscendingUnique(Before, sorted, Ranking(ranks));
  }
}
