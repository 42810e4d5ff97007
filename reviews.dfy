/** Review aggregation, weighting and re-ranking (backend/helpers/reviews.py).
    File reads are replaced by the records they hold; ratings are exact reals. */
module Reviews {
  import opened Wrappers
  import Sorting

  /** One raw review: its RecipeId and its Rating. */
  datatype Review = Review(recipeId: int, rating: real)

  /** One per-recipe summary record: RecipeId, AggregatedRating and ReviewCount,
      where a JSON null is None. */
  datatype Summary = Summary(recipeId: int, aggregatedRating: Option<real>, reviewCount: Option<int>)

  /** The value construct_reviews stores per recipe. */
  datatype Aggregate = Aggregate(averageRating: Option<real>, reviewCount: int)

  /** The value weigh_reviews and better_reviews store per recipe. */
  datatype Weighted = Weighted(averageRating: Option<real>, reviewCount: int, weight: real)

  /** An entry of a ranked list: position 0 (the dish), position 1 (its score)
      and position 2 (its RecipeId). */
  datatype Ranked = Ranked(name: string, score: real, recipeId: int)

  /** The three parallel lists rerank returns. */
  datatype Columns = Columns(ratings: seq<Option<real>>, counts: seq<int>, weights: seq<real>)

  /** The KeyError rerank raises for an id missing from its table. */
  datatype Error = MissingId(id: int)

  // ---------------------------------------------------------------------------
  // construct_reviews

  /** The number of reviews of recipe `id`. */
  function ReviewCount(reviews: seq<Review>, id: int): nat
  {
    if reviews == [] then 0
    else ReviewCount(reviews[..|reviews| - 1], id) + (if reviews[|reviews| - 1].recipeId == id then 1 else 0)
  }

  /** The sum of the ratings of recipe `id`. */
  function RatingSum(reviews: seq<Review>, id: int): real
  {
    if reviews == [] then 0.0
    else RatingSum(reviews[..|reviews| - 1], id) + (if reviews[|reviews| - 1].recipeId == id then reviews[|reviews| - 1].rating else 0.0)
  }

  /** The aggregate of recipe `id`: the mean rating and the count, or (None, 0)
      when the recipe has no review. */
  function AggregateOf(reviews: seq<Review>, id: int): Aggregate
  {
    var count := ReviewCount(reviews, id);
    if count > 0 then Aggregate(Some(RatingSum(reviews, id) / count as real), count)
    else Aggregate(None, 0)
  }

  /** The {'sum', 'count'} entry of the defaultdict construct_reviews fills. */
  datatype Tally = Tally(sum: real, count: nat)

  /** Reading a defaultdict: an absent id reads as the zero entry. */
  function Get(acc: map<int, Tally>, id: int): Tally
  {
    if id in acc then acc[id] else Tally(0.0, 0)
  }

  /** construct_reviews: groups the reviews by RecipeId, then gives every recipe
      (and only the recipes) its aggregate. */
  method ConstructReviews(recipeIds: seq<int>, reviews: seq<Review>) returns (big: map<int, Aggregate>)
    ensures forall id :: id in big <==> id in recipeIds
    ensures forall id :: id in big ==> big[id] == AggregateOf(reviews, id)
  {
    var acc: map<int, Tally> := map[];
    var i := 0;
    while i < |reviews|
      invariant 0 <= i <= |reviews|
      invariant forall id :: Get(acc, id) == Tally(RatingSum(reviews[..i], id), ReviewCount(reviews[..i], id))
    {
      var review := reviews[i];
      var t := Get(acc, review.recipeId);
      acc := acc[review.recipeId := Tally(t.sum + review.rating, t.count + 1)];
      assert reviews[..i + 1][..i] == reviews[..i];
      i := i + 1;
    }
    assert reviews[..|reviews|] == reviews;
    big := map[];
    var k := 0;
    while k < |recipeIds|
      invariant 0 <= k <= |recipeIds|
      invariant forall id :: id in big <==> id in recipeIds[..k]
      invariant forall id :: id in big ==> big[id] == AggregateOf(reviews, id)
    {
      var id := recipeIds[k];
      var t := Get(acc, id);
      if t.count > 0 {
        big := big[id := Aggregate(Some(t.sum / t.count as real), t.count)];
      } else {
        big := big[id := Aggregate(None, 0)];
      }
      assert recipeIds[..k + 1] == recipeIds[..k] + [id];
      k := k + 1;
    }
    assert recipeIds[..|recipeIds|] == recipeIds;
  }

  /** If every rating of recipe `id` lies in [lo, hi], so does their sum scaled by their count. */
  lemma {:induction false} RatingSumBounds(reviews: seq<Review>, id: int, lo: real, hi: real)
    requires forall i :: 0 <= i < |reviews| && reviews[i].recipeId == id ==> lo <= reviews[i].rating <= hi
    ensures lo * ReviewCount(reviews, id) as real <= RatingSum(reviews, id) <= hi * ReviewCount(reviews, id) as real
  {
    if reviews != [] {
      var init, last := reviews[..|reviews| - 1], reviews[|reviews| - 1];
      RatingSumBounds(init, id, lo, hi);
      var c := ReviewCount(init, id) as real;
      if last.recipeId == id {
        assert ReviewCount(reviews, id) as real == c + 1.0;
        assert lo * (c + 1.0) == lo * c + lo && hi * (c + 1.0) == hi * c + hi;
      }
    }
  }

  /** The average construct_reviews reports lies between the least and the greatest rating. */
  lemma AverageWithinRatings(reviews: seq<Review>, id: int, lo: real, hi: real)
    requires forall i :: 0 <= i < |reviews| && reviews[i].recipeId == id ==> lo <= reviews[i].rating <= hi
    ensures AggregateOf(reviews, id).averageRating.Some? ==> lo <= AggregateOf(reviews, id).averageRating.value <= hi
    ensures AggregateOf(reviews, id).averageRating.None? <==> ReviewCount(reviews, id) == 0
  {
    RatingSumBounds(reviews, id, lo, hi);
    var count := ReviewCount(reviews, id);
    if count > 0 {
      QuotientBounds(RatingSum(reviews, id), count as real, lo, hi);
    }
  }

  lemma QuotientBounds(sum: real, count: real, lo: real, hi: real)
    requires count > 0.0 && lo * count <= sum <= hi * count
    ensures lo <= sum / count <= hi
  {
    assert (sum / count) * count == sum;
  }

  // ---------------------------------------------------------------------------
  // weigh_reviews

  /** The weight of an average rating: 0.25 without reviews, 0.5 + (r - 1) * 0.25
      below 3 and 1.0 + (r - 3) * 0.25 from 3 on. */
  function Weight(rating: Option<real>): real
  {
    match rating
    case None => 0.25
    case Some(r) => if r < 3.0 then 0.5 + (r - 1.0) * 0.25 else 1.0 + (r - 3.0) * 0.25
  }

  /** Both rating branches lie on one line, so the weight is continuous at 3,
      where it is 1.0 (not 0.75). */
  lemma WeightIsOneLine(r: real)
    ensures Weight(Some(r)) == (r + 1.0) / 4.0
    ensures Weight(Some(3.0)) == 1.0
  {
  }

  lemma WeightMonotone(a: real, b: real)
    requires a <= b
    ensures Weight(Some(a)) <= Weight(Some(b))
  {
  }

  /** Ratings in [1, 5] weigh between 0.5 and 1.5, and always more than no rating. */
  lemma WeightRange(r: real)
    requires 1.0 <= r <= 5.0
    ensures 0.5 <= Weight(Some(r)) <= 1.5
    ensures Weight(Some(r)) > Weight(None)
  {
  }

  /** A non-empty set of ids has a member to pick. */
  lemma NonEmptyHasMember(s: set<int>)
    requires s != {}
    ensures exists x :: x in s
  {
    if forall x :: x !in s {
      assert false;
    }
  }

  /** Every entry of `weighed` is the entry of `linked` with its weight added. */
  ghost predicate WeightsAdded(linked: map<int, Aggregate>, weighed: map<int, Weighted>)
  {
    forall id :: id in weighed ==>
      && id in linked
      && weighed[id].averageRating == linked[id].averageRating
      && weighed[id].reviewCount == linked[id].reviewCount
      && weighed[id].weight == Weight(linked[id].averageRating)
  }

  /** weigh_reviews: adds the weight of its average rating to every entry and
      keeps the rating, the count and the set of recipes. */
  method WeighReviews(linked: map<int, Aggregate>) returns (weighed: map<int, Weighted>)
    ensures weighed.Keys == linked.Keys
    ensures WeightsAdded(linked, weighed)
  {
    weighed := map[];
    var todo := linked.Keys;
    while todo != {}
      invariant todo <= linked.Keys
      invariant weighed.Keys == linked.Keys - todo
      invariant WeightsAdded(linked, weighed)
      decreases todo
    {
      NonEmptyHasMember(todo);
      var id :| id in todo;
      var data := linked[id];
      var weight: real;
      if data.averageRating.None? {
        weight := 0.25;
      } else if data.averageRating.value < 3.0 {
        weight := 0.5 + (data.averageRating.value - 1.0) * 0.25;
      } else {
        weight := 1.0 + (data.averageRating.value - 3.0) * 0.25;
      }
      weighed := weighed[id := Weighted(data.averageRating, data.reviewCount, weight)];
      todo := todo - {id};
    }
  }

  // ---------------------------------------------------------------------------
  // better_reviews

  /** The entry better_reviews makes of one summary record: a null ReviewCount
      means no rating and no reviews whatever AggregatedRating says; the weight
      is the rating's factor times the count, plus one. */
  function BetterEntry(s: Summary): Weighted
  {
    var rating := if s.reviewCount.None? then None else s.aggregatedRating;
    var count := if s.reviewCount.None? then 0 else s.reviewCount.value;
    Weighted(rating, count, Weight(rating) * count as real + 1.0)
  }

  /** A record with a null ReviewCount weighs exactly 1. */
  lemma BetterEntryUnreviewed(s: Summary)
    requires s.reviewCount.None?
    ensures BetterEntry(s) == Weighted(None, 0, 1.0)
  {
  }

  /** With a non-negative count and a rating of at least 1, the weight is at least 1. */
  lemma BetterWeightAtLeastOne(s: Summary)
    requires s.reviewCount.Some? ==> s.reviewCount.value >= 0
    requires s.reviewCount.Some? && s.aggregatedRating.Some? ==> s.aggregatedRating.value >= 1.0
    ensures BetterEntry(s).weight >= 1.0
  {
    var e := BetterEntry(s);
    assert Weight(e.averageRating) >= 0.0;
    assert e.reviewCount as real >= 0.0;
    assert Weight(e.averageRating) * e.reviewCount as real >= 0.0;
  }

  /** At an equal positive count, a rated record weighs more than an unrated one. */
  lemma BetterRatedBeatsUnrated(id: int, rating: real, count: int)
    requires rating >= 1.0 && count > 0
    ensures BetterEntry(Summary(id, Some(rating), Some(count))).weight
          > BetterEntry(Summary(id, None, Some(count))).weight
  {
    var c := count as real;
    assert Weight(Some(rating)) > Weight(None);
    assert Weight(Some(rating)) * c > Weight(None) * c;
  }

  /** better_reviews: one entry per RecipeId; when an id repeats, its last record wins. */
  method BetterReviews(records: seq<Summary>) returns (final: map<int, Weighted>)
    ensures forall id :: id in final <==> exists i :: 0 <= i < |records| && records[i].recipeId == id
    ensures forall id :: id in final ==>
      exists i :: 0 <= i < |records| && records[i].recipeId == id && final[id] == BetterEntry(records[i])
                  && forall j :: i < j < |records| ==> records[j].recipeId != id
  {
    final := map[];
    var k := 0;
    while k < |records|
      invariant 0 <= k <= |records|
      invariant forall id :: id in final <==> exists i :: 0 <= i < k && records[i].recipeId == id
      invariant forall id :: id in final ==>
        exists i :: 0 <= i < k && records[i].recipeId == id && final[id] == BetterEntry(records[i])
                    && forall j :: i < j < k ==> records[j].recipeId != id
    {
      var review := records[k];
      var rating: Option<real>;
      var count: int;
      if review.reviewCount.None? {
        rating, count := None, 0;
      } else {
        rating, count := review.aggregatedRating, review.reviewCount.value;
      }
      var weight: real;
      if rating.None? {
        weight := 0.25 * count as real + 1.0;
      } else if rating.value < 3.0 {
        weight := (0.5 + (rating.value - 1.0) * 0.25) * count as real + 1.0;
      } else {
        weight := (1.0 + (rating.value - 3.0) * 0.25) * count as real + 1.0;
      }
      final := final[review.recipeId := Weighted(rating, count, weight)];
      assert final[review.recipeId] == BetterEntry(records[k]);
      k := k + 1;
    }
  }

  // ---------------------------------------------------------------------------
  // rerank

  /** rerank: the rating, count and weight of every id of `idOrdered`, as three
      lists aligned with it; the first id missing from the table is a KeyError. */
  method Rerank(table: map<int, Weighted>, idOrdered: seq<int>) returns (r: Result<Columns, Error>)
    ensures r.Success? <==> forall i :: 0 <= i < |idOrdered| ==> idOrdered[i] in table
    ensures r.Failure? ==>
      exists i :: 0 <= i < |idOrdered| && idOrdered[i] !in table && r.error == MissingId(idOrdered[i])
                  && forall j :: 0 <= j < i ==> idOrdered[j] in table
    ensures r.Success? ==>
      && |r.value.ratings| == |idOrdered| && |r.value.counts| == |idOrdered| && |r.value.weights| == |idOrdered|
      && forall i :: 0 <= i < |idOrdered| ==>
           && r.value.ratings[i] == table[idOrdered[i]].averageRating
           && r.value.counts[i] == table[idOrdered[i]].reviewCount
           && r.value.weights[i] == table[idOrdered[i]].weight
  {
    var rating, count, weight := [], [], [];
    var i := 0;
    while i < |idOrdered|
      invariant 0 <= i <= |idOrdered|
      invariant forall j :: 0 <= j < i ==> idOrdered[j] in table
      invariant |rating| == i && |count| == i && |weight| == i
      invariant forall j :: 0 <= j < i ==>
        && rating[j] == table[idOrdered[j]].averageRating
        && count[j] == table[idOrdered[j]].reviewCount
        && weight[j] == table[idOrdered[j]].weight
    {
      var indx := idOrdered[i];
      if indx !in table {
        return Failure(MissingId(indx));
      }
      rating := rating + [table[indx].averageRating];
      count := count + [table[indx].reviewCount];
      weight := weight + [table[indx].weight];
      i := i + 1;
    }
    return Success(Columns(rating, count, weight));
  }

  // ---------------------------------------------------------------------------
  // rerank_review

  /** An entry after weighting: its score times its recipe's weight when the
      recipe has one, otherwise the entry itself. */
  function Reweigh(item: Ranked, linked: map<int, Weighted>): Ranked
  {
    if item.recipeId in linked then item.(score := item.score * linked[item.recipeId].weight) else item
  }

  function ReweighAll(items: seq<Ranked>, linked: map<int, Weighted>): seq<Ranked>
  {
    seq(|items|, i requires 0 <= i < |items| => Reweigh(items[i], linked))
  }

  function ScoreKey(item: Ranked): real
  {
    item.score
  }

  /** Weighting touches position 1 only, and only for recipes in the table. */
  lemma ReweighOnlyScore(item: Ranked, linked: map<int, Weighted>)
    ensures Reweigh(item, linked).name == item.name && Reweigh(item, linked).recipeId == item.recipeId
    ensures item.recipeId in linked ==> Reweigh(item, linked).score == item.score * linked[item.recipeId].weight
    ensures item.recipeId !in linked ==> Reweigh(item, linked) == item
  {
  }

  /** rerank_review: weights every entry, then sorts by weighted score, highest
      first, keeping the input order among equal scores. */
  method RerankReview(rankedOrig: seq<Ranked>, linked: map<int, Weighted>) returns (weighted: seq<Ranked>)
    ensures weighted == Sorting.SortDesc(ReweighAll(rankedOrig, linked), ScoreKey)
    ensures |weighted| == |rankedOrig|
    ensures Sorting.SortedDesc(weighted, ScoreKey)
    ensures multiset(weighted) == multiset(ReweighAll(rankedOrig, linked))
    ensures forall v :: Sorting.WithKey(weighted, ScoreKey, v) == Sorting.WithKey(ReweighAll(rankedOrig, linked), ScoreKey, v)
  {
    var w: seq<Ranked> := [];
    for i := 0 to |rankedOrig|
      invariant |w| == i
      invariant forall k :: 0 <= k < i ==> w[k] == Reweigh(rankedOrig[k], linked)
    {
      var recipe := rankedOrig[i];
      if recipe.recipeId in linked {
        var weight := linked[recipe.recipeId].weight;
        var weightedRecipe := recipe.(score := recipe.score * weight);
        w := w + [weightedRecipe];
      } else {
        w := w + [recipe];
      }
    }
    assert w == ReweighAll(rankedOrig, linked);
    var a := new Ranked[|w|](k requires 0 <= k < |w| => w[k]);
    assert a[..] == w;
    Sorting.SortInPlace(a, ScoreKey);
    weighted := a[..];
    Sorting.SortDescIsStableSort(w, ScoreKey);
  }
}
