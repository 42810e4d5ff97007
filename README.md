# Recipe recommender core, in Dafny

This project models the two pieces of sequential logic behind a recipe
recommender's pipeline, with file reads replaced by the records they hold:

- **Review aggregation, weighting and re-ranking** (`backend/helpers/reviews.py`),
  module `Reviews`. `construct_reviews` groups reviews by RecipeId into an
  average and a count. `weigh_reviews` and `better_reviews` turn a rating (and a
  count) into a popularity weight. `rerank` projects a weight table onto three
  aligned lists. `rerank_review` multiplies each ranked item's score by its
  recipe's weight and sorts the items stably, highest score first.
- **Flavor catalog and dish feature vectors** (`backend/helpers/matrix.py`),
  modules `Catalog`, `FlavorCounts` and `Dishes`:
  - the ingredient key of a descriptor file name;
  - the `@`-split flavor tags of a descriptor and the sorted flavor vocabulary;
  - per-file tag counts, their merge across files, and their projection onto
    the vocabulary;
  - the `"(.*?)"` extraction of ingredient names from a recipe record;
  - the flavor vector of one dish.

Supporting modules:

- `Wrappers`: Option and Result.
- `Text`: lower-casing, `str.split`, first and last index, Python's string order.
- `Sorting`: a stable descending sort, specified by a function and performed in
  place on an array, plus a sort of a set of strings.

Every operation of the source that works by updating a dict, a set, a list or
an array in a loop is a `method` with a loop. Each such method is proved
against specification functions (`AggregateOf`, `Weight`, `BetterEntry`,
`Tally`, `Keywords`, `Total`, `Quoted`, `VectorOf`, `SortDesc`), and lemmas
prove what those functions mean. A Python dict whose key order is observable
(the keyword counts and the vocabulary counts) is a list of `Entry(tag, count)`
with distinct tags. A dict whose order nothing depends on is a `map`.

Where the design description of the system and the code disagree, the model
follows the code:

- A recipe missing from the weight table is a KeyError in `rerank`. In
  `rerank_review` it keeps its unweighted score, rather than getting the
  "no reviews" floor weight.
- The ingredient key of a file name is everything after the first space, not
  the name with a numeric prefix stripped.
- Both rating branches of the weight lie on the single line (r + 1) / 4, so
  the weight at rating 3 is 1.0. The comment at
  `backend/helpers/reviews.py:134` ("between 0.5 and 0.75") does not describe
  the code.

## Model

| member | source | states |
|---|---|---|
| Reviews.ConstructReviews | backend/helpers/reviews.py:75-96 | the result's keys are exactly the recipe ids; each maps to its reviews' mean rating and count, or (None, 0) for a recipe with no review; reviews of other ids never appear |
| Reviews.RatingSumBounds | backend/helpers/reviews.py:80-84 | if every rating of a recipe lies in [lo, hi], the accumulated sum lies between lo·count and hi·count |
| Reviews.AverageWithinRatings | backend/helpers/reviews.py:90-94 | the reported average lies between the least and greatest rating, and is None exactly when the count is 0 |
| Reviews.WeightIsOneLine | backend/helpers/reviews.py:131-136 | the two rating branches are the one line (r + 1) / 4, continuous at 3, where the weight is 1.0 |
| Reviews.WeightMonotone | backend/helpers/reviews.py:133-136 | the weight never decreases as the rating grows |
| Reviews.WeightRange | backend/helpers/reviews.py:131-136 | for ratings in [1, 5] the weight lies in [0.5, 1.5] and exceeds the 0.25 of a missing rating |
| Reviews.WeighReviews | backend/helpers/reviews.py:128-139 | the result has exactly the input's recipe ids; each entry keeps the average and the count and adds the weight of its average |
| Reviews.BetterEntryUnreviewed | backend/helpers/reviews.py:32-40 | a record with a null ReviewCount gets no rating, count 0 and weight 1, whatever its AggregatedRating |
| Reviews.BetterWeightAtLeastOne | backend/helpers/reviews.py:32-44 | with a non-negative count and a rating of at least 1, the weight is at least 1 |
| Reviews.BetterRatedBeatsUnrated | backend/helpers/reviews.py:39-44 | at an equal positive count, a rated record weighs strictly more than an unrated one |
| Reviews.BetterReviews | backend/helpers/reviews.py:26-48 | one entry per RecipeId that occurs; each is the weighted entry of the last record with that id |
| Reviews.Rerank | backend/helpers/reviews.py:146-158 | success exactly when every id is in the table, with three lists aligned with the ids; otherwise the first missing id is the error |
| Reviews.ReweighOnlyScore | backend/helpers/reviews.py:185-195 | weighting changes only position 1, to score × weight, and leaves items of unknown recipes as they are |
| Reviews.RerankReview | backend/helpers/reviews.py:184-200 | the result is the weighted items sorted by score, highest first: same length, same multiset, and equal scores in input order |
| Sorting.SortDescIsStableSort | backend/helpers/reviews.py:198 | the specification of `sort(key, reverse=True)` is a permutation, sorted descending by key, that keeps the input order among equal keys |
| Sorting.SortInPlace | backend/helpers/reviews.py:198 | the array ends up as the stable descending sort of its old contents |
| Sorting.SortStrings | backend/helpers/matrix.py:69 | the list holds exactly the set's strings, strictly ascending in Python's string order |
| Text.LexLessTotal | backend/helpers/matrix.py:69 | Python's string order relates any two distinct strings, so sorting a set has one answer |
| Text.LexLessTransitive | backend/helpers/matrix.py:69 | Python's string order is transitive |
| Text.Split | backend/helpers/matrix.py:42 | `str.split(sep)` yields at least one piece, and no piece contains the separator |
| Text.JoinSplit | backend/helpers/matrix.py:42 | joining the pieces of a split with the separator gives back the string |
| Text.SplitJoin | backend/helpers/matrix.py:85 | splitting a join of separator-free pieces gives back the pieces |
| Text.FirstIndex | backend/helpers/matrix.py:184 | `list.index`: None exactly when absent, else the first position holding the value |
| Text.LastIndex | backend/helpers/matrix.py:24 | the position `rsplit(c, 1)` splits at: the last occurrence, or None when absent |
| Catalog.FileKeyOfIndexedName | backend/helpers/matrix.py:24 | the key of "<index> <Ingredient>.json" is the lower-cased ingredient (e.g. "0 eggs.json" gives "eggs") |
| Catalog.CreateDictFromDirectory | backend/helpers/matrix.py:20-26 | only JSON names are indexed and each key maps to the last file with that key; the first JSON name without a space is the error |
| Catalog.GetFlavorProfiles | backend/helpers/matrix.py:29-48 | the tags are exactly the non-empty `@`-pieces of the molecules that have a flavor profile; a descriptor without molecules is the error |
| Catalog.CollectFlavorProfiles | backend/helpers/matrix.py:56-71 | the vocabulary is strictly ascending, has no empty tag, and holds exactly the tags of the directory's JSON files; the first malformed JSON file is the error |
| FlavorCounts.AddCountCounts | backend/helpers/matrix.py:88-91 | `d[k] += n` (or `d[k] = n`) changes the count of k by n and no other count |
| FlavorCounts.AddCountTags | backend/helpers/matrix.py:88-91 | a new key goes last; an existing key keeps its place |
| FlavorCounts.TallyCounts | backend/helpers/matrix.py:83-91 | every non-empty tag is counted by its number of occurrences, every count is at least 1, and no other tag appears |
| FlavorCounts.PermutedDict | backend/helpers/matrix.py:93 | re-ordering a dict's items keeps the keys distinct, and keeps the keys, the counts and their positivity |
| FlavorCounts.KeywordsCounted | backend/helpers/matrix.py:78-93 | the keyword dict has distinct tags, counts of at least 1 equal to each tag's occurrences, and is ordered by count, highest first |
| FlavorCounts.ExtractKeywords | backend/helpers/matrix.py:78-93 | the result is that sorted keyword dict, and a descriptor without molecules is the error |
| FlavorCounts.AddAllCounts | backend/helpers/matrix.py:111 | `Counter.update` adds counts tag by tag and unites the tags |
| FlavorCounts.MergeCounts | backend/helpers/matrix.py:102-115 | each tag's merged count is the sum of its per-file counts, and only tags with a positive sum appear, ordered highest first; the first missing or malformed file is the error |
| FlavorCounts.CompareWithVocabulary | backend/helpers/matrix.py:118-129 | the keys are exactly the vocabulary, in its order when it has no repeats; each value is the input's count, or 0 when absent; other keys are dropped |
| Dishes.CloseQuote | backend/helpers/matrix.py:146 | the lazy `.*?` stops at the first quote, provided no newline comes before it |
| Dishes.QuotedClean | backend/helpers/matrix.py:146 | no extracted ingredient name contains a quote or a newline |
| Dishes.NoQuoteNoIngredients | backend/helpers/matrix.py:146 | a field with no quote yields an empty ingredient list |
| Dishes.QuotedItem | backend/helpers/matrix.py:146 | a quoted name is extracted whole, and the scan resumes after its closing quote |
| Dishes.FieldRoundTrip | backend/helpers/matrix.py:146 | extraction from a `c("a", "b")` field gives back exactly its names, in order |
| Dishes.LowerFieldRoundTrip | backend/helpers/matrix.py:146 | extraction from the case-folded field gives the lower-cased names |
| Dishes.DishIdIngr | backend/helpers/matrix.py:135-147 | three lists as long as the corpus, aligned with it: lower-cased names, ids, and the names extracted from each case-folded ingredient field |
| Dishes.CatalogFilesSpec | backend/helpers/matrix.py:185-190 | every file comes from a catalog-known ingredient, every known ingredient contributes its file, and unknown ones are skipped |
| Dishes.VectorOfPlacesCounts | backend/helpers/matrix.py:193-196 | each vocabulary tag's merged count sits at its first index, and at every index when the vocabulary has no repeats |
| Dishes.QueryVector | backend/helpers/matrix.py:180-199 | an unknown name gives None; otherwise, when the files can be read and all tags are in the vocabulary, the vector of the first dish with that name; the errors are the first unreadable file or a tag outside the vocabulary |
| Dishes.CatalogTagsInVocabulary | backend/helpers/matrix.py:188-194 | with a catalog and a vocabulary built from the same directory, every tag of a dish's files is in the vocabulary, so the index lookup cannot fail |

## Left out

- File and directory reads (`open`, `json.load`, `os.listdir`, `os.path.join`) are not modelled. A directory is a list of (name, parsed descriptor) pairs in listing order; the corpus and the reviews are lists of parsed records. `merge_counts` reads from a fixed data directory that is passed in as a parameter.
- The module globals `all_flavor_profiles`, `json_dict`, `name_ing_data` and `nflavors` are parameters of `Dishes.QueryVector`.
- Module-level script code is not modelled: `backend/helpers/reviews.py:50-51` and `backend/helpers/reviews.py:161-170`, the latter reading the undefined name `weighgedede` and so failing with a NameError on import. The same goes for `backend/helpers/matrix.py:75`, `132` and `150-155`.
- Ratings are Python floats; the model uses exact reals, so rounding is not modelled.
- `str.lower` and `str.casefold` are modelled as ASCII lower-casing.
- JSON values are assumed to be of the expected types: RecipeId an int in both files, Rating a number, `flavor_profile` a string. The `int(...)` and `float(...)` conversions and the type errors of badly typed records are not modelled.
- The dicts of `construct_reviews`, `weigh_reviews` and `better_reviews` are maps, so their key order is not modelled; only their contents are.
- `Reviews.RerankReview`: a ranked item is modelled as its three positions (name, score, RecipeId). The copy the source makes before writing the score is implicit: nothing is shared, so no aliasing is modelled.
- `Reviews.ConstructReviews`: reading the defaultdict for a recipe without reviews also inserts a zero entry; that entry is never observable and is not modelled.
- `Dishes.QueryVector`: the numpy vector's integer width is not modelled (counts are unbounded), and the "recipe not found" message printed for an unknown name is not modelled.
- `Catalog.GetFlavorProfiles` and `FlavorCounts.ExtractKeywords` take a parsed descriptor, so a missing file is not their error. `FlavorCounts.MergeCounts` and `Dishes.QueryVector` report it as `MissingFile`.
- `backend/app.py`, `backend/helpers/cossimNameMatch.py`, `backend/helpers/cosineSimilarity.py`, `backend/helpers/transformJSON.py` and `backend/helpers/delall0.py` are not part of this model. They hold HTTP routing, pandas, numpy and scikit-learn numerics, and one-shot conversion scripts.
- The truncated SVD and the top-10 ranker do not appear in the modelled code.
