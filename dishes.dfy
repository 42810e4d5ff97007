/** The recipe side of backend/helpers/matrix.py: the dish table built by
    dish_id_ingr, the `"(.*?)"` extraction of ingredient names, and the flavor
    vector query_vector builds for one dish. */
module Dishes {
  import opened Wrappers
  import opened Text
  import opened Catalog
  import opened FlavorCounts

  /** One record of the recipe corpus, as parsed from JSON. */
  datatype Dish = Dish(name: string, recipeId: int, ingredientParts: string)

  /** The three index-aligned lists dish_id_ingr returns. */
  datatype DishTable = DishTable(names: seq<string>, ids: seq<int>, ingredients: seq<seq<string>>)

  // ---------------------------------------------------------------------------
  // re.findall(r'"(.*?)"', s)

  /** Where the lazy `.*?` stops after an opening quote: the first '"' of `t`,
      provided no newline comes before it (`.` does not match a newline). */
  function CloseQuote(t: string): (r: Option<nat>)
    ensures r.Some? ==> r.value < |t| && t[r.value] == '"' && '"' !in t[..r.value] && '\n' !in t[..r.value]
    ensures r.None? ==> forall k :: 0 <= k < |t| && t[k] == '"' ==> '\n' in t[..k]
  {
    if t == [] then None
    else if t[0] == '"' then Some(0)
    else if t[0] == '\n' then
      assert forall k :: 0 < k < |t| ==> t[..k][0] == '\n';
      None
    else match CloseQuote(t[1..])
      case None =>
        assert forall k :: 0 < k < |t| ==> t[1..][..k - 1] == t[1..k];
        None
      case Some(k) =>
        assert t[..k + 1] == [t[0]] + t[1..][..k];
        Some(k + 1)
  }

  /** The groups re.findall collects, scanning left to right: at each position
      a quote that a closing quote follows on the same line yields the text
      between them and the scan resumes after the closing quote; any other
      position is skipped. */
  function Quoted(s: string): seq<string>
    decreases |s|
  {
    if s == [] then []
    else if s[0] == '"' && CloseQuote(s[1..]).Some? then
      var k := CloseQuote(s[1..]).value;
      [s[1..k + 1]] + Quoted(s[k + 2..])
    else Quoted(s[1..])
  }

  /** No extracted name holds a quote or a newline. */
  lemma {:induction false} QuotedClean(s: string)
    ensures forall k :: 0 <= k < |Quoted(s)| ==> '"' !in Quoted(s)[k] && '\n' !in Quoted(s)[k]
    decreases |s|
  {
    if s != [] {
      if s[0] == '"' && CloseQuote(s[1..]).Some? {
        var k := CloseQuote(s[1..]).value;
        assert s[1..k + 1] == s[1..][..k];
        QuotedClean(s[k + 2..]);
      } else {
        QuotedClean(s[1..]);
      }
    }
  }

  /** Text without a quote contributes nothing and does not disturb what follows. */
  lemma {:induction false} QuotedSkip(p: string, s: string)
    requires '"' !in p
    ensures Quoted(p + s) == Quoted(s)
  {
    if p == [] {
      assert p + s == s;
    } else {
      assert p[0] in p && (p + s)[0] == p[0];
      assert (p + s)[1..] == p[1..] + s;
      assert '"' !in p[1..] by {
        assert forall c :: c in p[1..] ==> c in p;
      }
      assert Quoted(p + s) == Quoted((p + s)[1..]);
      QuotedSkip(p[1..], s);
    }
  }

  /** A field with no quote yields no ingredients. */
  lemma NoQuoteNoIngredients(s: string)
    requires '"' !in s
    ensures Quoted(s) == []
  {
    QuotedSkip(s, []);
    assert s + [] == s;
  }

  /** A quoted name is extracted whole, and the scan resumes after it. */
  lemma QuotedItem(x: string, rest: string)
    requires '"' !in x && '\n' !in x
    ensures Quoted("\"" + x + "\"" + rest) == [x] + Quoted(rest)
  {
    var s := "\"" + x + "\"" + rest;
    var t := x + "\"" + rest;
    assert s[1..] == t;
    CloseQuoteAfter(x, rest);
    assert s[1..|x| + 1] == x;
    assert s[|x| + 2..] == rest;
  }

  lemma {:induction false} CloseQuoteAfter(x: string, rest: string)
    requires '"' !in x && '\n' !in x
    ensures CloseQuote(x + "\"" + rest) == Some(|x|)
  {
    if x != [] {
      assert (x + "\"" + rest)[1..] == x[1..] + "\"" + rest;
      CloseQuoteAfter(x[1..], rest);
    }
  }

  /** How the corpus writes a list of ingredient names: `"a", "b", "c"`. */
  function Items(xs: seq<string>): string
  {
    if xs == [] then ""
    else if |xs| == 1 then "\"" + xs[0] + "\""
    else "\"" + xs[0] + "\"" + ", " + Items(xs[1..])
  }

  /** The RecipeIngredientParts field of a record listing `xs`: `c("a", "b")`. */
  function Field(xs: seq<string>): string
  {
    "c(" + Items(xs) + ")"
  }

  ghost predicate Clean(xs: seq<string>)
  {
    forall k :: 0 <= k < |xs| ==> '"' !in xs[k] && '\n' !in xs[k]
  }

  lemma {:induction false} QuotedItems(xs: seq<string>, rest: string)
    requires Clean(xs)
    ensures Quoted(Items(xs) + rest) == xs + Quoted(rest)
  {
    if xs == [] {
      assert Items(xs) + rest == rest;
    } else if |xs| == 1 {
      QuotedItem(xs[0], rest);
    } else {
      QuotedItemsStep(xs, rest);
      assert Clean(xs[1..]) by {
        forall k | 0 <= k < |xs[1..]|
          ensures '"' !in xs[1..][k] && '\n' !in xs[1..][k]
        {
          assert xs[1..][k] == xs[k + 1];
        }
      }
      QuotedItems(xs[1..], rest);
      assert [xs[0]] + (xs[1..] + Quoted(rest)) == xs + Quoted(rest) by {
        assert xs == [xs[0]] + xs[1..];
      }
    }
  }

  /** One name of a longer list, then the ", " before the next. */
  lemma QuotedItemsStep(xs: seq<string>, rest: string)
    requires |xs| > 1 && '"' !in xs[0] && '\n' !in xs[0]
    ensures Quoted(Items(xs) + rest) == [xs[0]] + Quoted(Items(xs[1..]) + rest)
  {
    var more := Items(xs[1..]) + rest;
    var tail := ", " + more;
    assert Items(xs) + rest == "\"" + xs[0] + "\"" + tail;
    QuotedItem(xs[0], tail);
    QuotedSkip(", ", more);
  }

  /** Extraction recovers exactly the names a field lists, in order. */
  lemma FieldRoundTrip(xs: seq<string>)
    requires Clean(xs)
    ensures Quoted(Field(xs)) == xs
  {
    assert Field(xs) == "c(" + (Items(xs) + ")");
    QuotedSkip("c(", Items(xs) + ")");
    QuotedItems(xs, ")");
    assert Quoted(")") == [];
  }

  function LowerAll(xs: seq<string>): seq<string>
  {
    seq(|xs|, k requires 0 <= k < |xs| => Lower(xs[k]))
  }

  lemma {:induction false} LowerItems(xs: seq<string>)
    ensures Lower(Items(xs)) == Items(LowerAll(xs))
  {
    if |xs| > 1 {
      LowerItems(xs[1..]);
      assert LowerAll(xs[1..]) == LowerAll(xs)[1..];
    }
  }

  /** The names dish_id_ingr extracts from a case-folded field are the listed
      names, lower-cased. */
  lemma LowerFieldRoundTrip(xs: seq<string>)
    requires Clean(xs)
    ensures Quoted(Lower(Field(xs))) == LowerAll(xs)
  {
    LowerItems(xs);
    assert Lower(Field(xs)) == Field(LowerAll(xs));
    FieldRoundTrip(LowerAll(xs));
  }

  // ---------------------------------------------------------------------------
  // dish_id_ingr

  /** dish_id_ingr: for every dish in order, its lower-cased name, its id and
      the quoted names in its case-folded ingredient field. */
  method DishIdIngr(dishes: seq<Dish>) returns (t: DishTable)
    ensures |t.names| == |t.ids| == |t.ingredients| == |dishes|
    ensures forall k :: 0 <= k < |dishes| ==>
      && t.names[k] == Lower(dishes[k].name)
      && t.ids[k] == dishes[k].recipeId
      && t.ingredients[k] == Quoted(Lower(dishes[k].ingredientParts))
  {
    var id: seq<int> := [];
    var ingr: seq<seq<string>> := [];
    var names: seq<string> := [];
    for i := 0 to |dishes|
      invariant |names| == |id| == |ingr| == i
      invariant forall k :: 0 <= k < i ==>
        && names[k] == Lower(dishes[k].name)
        && id[k] == dishes[k].recipeId
        && ingr[k] == Quoted(Lower(dishes[k].ingredientParts))
    {
      var dish := dishes[i];
      names := names + [Lower(dish.name)];
      id := id + [dish.recipeId];
      ingr := ingr + [Quoted(Lower(dish.ingredientParts))];
    }
    t := DishTable(names, id, ingr);
  }

  // ---------------------------------------------------------------------------
  // query_vector

  /** The catalog files of the ingredients the catalog knows, in order;
      unknown ingredients are skipped. */
  function CatalogFiles(ings: seq<string>, catalog: map<string, string>): seq<string>
  {
    if ings == [] then []
    else
      var acc := CatalogFiles(ings[..|ings| - 1], catalog);
      var key := Lower(ings[|ings| - 1]);
      if key in catalog then acc + [catalog[key]] else acc
  }

  /** `f` is the catalog's file for one of the ingredients. */
  ghost predicate FileOfIngredient(ings: seq<string>, catalog: map<string, string>, f: string)
  {
    exists i :: 0 <= i < |ings| && Lower(ings[i]) in catalog && f == catalog[Lower(ings[i])]
  }

  /** Every file is the catalog's file for one of the ingredients, and every
      known ingredient contributes its file. */
  lemma {:induction false} CatalogFilesSpec(ings: seq<string>, catalog: map<string, string>)
    ensures forall f :: f in CatalogFiles(ings, catalog) ==> FileOfIngredient(ings, catalog, f)
    ensures forall i :: 0 <= i < |ings| && Lower(ings[i]) in catalog ==> catalog[Lower(ings[i])] in CatalogFiles(ings, catalog)
    ensures |CatalogFiles(ings, catalog)| <= |ings|
  {
    if ings != [] {
      var init := ings[..|ings| - 1];
      CatalogFilesSpec(init, catalog);
      var files := CatalogFiles(ings, catalog);
      forall f | f in files
        ensures FileOfIngredient(ings, catalog, f)
      {
        if f in CatalogFiles(init, catalog) {
          assert FileOfIngredient(init, catalog, f);
          var i :| 0 <= i < |init| && Lower(init[i]) in catalog && f == catalog[Lower(init[i])];
          assert ings[i] == init[i];
        } else {
          assert f == catalog[Lower(ings[|ings| - 1])];
        }
      }
      forall i | 0 <= i < |ings| && Lower(ings[i]) in catalog
        ensures catalog[Lower(ings[i])] in files
      {
        if i < |init| {
          assert ings[i] == init[i];
        }
      }
    }
  }

  /** The vector of a dish whose catalog files are `files`: at the first
      vocabulary position of each tag, the tag's merged count; 0 elsewhere. */
  function VectorOf(dir: Directory, files: seq<string>, vocabulary: seq<string>): seq<int>
    requires AllReadable(dir, files)
  {
    seq(|vocabulary|, k requires 0 <= k < |vocabulary| =>
      if FirstIndex(vocabulary, vocabulary[k]) == Some(k) then Total(dir, files, vocabulary[k]) else 0)
  }

  /** Every tag of the vocabulary finds its merged count at its index, and a
      vocabulary without repeats gets a count at every position. */
  lemma VectorOfPlacesCounts(dir: Directory, files: seq<string>, vocabulary: seq<string>)
    requires AllReadable(dir, files)
    ensures |VectorOf(dir, files, vocabulary)| == |vocabulary|
    ensures forall t :: t in vocabulary ==>
      VectorOf(dir, files, vocabulary)[FirstIndex(vocabulary, t).value] == Total(dir, files, t)
    ensures Distinct(vocabulary) ==>
      forall k :: 0 <= k < |vocabulary| ==> VectorOf(dir, files, vocabulary)[k] == Total(dir, files, vocabulary[k])
  {
    if Distinct(vocabulary) {
      forall k | 0 <= k < |vocabulary|
        ensures FirstIndex(vocabulary, vocabulary[k]) == Some(k)
      {
        var i := FirstIndex(vocabulary, vocabulary[k]).value;
        assert vocabulary[i] == vocabulary[k];
      }
    }
  }

  /** Every tag of `files` is in the vocabulary. */
  ghost predicate Covered(dir: Directory, files: seq<string>, vocabulary: seq<string>)
    requires AllReadable(dir, files)
  {
    forall t :: Total(dir, files, t) > 0 ==> t in vocabulary
  }

  /** The vector entries written for the first `n` merged tags. */
  ghost predicate FilledUpTo(vector: seq<int>, merged: seq<Entry>, n: int, dir: Directory, files: seq<string>, vocabulary: seq<string>)
    requires 0 <= n <= |merged| && AllReadable(dir, files) && |vector| == |vocabulary|
  {
    && (forall t :: t in Tags(merged[..n]) ==> t in vocabulary)
    && forall k :: 0 <= k < |vector| ==>
         vector[k] == if FirstIndex(vocabulary, vocabulary[k]) == Some(k) && vocabulary[k] in Tags(merged[..n])
                      then Total(dir, files, vocabulary[k]) else 0
  }

  lemma FillStep(vector: seq<int>, merged: seq<Entry>, n: int, dir: Directory, files: seq<string>, vocabulary: seq<string>, ind: nat)
    requires 0 <= n < |merged| && AllReadable(dir, files) && |vector| == |vocabulary|
    requires IsDict(merged) && forall t :: Count(merged, t) == Total(dir, files, t)
    requires FilledUpTo(vector, merged, n, dir, files, vocabulary)
    requires FirstIndex(vocabulary, merged[n].tag) == Some(ind)
    ensures FilledUpTo(vector[ind := merged[n].count], merged, n + 1, dir, files, vocabulary)
  {
    CountAt(merged, n);
    assert Tags(merged[..n + 1]) == Tags(merged[..n]) + [merged[n].tag];
    assert merged[n].tag !in Tags(merged[..n]) by {
      forall p | 0 <= p < n
        ensures Tags(merged[..n])[p] != merged[n].tag
      {
        assert Tags(merged[..n])[p] == merged[p].tag;
      }
    }
    var next := vector[ind := merged[n].count];
    forall k | 0 <= k < |next|
      ensures next[k] == if FirstIndex(vocabulary, vocabulary[k]) == Some(k) && vocabulary[k] in Tags(merged[..n + 1])
                         then Total(dir, files, vocabulary[k]) else 0
    {
      if k != ind && vocabulary[k] == merged[n].tag {
        assert FirstIndex(vocabulary, vocabulary[k]) != Some(k);
      }
      if k != ind && vocabulary[k] != merged[n].tag {
        assert vocabulary[k] in Tags(merged[..n + 1]) <==> vocabulary[k] in Tags(merged[..n]);
      }
    }
  }

  /** The loop of query_vector that collects the catalog files of a dish's
      ingredients. */
  method KnownFiles(ings: seq<string>, catalog: map<string, string>) returns (acc: seq<string>)
    ensures acc == CatalogFiles(ings, catalog)
  {
    acc := [];
    for i := 0 to |ings|
      invariant acc == CatalogFiles(ings[..i], catalog)
    {
      assert ings[..i + 1][..i] == ings[..i];
      var key := Lower(ings[i]);
      if key in catalog {
        acc := acc + [catalog[key]];
      }
    }
    assert ings[..|ings|] == ings;
  }

  /** The loop of query_vector that writes each merged count at its tag's
      first vocabulary index of a zero vector. */
  method Place(merged: seq<Entry>, vocabulary: seq<string>, ghost dir: Directory, ghost files: seq<string>)
    returns (r: Result<seq<int>, Error>)
    requires AllReadable(dir, files) && IsDict(merged)
    requires forall t :: Count(merged, t) == Total(dir, files, t)
    requires forall t :: t in Tags(merged) <==> Total(dir, files, t) > 0
    ensures r.Success? <==> Covered(dir, files, vocabulary)
    ensures r.Success? ==> r.value == VectorOf(dir, files, vocabulary)
    ensures r.Failure? ==> r.error.TagNotInVocabulary? && Total(dir, files, r.error.tag) > 0 && r.error.tag !in vocabulary
  {
    var vector := new int[|vocabulary|](_ => 0);
    assert Tags(merged[..0]) == [];
    for n := 0 to |merged|
      invariant FilledUpTo(vector[..], merged, n, dir, files, vocabulary)
    {
      var flavor := merged[n].tag;
      var ind := FirstIndex(vocabulary, flavor);
      if ind.None? {
        assert Tags(merged)[n] == flavor;
        return Failure(TagNotInVocabulary(flavor));
      }
      FillStep(vector[..], merged, n, dir, files, vocabulary, ind.value);
      vector[ind.value] := merged[n].count;
    }
    assert merged[..|merged|] == merged;
    assert vector[..] == VectorOf(dir, files, vocabulary);
    return Success(vector[..]);
  }

  /** query_vector: the dish named `query` (the first such, compared in lower
      case) has its known ingredients' catalog files merged, and each merged
      count is written at its tag's first vocabulary index of a zero vector;
      an unknown name gives None. A tag outside the vocabulary is the
      ValueError of list.index. */
  method QueryVector(query: string, table: DishTable, catalog: map<string, string>, dir: Directory, vocabulary: seq<string>)
    returns (r: Result<Option<seq<int>>, Error>)
    requires |table.names| == |table.ingredients|
    ensures FirstIndex(table.names, Lower(query)).None? ==> r == Success(None)
    ensures FirstIndex(table.names, Lower(query)).Some? ==>
      var files := CatalogFiles(table.ingredients[FirstIndex(table.names, Lower(query)).value], catalog);
      && (r.Success? <==> AllReadable(dir, files) && Covered(dir, files, vocabulary))
      && (r.Success? ==> r.value == Some(VectorOf(dir, files, vocabulary)))
      && (r.Failure? && !AllReadable(dir, files) ==>
            exists i :: FirstUnreadable(dir, files, i)
                        && r.error == (if Find(dir, files[i]).None? then MissingFile(files[i]) else NoMolecules(files[i])))
      && (r.Failure? && AllReadable(dir, files) ==>
            r.error.TagNotInVocabulary? && Total(dir, files, r.error.tag) > 0 && r.error.tag !in vocabulary)
  {
    var q := Lower(query);
    var found := FirstIndex(table.names, q);
    if found.None? {
      return Success(None);
    }
    var acc := KnownFiles(table.ingredients[found.value], catalog);
    var flavors := MergeCounts(acc, dir);
    if flavors.Failure? {
      return Failure(flavors.error);
    }
    var vector := Place(flavors.value, vocabulary, dir, acc);
    if vector.Failure? {
      return Failure(vector.error);
    }
    return Success(Some(vector.value));
  }

  // ---------------------------------------------------------------------------
  // The pieces fit: a catalog and a vocabulary drawn from the same directory.

  lemma {:induction false} FindIn(dir: Directory, name: string)
    ensures Find(dir, name).Some? ==> exists i :: 0 <= i < |dir| && dir[i] == Find(dir, name).value && dir[i].name == name
  {
    if dir != [] && dir[0].name != name {
      FindIn(dir[1..], name);
      if Find(dir, name).Some? {
        var i :| 0 <= i < |dir[1..]| && dir[1..][i] == Find(dir, name).value && dir[1..][i].name == name;
        assert dir[i + 1] == dir[1..][i];
      }
    }
  }

  lemma {:induction false} TotalPositive(dir: Directory, files: seq<string>, t: string)
    requires AllReadable(dir, files) && Total(dir, files, t) > 0
    ensures t != "" && exists k :: 0 <= k < |files| && t in FileWords(dir, files[k])
  {
    var init := files[..|files| - 1];
    assert AllReadable(dir, init);
    if multiset(FileWords(dir, files[|files| - 1]))[t] > 0 {
    } else {
      TotalPositive(dir, init, t);
      var k :| 0 <= k < |init| && t in FileWords(dir, init[k]);
      assert init[k] == files[k];
    }
  }

  /** With the catalog of create_dict_from_directory and the vocabulary of
      collect_flavor_profiles_from_directory over the same directory, every
      tag a dish's files produce is in the vocabulary, so query_vector's
      index lookup cannot fail. */
  lemma CatalogTagsInVocabulary(dir: Directory, catalog: map<string, string>, vocabulary: seq<string>, files: seq<string>)
    requires IndexOfPrefix(dir, Keys(dir), |dir|, catalog)
    requires forall w :: w in vocabulary <==> w != "" && exists i :: 0 <= i < |dir| && TagOf(dir[i], w)
    requires forall k :: 0 <= k < |files| ==> files[k] in catalog.Values
    requires AllReadable(dir, files)
    ensures Covered(dir, files, vocabulary)
  {
    forall t | Total(dir, files, t) > 0
      ensures t in vocabulary
    {
      TotalPositive(dir, files, t);
      var k :| 0 <= k < |files| && t in FileWords(dir, files[k]);
      var key :| key in catalog && catalog[key] == files[k];
      var j :| LastKeyed(dir, Keys(dir), |dir|, j, key) && catalog[key] == dir[j].name;
      FindIn(dir, files[k]);
      var i :| 0 <= i < |dir| && dir[i] == Find(dir, files[k]).value && dir[i].name == files[k];
      assert TagOf(dir[i], t);
    }
  }
}
