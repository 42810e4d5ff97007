/** Flavor-tag counting of backend/helpers/matrix.py: per-file counts, their
    merge across files, and their projection onto the vocabulary. A Python
    dict whose key order is observable is a list of entries with distinct tags. */
module FlavorCounts {
  import opened Wrappers
  import opened Text
  import opened Catalog
  import Sorting

  /** One item of a dict from flavor tag to count. */
  datatype Entry = Entry(tag: string, count: int)

  function Tags(es: seq<Entry>): seq<string>
  {
    seq(|es|, i requires 0 <= i < |es| => es[i].tag)
  }

  /** The entries have distinct tags, as the items of a dict do. */
  ghost predicate IsDict(es: seq<Entry>)
  {
    forall i, j :: 0 <= i < j < |es| ==> es[i].tag != es[j].tag
  }

  ghost predicate Positive(es: seq<Entry>)
  {
    forall i :: 0 <= i < |es| ==> es[i].count >= 1
  }

  /** d.get(t, 0) */
  function Count(es: seq<Entry>, t: string): int
  {
    if es == [] then 0 else if es[0].tag == t then es[0].count else Count(es[1..], t)
  }

  function CountKey(e: Entry): real
  {
    e.count as real
  }

  /** `d[t] += n` on a dict that holds `t`, `d[t] = n` on one that does not
      (the new key goes last). */
  function AddCount(es: seq<Entry>, t: string, n: int): seq<Entry>
  {
    if es == [] then [Entry(t, n)]
    else if es[0].tag == t then [Entry(t, es[0].count + n)] + es[1..]
    else [es[0]] + AddCount(es[1..], t, n)
  }

  /** Adding `n` at `t` changes the count of `t` by `n` and no other count. */
  lemma {:induction false} AddCountCounts(es: seq<Entry>, t: string, n: int)
    ensures forall u :: Count(AddCount(es, t, n), u) == Count(es, u) + (if u == t then n else 0)
  {
    if es != [] && es[0].tag != t {
      AddCountCounts(es[1..], t, n);
    }
  }

  /** A new key goes last; an existing key keeps its place. */
  lemma {:induction false} AddCountTags(es: seq<Entry>, t: string, n: int)
    ensures Tags(AddCount(es, t, n)) == if t in Tags(es) then Tags(es) else Tags(es) + [t]
  {
    var r := AddCount(es, t, n);
    if es == [] {
    } else if es[0].tag == t {
      assert Tags(es)[0] == t;
      assert Tags(r) == Tags(es);
    } else {
      AddCountTags(es[1..], t, n);
      assert Tags(es) == [es[0].tag] + Tags(es[1..]);
      assert Tags(r) == [es[0].tag] + Tags(AddCount(es[1..], t, n));
    }
  }

  /** Adding keeps the tags distinct. */
  lemma {:induction false} AddCountKeepsDict(es: seq<Entry>, t: string, n: int)
    requires IsDict(es)
    ensures IsDict(AddCount(es, t, n))
  {
    if es != [] && es[0].tag != t {
      var rest := AddCount(es[1..], t, n);
      AddCountKeepsDict(es[1..], t, n);
      AddCountTags(es[1..], t, n);
      assert es[0].tag !in Tags(es[1..]) by {
        forall p | 0 <= p < |es| - 1
          ensures Tags(es[1..])[p] != es[0].tag
        {
          assert Tags(es[1..])[p] == es[p + 1].tag;
        }
      }
      forall k | 0 <= k < |rest|
        ensures rest[k].tag != es[0].tag
      {
        assert rest[k].tag == Tags(rest)[k] && Tags(rest)[k] in Tags(rest);
      }
    }
  }

  /** Every entry after adding is an entry from before or the updated one. */
  lemma {:induction false} AddCountEntries(es: seq<Entry>, t: string, n: int)
    ensures forall i :: 0 <= i < |AddCount(es, t, n)| ==>
      AddCount(es, t, n)[i] in es || (AddCount(es, t, n)[i].tag == t && AddCount(es, t, n)[i].count == Count(es, t) + n)
  {
    if es != [] && es[0].tag != t {
      AddCountEntries(es[1..], t, n);
      var rest := AddCount(es[1..], t, n);
      forall i | 0 <= i < |rest| && rest[i] in es[1..]
        ensures rest[i] in es
      {
      }
    }
  }

  /** All three facts about AddCount at once. */
  lemma AddCountSpec(es: seq<Entry>, t: string, n: int)
    ensures forall u :: Count(AddCount(es, t, n), u) == Count(es, u) + (if u == t then n else 0)
    ensures Tags(AddCount(es, t, n)) == if t in Tags(es) then Tags(es) else Tags(es) + [t]
    ensures IsDict(es) ==> IsDict(AddCount(es, t, n))
    ensures forall i :: 0 <= i < |AddCount(es, t, n)| ==>
      AddCount(es, t, n)[i] in es || (AddCount(es, t, n)[i].tag == t && AddCount(es, t, n)[i].count == Count(es, t) + n)
  {
    AddCountCounts(es, t, n);
    AddCountTags(es, t, n);
    if IsDict(es) {
      AddCountKeepsDict(es, t, n);
    }
    AddCountEntries(es, t, n);
  }

  lemma {:induction false} CountAbsent(es: seq<Entry>, t: string)
    requires t !in Tags(es)
    ensures Count(es, t) == 0
  {
    if es != [] {
      assert es[0].tag == Tags(es)[0];
      assert Tags(es[1..]) == Tags(es)[1..];
      CountAbsent(es[1..], t);
    }
  }

  /** In a dict, the count of an entry's tag is that entry's count. */
  lemma {:induction false} CountAt(es: seq<Entry>, k: int)
    requires IsDict(es) && 0 <= k < |es|
    ensures Count(es, es[k].tag) == es[k].count
  {
    if k > 0 {
      CountAt(es[1..], k - 1);
    }
  }

  /** In a dict with positive counts, a tag is present exactly when its count is positive. */
  lemma {:induction false} CountPositive(es: seq<Entry>, t: string)
    requires Positive(es)
    ensures t in Tags(es) ==> Count(es, t) >= 1
    ensures t !in Tags(es) ==> Count(es, t) == 0
  {
    if es != [] {
      assert es[0].tag == Tags(es)[0];
      assert Tags(es[1..]) == Tags(es)[1..];
      assert Tags(es) == [es[0].tag] + Tags(es[1..]);
      CountPositive(es[1..], t);
    }
  }

  // ---------------------------------------------------------------------------
  // Reordering a dict's items keeps it a dict with the same counts.

  lemma TwoPositions(s: seq<Entry>, i: int, j: int)
    requires 0 <= i < j < |s| && s[i] == s[j]
    ensures multiset(s)[s[i]] >= 2
  {
    assert s == s[..j] + s[j..];
    assert s[i] in s[..j] && s[j] in s[j..];
    assert multiset(s) == multiset(s[..j]) + multiset(s[j..]);
  }

  lemma SecondPosition(s: seq<Entry>, x: Entry, p: int)
    requires 0 <= p < |s| && s[p] == x && multiset(s)[x] >= 2
    ensures exists q :: 0 <= q < |s| && q != p && s[q] == x
  {
    var rest := s[..p] + s[p + 1..];
    assert s == s[..p] + [s[p]] + s[p + 1..];
    assert multiset(s) == multiset(rest) + multiset{x};
    assert x in multiset(rest);
    var k :| 0 <= k < |rest| && rest[k] == x;
    if k < p {
      assert s[k] == x;
    } else {
      assert s[k + 1] == x;
    }
  }

  /** A permutation of a dict's items is a dict with the same tags and counts. */
  lemma PermutedDict(a: seq<Entry>, b: seq<Entry>)
    requires multiset(a) == multiset(b) && IsDict(a)
    ensures IsDict(b)
    ensures forall t :: t in Tags(b) <==> t in Tags(a)
    ensures forall t :: Count(b, t) == Count(a, t)
    ensures Positive(a) ==> Positive(b)
  {
    forall i, j | 0 <= i < j < |b|
      ensures b[i].tag != b[j].tag
    {
      assert b[i] in multiset(a) && b[j] in multiset(a);
      var p :| 0 <= p < |a| && a[p] == b[i];
      var q :| 0 <= q < |a| && a[q] == b[j];
      if b[i] == b[j] {
        TwoPositions(b, i, j);
        SecondPosition(a, b[i], p);
      }
    }
    forall t
      ensures t in Tags(b) <==> t in Tags(a)
    {
      if t in Tags(b) {
        var k :| 0 <= k < |b| && Tags(b)[k] == t;
        assert b[k] in multiset(a);
        var p :| 0 <= p < |a| && a[p] == b[k];
        assert Tags(a)[p] == t;
      }
      if t in Tags(a) {
        var k :| 0 <= k < |a| && Tags(a)[k] == t;
        assert a[k] in multiset(b);
        var p :| 0 <= p < |b| && b[p] == a[k];
        assert Tags(b)[p] == t;
      }
    }
    forall t
      ensures Count(b, t) == Count(a, t)
    {
      if t in Tags(b) {
        var k :| 0 <= k < |b| && Tags(b)[k] == t;
        assert b[k] in multiset(a);
        var p :| 0 <= p < |a| && a[p] == b[k];
        CountAt(b, k);
        CountAt(a, p);
      } else {
        CountAbsent(a, t);
        CountAbsent(b, t);
      }
    }
    if Positive(a) {
      forall i | 0 <= i < |b|
        ensures b[i].count >= 1
      {
        assert b[i] in multiset(a);
      }
    }
  }

  // ---------------------------------------------------------------------------
  // extract_keywords

  /** The keyword_counts dict extract_keywords fills from a list of tags,
      skipping empty tags. */
  function Tally(ws: seq<string>): seq<Entry>
  {
    if ws == [] then []
    else
      var counts := Tally(ws[..|ws| - 1]);
      if ws[|ws| - 1] == "" then counts else AddCount(counts, ws[|ws| - 1], 1)
  }

  lemma TallySnoc(ws: seq<string>, w: string)
    ensures Tally(ws + [w]) == if w == "" then Tally(ws) else AddCount(Tally(ws), w, 1)
  {
    assert (ws + [w])[..|ws|] == ws;
  }

  /** The tally counts every non-empty tag by its number of occurrences, and
      holds nothing else. */
  lemma {:induction false} TallyCounts(ws: seq<string>)
    ensures IsDict(Tally(ws)) && Positive(Tally(ws))
    ensures forall w :: Count(Tally(ws), w) == if w == "" then 0 else multiset(ws)[w]
    ensures forall w :: w in Tags(Tally(ws)) <==> w != "" && w in ws
  {
    if ws != [] {
      var init, w := ws[..|ws| - 1], ws[|ws| - 1];
      TallyCounts(init);
      assert ws == init + [w];
      var t := Tally(init);
      if w != "" {
        CountPositive(t, w);
        AddCountSpec(t, w, 1);
        forall i | 0 <= i < |Tally(ws)|
          ensures Tally(ws)[i].count >= 1
        {
        }
      }
    }
  }

  /** What extract_keywords returns for a descriptor's molecules: the tally,
      sorted by count, highest first, ties in first-seen order. */
  function Keywords(ms: seq<Molecule>): seq<Entry>
  {
    Sorting.SortDesc(Tally(Words(ms)), CountKey)
  }

  lemma KeywordsCounted(ms: seq<Molecule>)
    ensures IsDict(Keywords(ms)) && Positive(Keywords(ms))
    ensures Sorting.SortedDesc(Keywords(ms), CountKey)
    ensures forall w :: Count(Keywords(ms), w) == if w == "" then 0 else multiset(Words(ms))[w]
    ensures forall w :: w in Tags(Keywords(ms)) <==> w != "" && w in Words(ms)
  {
    TallyCounts(Words(ms));
    Sorting.SortDescIsStableSort(Tally(Words(ms)), CountKey);
    PermutedDict(Tally(Words(ms)), Keywords(ms));
  }

  /** The counting loops of extract_keywords: every tag of every molecule's
      profile, split at '@', is counted unless it is empty. */
  method TallyMolecules(ms: seq<Molecule>) returns (keywordCounts: seq<Entry>)
    ensures keywordCounts == Tally(Words(ms))
  {
    keywordCounts := [];
    for i := 0 to |ms|
      invariant keywordCounts == Tally(Words(ms[..i]))
    {
      assert ms[..i + 1][..i] == ms[..i];
      assert Words(ms[..i + 1]) == Words(ms[..i]) + Pieces(ms[i]);
      if ms[i].flavorProfile.Some? {
        var keywords := Split(ms[i].flavorProfile.value, '@');
        keywordCounts := TallyKeywords(keywordCounts, Words(ms[..i]), keywords);
      } else {
        assert Words(ms[..i]) + Pieces(ms[i]) == Words(ms[..i]);
      }
    }
    assert ms[..|ms|] == ms;
  }

  /** The inner loop of extract_keywords over one molecule's tags. */
  method TallyKeywords(counts: seq<Entry>, ghost before: seq<string>, keywords: seq<string>) returns (r: seq<Entry>)
    requires counts == Tally(before)
    ensures r == Tally(before + keywords)
  {
    r := counts;
    assert before + keywords[..0] == before;
    for j := 0 to |keywords|
      invariant r == Tally(before + keywords[..j])
    {
      TallySnoc(before + keywords[..j], keywords[j]);
      assert before + keywords[..j + 1] == (before + keywords[..j]) + [keywords[j]];
      if keywords[j] != "" {
        r := AddCount(r, keywords[j], 1);
      }
    }
    assert keywords[..|keywords|] == keywords;
  }

  /** extract_keywords: counts each non-empty tag of a descriptor by its
      occurrences and orders the counts highest first; a descriptor without
      "molecules" is a KeyError. */
  method ExtractKeywords(f: File) returns (r: Result<seq<Entry>, Error>)
    ensures f.content.molecules.None? ==> r == Failure(NoMolecules(f.name))
    ensures f.content.molecules.Some? ==> r == Success(Keywords(f.content.molecules.value))
    ensures r.Success? ==> IsDict(r.value) && Positive(r.value) && Sorting.SortedDesc(r.value, CountKey)
    ensures r.Success? ==> forall w :: Count(r.value, w) == if w == "" then 0 else multiset(Words(f.content.molecules.value))[w]
  {
    if f.content.molecules.None? {
      return Failure(NoMolecules(f.name));
    }
    var ms := f.content.molecules.value;
    var keywordCounts := TallyMolecules(ms);
    var items := new Entry[|keywordCounts|](k requires 0 <= k < |keywordCounts| => keywordCounts[k]);
    assert items[..] == keywordCounts;
    Sorting.SortInPlace(items, CountKey);
    KeywordsCounted(ms);
    return Success(items[..]);
  }

  // ---------------------------------------------------------------------------
  // merge_counts

  /** The file named `name` in the directory. */
  function Find(dir: Directory, name: string): Option<File>
  {
    if dir == [] then None else if dir[0].name == name then Some(dir[0]) else Find(dir[1..], name)
  }

  lemma {:induction false} FindNamed(dir: Directory, name: string)
    ensures Find(dir, name).Some? ==> Find(dir, name).value.name == name
  {
    if dir != [] && dir[0].name != name {
      FindNamed(dir[1..], name);
    }
  }

  /** The file exists and has a "molecules" list. */
  predicate Readable(dir: Directory, name: string)
  {
    Find(dir, name).Some? && Find(dir, name).value.content.molecules.Some?
  }

  ghost predicate AllReadable(dir: Directory, files: seq<string>)
  {
    forall i :: 0 <= i < |files| ==> Readable(dir, files[i])
  }

  /** The tags of a readable file. */
  function FileWords(dir: Directory, name: string): seq<string>
    requires Readable(dir, name)
  {
    Words(Find(dir, name).value.content.molecules.value)
  }

  /** The number of occurrences of the non-empty tag `t` over all of `files`,
      a file listed twice counting twice. */
  function Total(dir: Directory, files: seq<string>, t: string): nat
    requires AllReadable(dir, files)
  {
    if files == [] || t == "" then 0
    else Total(dir, files[..|files| - 1], t) + multiset(FileWords(dir, files[|files| - 1]))[t]
  }

  /** Counter.update: adds every item of `es` into `acc`, in order. */
  function AddAll(acc: seq<Entry>, es: seq<Entry>): seq<Entry>
    decreases |es|
  {
    if es == [] then acc else AddAll(AddCount(acc, es[0].tag, es[0].count), es[1..])
  }

  /** Adding a dict into a counter adds the counts tag by tag and unites the tags. */
  lemma {:induction false} AddAllCounts(acc: seq<Entry>, es: seq<Entry>)
    requires IsDict(acc) && IsDict(es)
    ensures IsDict(AddAll(acc, es))
    ensures forall t :: Count(AddAll(acc, es), t) == Count(acc, t) + Count(es, t)
    ensures forall t :: t in Tags(AddAll(acc, es)) <==> t in Tags(acc) || t in Tags(es)
    ensures Positive(acc) && Positive(es) ==> Positive(AddAll(acc, es))
    decreases |es|
  {
    if es != [] {
      var next := AddCount(acc, es[0].tag, es[0].count);
      AddCountSpec(acc, es[0].tag, es[0].count);
      assert IsDict(es[1..]) by {
        forall i, j | 0 <= i < j < |es[1..]|
          ensures es[1..][i].tag != es[1..][j].tag
        {
          assert es[1..][i] == es[i + 1] && es[1..][j] == es[j + 1];
        }
      }
      assert Tags(es) == [es[0].tag] + Tags(es[1..]);
      assert es[0].tag !in Tags(es[1..]);
      CountAbsent(es[1..], es[0].tag);
      AddAllCounts(next, es[1..]);
      if Positive(acc) && Positive(es) {
        CountPositive(acc, es[0].tag);
        assert Positive(next);
      }
    }
  }

  /** After the first `n` files the counter holds, for every tag, its total. */
  ghost predicate MergedUpTo(dir: Directory, files: seq<string>, n: int, counter: seq<Entry>)
    requires 0 <= n <= |files| && AllReadable(dir, files[..n])
  {
    && IsDict(counter) && Positive(counter)
    && (forall t :: Count(counter, t) == Total(dir, files[..n], t))
    && (forall t :: t in Tags(counter) <==> Total(dir, files[..n], t) > 0)
  }

  /** `files[i]` is the first file that cannot be read. */
  ghost predicate FirstUnreadable(dir: Directory, files: seq<string>, i: int)
  {
    0 <= i < |files| && !Readable(dir, files[i]) && AllReadable(dir, files[..i])
  }

  lemma MergeStep(dir: Directory, files: seq<string>, n: int, counter: seq<Entry>, f: File)
    requires 0 <= n < |files| && AllReadable(dir, files[..n]) && MergedUpTo(dir, files, n, counter)
    requires Find(dir, files[n]) == Some(f) && f.content.molecules.Some?
    ensures AllReadable(dir, files[..n + 1])
    ensures MergedUpTo(dir, files, n + 1, AddAll(counter, Keywords(f.content.molecules.value)))
  {
    var ms := f.content.molecules.value;
    var kw := Keywords(ms);
    assert files[..n + 1] == files[..n] + [files[n]];
    TotalStep(dir, files, n);
    KeywordsCounted(ms);
    AddAllCounts(counter, kw);
    var next := AddAll(counter, kw);
    forall t
      ensures Count(next, t) == Total(dir, files[..n + 1], t)
      ensures t in Tags(next) <==> Total(dir, files[..n + 1], t) > 0
    {
      assert Total(dir, files[..n + 1], t) == Total(dir, files[..n], t) + Count(kw, t);
      CountPositive(kw, t);
    }
  }

  /** The total over one more file adds that file's occurrences. */
  lemma TotalStep(dir: Directory, files: seq<string>, n: int)
    requires 0 <= n < |files| && AllReadable(dir, files[..n + 1])
    ensures AllReadable(dir, files[..n])
    ensures forall t :: Total(dir, files[..n + 1], t)
                        == Total(dir, files[..n], t) + (if t == "" then 0 else multiset(FileWords(dir, files[n]))[t])
    ensures forall t :: Total(dir, files[..n + 1], t) > 0
                        <==> Total(dir, files[..n], t) > 0 || (t != "" && t in FileWords(dir, files[n]))
  {
    assert files[..n + 1][..n] == files[..n];
    assert files[..n + 1][n] == files[n];
  }

  /** merge_counts: the per-file keyword counts of `files` summed tag by tag
      (Counter.update), ordered highest first; the first file that is missing
      or has no "molecules" stops the merge. */
  method MergeCounts(files: seq<string>, dir: Directory) returns (r: Result<seq<Entry>, Error>)
    ensures r.Success? <==> AllReadable(dir, files)
    ensures r.Failure? ==>
      exists i :: FirstUnreadable(dir, files, i)
                  && r.error == (if Find(dir, files[i]).None? then MissingFile(files[i]) else NoMolecules(files[i]))
    ensures r.Success? ==> IsDict(r.value) && Positive(r.value) && Sorting.SortedDesc(r.value, CountKey)
    ensures r.Success? ==> forall t :: Count(r.value, t) == Total(dir, files, t)
    ensures r.Success? ==> forall t :: t in Tags(r.value) <==> Total(dir, files, t) > 0
  {
    var merged: seq<Entry> := [];
    for n := 0 to |files|
      invariant AllReadable(dir, files[..n])
      invariant MergedUpTo(dir, files, n, merged)
    {
      var jsonFile := files[n];
      var file := Find(dir, jsonFile);
      if file.None? {
        assert FirstUnreadable(dir, files, n);
        return Failure(MissingFile(jsonFile));
      }
      FindNamed(dir, jsonFile);
      var keywordCounts := ExtractKeywords(file.value);
      if keywordCounts.Failure? {
        assert FirstUnreadable(dir, files, n);
        return Failure(keywordCounts.error);
      }
      MergeStep(dir, files, n, merged, file.value);
      merged := AddAll(merged, keywordCounts.value);
    }
    assert files[..|files|] == files;
    var items := new Entry[|merged|](k requires 0 <= k < |merged| => merged[k]);
    assert items[..] == merged;
    Sorting.SortInPlace(items, CountKey);
    Sorting.SortDescIsStableSort(merged, CountKey);
    PermutedDict(merged, items[..]);
    return Success(items[..]);
  }

  // ---------------------------------------------------------------------------
  // compare_dict_with_flavor_profiles

  /** The list has no repeated element. */
  ghost predicate Distinct(s: seq<string>)
  {
    forall i, j :: 0 <= i < j < |s| ==> s[i] != s[j]
  }

  /** compare_dict_with_flavor_profiles: a dict keyed by the vocabulary (in
      its order) holding each tag's count in `dictX`, 0 when absent; tags of
      `dictX` outside the vocabulary are dropped. */
  method CompareWithVocabulary(dictX: seq<Entry>, vocabulary: seq<string>) returns (counts: seq<Entry>)
    requires IsDict(dictX)
    ensures IsDict(counts)
    ensures forall t :: t in Tags(counts) <==> t in vocabulary
    ensures forall t :: t in vocabulary ==> Count(counts, t) == Count(dictX, t)
    ensures Distinct(vocabulary) ==> Tags(counts) == vocabulary
  {
    counts := [];
    for i := 0 to |vocabulary|
      invariant IsDict(counts)
      invariant forall t :: t in Tags(counts) <==> t in vocabulary[..i]
      invariant forall t :: Count(counts, t) == 0
      invariant Distinct(vocabulary[..i]) ==> Tags(counts) == vocabulary[..i]
    {
      assert vocabulary[..i + 1] == vocabulary[..i] + [vocabulary[i]];
      AddCountSpec(counts, vocabulary[i], 0);
      counts := AddCount(counts, vocabulary[i], 0);
    }
    assert vocabulary[..|vocabulary|] == vocabulary;
    ghost var keys := Tags(counts);
    for j := 0 to |dictX|
      invariant IsDict(counts) && Tags(counts) == keys
      invariant forall t :: t in vocabulary ==> Count(counts, t) == Count(dictX[..j], t)
    {
      var item := dictX[j];
      if item.tag in Tags(counts) {
        AddCountSpec(counts, item.tag, item.count);
        counts := AddCount(counts, item.tag, item.count);
      }
      forall t | t in vocabulary
        ensures Count(dictX[..j + 1], t) == Count(dictX[..j], t) + (if t == item.tag then item.count else 0)
      {
        CountAppend(dictX, j, t);
      }
    }
    assert dictX[..|dictX|] == dictX;
  }

  /** Extending a prefix of a dict by its next item adds that item's count. */
  lemma {:induction false} CountAppend(es: seq<Entry>, j: int, t: string)
    requires IsDict(es) && 0 <= j < |es|
    ensures Count(es[..j + 1], t) == Count(es[..j], t) + (if t == es[j].tag then es[j].count else 0)
  {
    if j == 0 {
      assert es[..1] == [es[0]];
    } else {
      assert es[..j + 1][1..] == es[1..][..j];
      assert es[..j][1..] == es[1..][..j - 1];
      if es[0].tag != t {
        CountAppend(es[1..], j - 1, t);
      }
    }
  }
}
