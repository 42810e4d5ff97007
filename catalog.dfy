/** The flavor catalog loader of backend/helpers/matrix.py: descriptor file
    names to ingredient keys, and the sorted vocabulary of flavor tags.
    A directory listing with its parsed JSON files is given as a value. */
module Catalog {
  import opened Wrappers
  import opened Text
  import Sorting

  /** A molecule record; `flavorProfile` is its "flavor_profile" string of
      `@`-separated tags, None when the key is absent. */
  datatype Molecule = Molecule(flavorProfile: Option<string>)

  /** A parsed descriptor file; `molecules` is None when the "molecules" key is absent. */
  datatype Descriptor = Descriptor(molecules: Option<seq<Molecule>>)

  datatype File = File(name: string, content: Descriptor)

  /** A directory, in os.listdir order. */
  type Directory = seq<File>

  /** The exceptions the catalog and feature code raise: IndexError on a file
      name without a space, KeyError on a descriptor without "molecules", a
      missing file, and ValueError on a tag outside the vocabulary. */
  datatype Error =
    | NoSpaceInName(name: string)
    | NoMolecules(file: string)
    | MissingFile(file: string)
    | TagNotInVocabulary(tag: string)

  predicate IsJson(name: string)
  {
    EndsWith(name, ".json")
  }

  /** The tags of one molecule, empty pieces included, as split('@') gives them. */
  function Pieces(m: Molecule): seq<string>
  {
    if m.flavorProfile.Some? then Split(m.flavorProfile.value, '@') else []
  }

  /** The tags of all molecules that have a flavor profile, in order. */
  function Words(ms: seq<Molecule>): seq<string>
  {
    if ms == [] then [] else Words(ms[..|ms| - 1]) + Pieces(ms[|ms| - 1])
  }

  /** `w` is a tag of the JSON file `f`. */
  predicate TagOf(f: File, w: string)
  {
    IsJson(f.name) && f.content.molecules.Some? && w in Words(f.content.molecules.value)
  }

  // ---------------------------------------------------------------------------
  // create_dict_from_directory

  /** The ingredient key of a descriptor file name: the text after the first
      space up to the last '.', lower-cased; None when there is no space. */
  function FileKey(name: string): Option<string>
  {
    match FirstIndex(name, ' ')
    case None => None
    case Some(i) =>
      var tail := name[i + 1..];
      var stem := match LastIndex(tail, '.') case None => tail case Some(j) => tail[..j];
      Some(Lower(stem))
  }

  /** A name of the form "<index> <Ingredient>.json" keys to the lower-cased ingredient. */
  lemma FileKeyOfIndexedName(index: string, ingredient: string)
    requires ' ' !in index
    ensures FileKey(index + " " + ingredient + ".json") == Some(Lower(ingredient))
  {
    var name := index + " " + ingredient + ".json";
    var i := FirstIndex(name, ' ');
    assert name[|index|] == ' ' && name[..|index|] == index;
    assert i == Some(|index|);
    var tail := name[|index| + 1..];
    assert tail == ingredient + ".json";
    var j := LastIndex(tail, '.');
    assert tail[|ingredient|] == '.' && tail[|ingredient| + 1..] == "json";
    assert j == Some(|ingredient|);
    assert tail[..|ingredient|] == ingredient;
  }

  /** The key of every file name of the directory. */
  function Keys(dir: Directory): (keys: seq<Option<string>>)
    ensures |keys| == |dir|
  {
    seq(|dir|, i requires 0 <= i < |dir| => FileKey(dir[i].name))
  }

  /** File `dir[i]` is a JSON file keyed `key`, and no later JSON file before
      `n` has that key; `keys` holds the key of every file name. */
  ghost predicate LastKeyed(dir: Directory, keys: seq<Option<string>>, n: int, i: int, key: string)
  {
    0 <= i < n <= |dir| == |keys| && IsJson(dir[i].name) && keys[i] == Some(key)
    && forall j :: i < j < n && IsJson(dir[j].name) ==> keys[j] != Some(key)
  }

  /** Every JSON file among the first `n` has a key. */
  ghost predicate AllKeyed(dir: Directory, keys: seq<Option<string>>, n: int)
    requires 0 <= n <= |dir| == |keys|
  {
    forall i :: 0 <= i < n && IsJson(dir[i].name) ==> keys[i].Some?
  }

  /** `dir[i]` is the first JSON file without a key. */
  ghost predicate FirstKeyless(dir: Directory, keys: seq<Option<string>>, i: int)
  {
    0 <= i < |dir| == |keys| && IsJson(dir[i].name) && keys[i].None? && AllKeyed(dir, keys, i)
  }

  /** `dictFiles` is what create_dict_from_directory holds after the first `n` files. */
  ghost predicate IndexOfPrefix(dir: Directory, keys: seq<Option<string>>, n: int, dictFiles: map<string, string>)
    requires 0 <= n <= |dir| == |keys|
  {
    && AllKeyed(dir, keys, n)
    && (forall i :: 0 <= i < n && IsJson(dir[i].name) ==> keys[i].value in dictFiles)
    && (forall key :: key in dictFiles ==> exists i :: LastKeyed(dir, keys, n, i, key) && dictFiles[key] == dir[i].name)
  }

  lemma IndexOfPrefixStep(dir: Directory, keys: seq<Option<string>>, n: int, dictFiles: map<string, string>)
    requires 0 <= n < |dir| == |keys| && IndexOfPrefix(dir, keys, n, dictFiles)
    requires IsJson(dir[n].name) ==> keys[n].Some?
    ensures IsJson(dir[n].name) ==> IndexOfPrefix(dir, keys, n + 1, dictFiles[keys[n].value := dir[n].name])
    ensures !IsJson(dir[n].name) ==> IndexOfPrefix(dir, keys, n + 1, dictFiles)
  {
    var next := if IsJson(dir[n].name) then dictFiles[keys[n].value := dir[n].name] else dictFiles;
    forall key | key in next
      ensures exists i :: LastKeyed(dir, keys, n + 1, i, key) && next[key] == dir[i].name
    {
      if IsJson(dir[n].name) && key == keys[n].value {
        assert LastKeyed(dir, keys, n + 1, n, key);
      } else {
        var i :| LastKeyed(dir, keys, n, i, key) && dictFiles[key] == dir[i].name;
        assert LastKeyed(dir, keys, n + 1, i, key);
      }
    }
    assert IndexOfPrefix(dir, keys, n + 1, next);
  }

  /** create_dict_from_directory: maps every JSON file's key to its name, the
      later of two files with one key winning; the first JSON name without a
      space is an IndexError. */
  method CreateDictFromDirectory(dir: Directory) returns (r: Result<map<string, string>, Error>)
    ensures r.Success? <==> AllKeyed(dir, Keys(dir), |dir|)
    ensures r.Failure? ==> exists i :: FirstKeyless(dir, Keys(dir), i) && r.error == NoSpaceInName(dir[i].name)
    ensures r.Success? ==> IndexOfPrefix(dir, Keys(dir), |dir|, r.value)
  {
    ghost var keys := Keys(dir);
    var dictFiles: map<string, string> := map[];
    for n := 0 to |dir|
      invariant IndexOfPrefix(dir, keys, n, dictFiles)
    {
      var item := dir[n].name;
      if IsJson(item) {
        var key := FileKey(item);
        if key.None? {
          assert FirstKeyless(dir, keys, n);
          return Failure(NoSpaceInName(item));
        }
        IndexOfPrefixStep(dir, keys, n, dictFiles);
        dictFiles := dictFiles[key.value := item];
      } else {
        IndexOfPrefixStep(dir, keys, n, dictFiles);
      }
    }
    return Success(dictFiles);
  }

  // ---------------------------------------------------------------------------
  // get_flavor_profiles

  /** get_flavor_profiles: the non-empty tags of a descriptor; a descriptor
      without "molecules" is a KeyError. */
  method GetFlavorProfiles(f: File) returns (r: Result<set<string>, Error>)
    ensures f.content.molecules.None? ==> r == Failure(NoMolecules(f.name))
    ensures f.content.molecules.Some? ==>
      r.Success? && forall w :: w in r.value <==> w != "" && w in Words(f.content.molecules.value)
  {
    if f.content.molecules.None? {
      return Failure(NoMolecules(f.name));
    }
    var ms := f.content.molecules.value;
    var profiles: set<string> := {};
    for i := 0 to |ms|
      invariant forall w :: w in profiles <==> w in Words(ms[..i])
    {
      assert ms[..i + 1][..i] == ms[..i];
      if ms[i].flavorProfile.Some? {
        var pieces := Split(ms[i].flavorProfile.value, '@');
        profiles := profiles + set p | p in pieces;
      }
    }
    assert ms[..|ms|] == ms;
    profiles := profiles - {""};
    return Success(profiles);
  }

  // ---------------------------------------------------------------------------
  // collect_flavor_profiles_from_directory

  /** Every JSON file among the first `n` has a "molecules" list. */
  ghost predicate AllWellFormed(dir: Directory, n: int)
    requires 0 <= n <= |dir|
  {
    forall i :: 0 <= i < n && IsJson(dir[i].name) ==> dir[i].content.molecules.Some?
  }

  /** `dir[i]` is the first JSON file without a "molecules" list. */
  ghost predicate FirstMalformed(dir: Directory, i: int)
  {
    0 <= i < |dir| && IsJson(dir[i].name) && dir[i].content.molecules.None? && AllWellFormed(dir, i)
  }

  /** `tags` holds exactly the non-empty tags of the first `n` files. */
  ghost predicate TagsOfPrefix(dir: Directory, n: int, tags: set<string>)
    requires 0 <= n <= |dir|
  {
    forall w :: w in tags <==> w != "" && exists i :: 0 <= i < n && TagOf(dir[i], w)
  }

  lemma TagsOfPrefixStep(dir: Directory, n: int, tags: set<string>, added: set<string>)
    requires 0 <= n < |dir| && TagsOfPrefix(dir, n, tags)
    requires IsJson(dir[n].name) && dir[n].content.molecules.Some?
    requires forall w :: w in added <==> w != "" && w in Words(dir[n].content.molecules.value)
    ensures TagsOfPrefix(dir, n + 1, tags + added)
  {
    forall w
      ensures w in tags + added <==> w != "" && exists i :: 0 <= i < n + 1 && TagOf(dir[i], w)
    {
      if w in added {
        assert TagOf(dir[n], w);
      }
    }
  }

  lemma TagsOfPrefixSkip(dir: Directory, n: int, tags: set<string>)
    requires 0 <= n < |dir| && TagsOfPrefix(dir, n, tags) && !IsJson(dir[n].name)
    ensures TagsOfPrefix(dir, n + 1, tags)
  {
    forall w
      ensures w in tags <==> w != "" && exists i :: 0 <= i < n + 1 && TagOf(dir[i], w)
    {
      assert !TagOf(dir[n], w);
    }
  }

  /** collect_flavor_profiles_from_directory: the flavor vocabulary, the sorted
      union of the tags of every JSON file; the first JSON file without
      "molecules" is a KeyError. */
  method CollectFlavorProfiles(dir: Directory) returns (r: Result<seq<string>, Error>)
    ensures r.Success? <==> AllWellFormed(dir, |dir|)
    ensures r.Failure? ==> exists i :: FirstMalformed(dir, i) && r.error == NoMolecules(dir[i].name)
    ensures r.Success? ==> Sorting.StrictlyAscending(r.value) && "" !in r.value
    ensures r.Success? ==> forall w :: w in r.value <==> w != "" && exists i :: 0 <= i < |dir| && TagOf(dir[i], w)
  {
    var all: set<string> := {};
    for n := 0 to |dir|
      invariant AllWellFormed(dir, n)
      invariant TagsOfPrefix(dir, n, all)
    {
      if IsJson(dir[n].name) {
        var profiles := GetFlavorProfiles(dir[n]);
        if profiles.Failure? {
          assert FirstMalformed(dir, n);
          return Failure(profiles.error);
        }
        TagsOfPrefixStep(dir, n, all, profiles.value);
        all := all + profiles.value;
      } else {
        TagsOfPrefixSkip(dir, n, all);
      }
    }
    var nonEmpty := set fp | fp in all && fp != "";
    var sorted := Sorting.SortStrings(nonEmpty);
    return Success(sorted);
  }
}
