/** How `format` of packages/nouns-sdk/src/image/png-collection-encoder.ts groups the stored images
    by folder. Names are of any type N; `root` is the group for images without a folder. */
module Listing {
  import opened JsMap
  import opened Sequences
  import opened Wrappers

  /** One entry of the written data; the data is None where the source looks up a deleted name. */
  datatype Entry<N, D> = Entry(filename: N, data: Option<D>)

  /** The names listed in the first k folders. */
  function Listed<N(!new, ==)>(folders: JsMap<N, seq<N>>, k: nat): seq<N>
    requires folders.Valid() && k <= |folders.keys|
  {
    if k == 0 then [] else Listed(folders, k - 1) + folders.vals[folders.keys[k - 1]]
  }

  /** The entries of one folder: a name finds its data unless it was `seen` before. */
  function FolderEntries<N(!new, ==), D>(images: map<N, D>, names: seq<N>, seen: seq<N>): (r: seq<Entry<N, D>>)
    ensures |r| == |names|
    ensures forall j :: 0 <= j < |names| ==> r[j].filename == names[j]
    ensures forall j :: 0 <= j < |names| ==>
      r[j].data == if names[j] in images && names[j] !in seen + names[..j] then Some(images[names[j]]) else None
  {
    if names == [] then []
    else
      var init, n := names[..|names| - 1], names[|names| - 1];
      assert forall j :: 0 <= j < |init| ==> init[..j] == names[..j];
      FolderEntries(images, init, seen)
      + [Entry(n, if n in images && n !in seen + init then Some(images[n]) else None)]
  }

  /** The first k folders with their entries. */
  function FolderData<N(!new, ==), D>(images: map<N, D>, folders: JsMap<N, seq<N>>, k: nat): JsMap<N, seq<Entry<N, D>>>
    requires folders.Valid() && k <= |folders.keys|
  {
    if k == 0 then JsMap([], map[])
    else
      var f := folders.keys[k - 1];
      FolderData(images, folders, k - 1).Put(f, FolderEntries(images, folders.vals[f], Listed(folders, k - 1)))
  }

  lemma PutNew<K(!new), V>(m: JsMap<K, V>, k: K, v: V)
    requires m.Valid() && k !in m.keys
    ensures m.Put(k, v).Valid() && m.Put(k, v).keys == m.keys + [k]
  {
  }

  lemma KeysNext<T>(s: seq<T>, k: nat)
    requires NoDup(s) && 0 < k <= |s|
    ensures s[k - 1] !in s[..k - 1] && s[..k] == s[..k - 1] + [s[k - 1]]
  {
  }

  lemma FolderDataNext<N(!new), D>(images: map<N, D>, folders: JsMap<N, seq<N>>, k: nat)
    requires folders.Valid() && 0 < k <= |folders.keys|
    requires FolderData(images, folders, k - 1).Valid()
    requires folders.keys[k - 1] !in FolderData(images, folders, k - 1).keys
    ensures FolderData(images, folders, k).Valid()
    ensures FolderData(images, folders, k).keys == FolderData(images, folders, k - 1).keys + [folders.keys[k - 1]]
  {
    var f := folders.keys[k - 1];
    PutNew(FolderData(images, folders, k - 1), f, FolderEntries(images, folders.vals[f], Listed(folders, k - 1)));
  }

  lemma {:induction false} FolderDataKeys<N(!new), D>(images: map<N, D>, folders: JsMap<N, seq<N>>, k: nat)
    requires folders.Valid() && k <= |folders.keys|
    ensures FolderData(images, folders, k).Valid()
    ensures FolderData(images, folders, k).keys == folders.keys[..k]
  {
    if k > 0 {
      FolderDataKeys(images, folders, k - 1);
      KeysNext(folders.keys, k);
      FolderDataNext(images, folders, k);
    }
  }

  lemma {:induction false} FolderDataAt<N(!new), D>(images: map<N, D>, folders: JsMap<N, seq<N>>, k: nat, i: nat)
    requires folders.Valid() && i < k <= |folders.keys|
    ensures var f := folders.keys[i]; var data := FolderData(images, folders, k);
      f in data.vals && data.vals[f] == FolderEntries(images, folders.vals[f], Listed(folders, i))
  {
    if i < k - 1 {
      FolderDataAt(images, folders, k - 1, i);
      assert folders.keys[i] != folders.keys[k - 1];
    }
  }

  function RootEntries<N(!new, ==), D>(images: map<N, D>, names: seq<N>): (r: seq<Entry<N, D>>)
    requires forall n :: n in names ==> n in images
    ensures |r| == |names|
    ensures forall j :: 0 <= j < |names| ==> r[j] == Entry(names[j], Some(images[names[j]]))
  {
    seq(|names|, j requires 0 <= j < |names| => Entry(names[j], Some(images[names[j]])))
  }

  /** The folders, unless flattened, and in `root` whatever no folder lists. */
  function Formatted<N(!new, ==), D>(images: JsMap<N, D>, folders: JsMap<N, seq<N>>, root: N, flatten: bool): JsMap<N,
          seq<Entry<N, D>>>
    requires images.Valid() && folders.Valid()
  {
    var k := if flatten then 0 else |folders.keys|;
    var data := FolderData(images.vals, folders, k);
    var rest := Without(images.keys, Listed(folders, k));
    if rest == [] then data else data.Put(root, RootEntries(images.vals, rest))
  }

  /** The image stored under a name is written with its data. */
  ghost predicate Written<N(!new), D>(data: JsMap<N, seq<Entry<N, D>>>, images: JsMap<N, D>, n: N)
    requires n in images.vals
  {
    exists f :: f in data.vals && Entry(n, Some(images.vals[n])) in data.vals[f]
  }

  lemma {:induction false} ListedFirst<N(!new)>(folders: JsMap<N, seq<N>>, k: nat, n: N) returns (i: nat, j: nat)
    requires folders.Valid() && k <= |folders.keys| && n in Listed(folders, k)
    ensures i < k && j < |folders.vals[folders.keys[i]]| && folders.vals[folders.keys[i]][j] == n
    ensures n !in Listed(folders, i) + folders.vals[folders.keys[i]][..j]
  {
    if n in Listed(folders, k - 1) {
      i, j := ListedFirst(folders, k - 1, n);
    } else {
      i := k - 1;
      j := FirstIndex(folders.vals[folders.keys[i]], n);
    }
  }

  lemma {:induction false} FirstIndex<N>(s: seq<N>, n: N) returns (j: nat)
    requires n in s
    ensures j < |s| && s[j] == n && n !in s[..j]
  {
    if n in s[..|s| - 1] {
      j := FirstIndex(s[..|s| - 1], n);
      assert s[..j] == s[..|s| - 1][..j];
    } else {
      j := |s| - 1;
    }
  }

  lemma FolderWritten<N(!new), D>(images: JsMap<N, D>, folders: JsMap<N, seq<N>>, k: nat, n: N)
    requires folders.Valid() && k <= |folders.keys| && n in images.vals && n in Listed(folders, k)
    ensures Written(FolderData(images.vals, folders, k), images, n)
  {
    var i, j := ListedFirst(folders, k, n);
    var f := folders.keys[i];
    var data := FolderData(images.vals, folders, k);
    FolderDataAt(images.vals, folders, k, i);
    assert data.vals[f][j] == Entry(n, Some(images.vals[n]));
  }

  lemma RestWritten<N(!new), D>(data: JsMap<N, seq<Entry<N, D>>>, images: JsMap<N, D>, n: N, root: N, rest: seq<N>)
    requires n in images.vals && n in rest && forall m :: m in rest ==> m in images.vals
    ensures Written(data.Put(root, RootEntries(images.vals, rest)), images, n)
  {
    var j :| 0 <= j < |rest| && rest[j] == n;
    var all := data.Put(root, RootEntries(images.vals, rest));
    assert all.vals[root][j] == Entry(n, Some(images.vals[n]));
  }

  /** The first folder that lists the name is f. */
  ghost predicate FirstListedIn<N(!new)>(folders: JsMap<N, seq<N>>, n: N, f: N)
    requires folders.Valid()
  {
    exists i :: 0 <= i < |folders.keys| && folders.keys[i] == f && n in folders.vals[f] && n !in Listed(folders, i)
  }

  /** Some stored image is in no folder. */
  ghost predicate SomeUnlisted<N(!new), D>(images: JsMap<N, D>, folders: JsMap<N, seq<N>>)
    requires folders.Valid()
  {
    exists m :: m in images.vals && m !in Listed(folders, |folders.keys|)
  }

  lemma {:induction false} ListedLater<N(!new)>(folders: JsMap<N, seq<N>>, i: nat, k: nat, n: N)
    requires folders.Valid() && i < k <= |folders.keys| && n in folders.vals[folders.keys[i]]
    ensures n in Listed(folders, k)
  {
    if i < k - 1 {
      ListedLater(folders, i, k - 1, n);
    }
  }

  /** A folder that holds the data of a name is the first that lists it. */
  lemma FoundInFirst<N(!new), D>(images: JsMap<N, D>, folders: JsMap<N, seq<N>>, n: N, i: nat)
    requires folders.Valid() && i < |folders.keys| && n in images.vals
    requires Entry(n, Some(images.vals[n])) in
      FolderEntries(images.vals, folders.vals[folders.keys[i]], Listed(folders, i))
    ensures n in folders.vals[folders.keys[i]] && n !in Listed(folders, i)
  {
    var names := folders.vals[folders.keys[i]];
    var entries := FolderEntries(images.vals, names, Listed(folders, i));
    var j :| 0 <= j < |entries| && entries[j] == Entry(n, Some(images.vals[n]));
    assert names[j] == n && n !in Listed(folders, i) + names[..j];
  }

  lemma FirstListedOnce<N(!new)>(folders: JsMap<N, seq<N>>, n: N, i: nat, j: nat)
    requires folders.Valid() && i < |folders.keys| && j < |folders.keys|
    requires n in folders.vals[folders.keys[i]] && n !in Listed(folders, i)
    requires n in folders.vals[folders.keys[j]] && n !in Listed(folders, j)
    ensures i == j
  {
    if i < j {
      ListedLater(folders, i, j, n);
    } else if j < i {
      ListedLater(folders, j, i, n);
    }
  }

  lemma RootOverwritten<N(!new), D>(images: JsMap<N, D>, folders: JsMap<N, seq<N>>, n: N, root: N, rest: seq<N>)
    requires folders.Valid() && n in images.vals && n !in rest && forall m :: m in rest ==> m in images.vals
    requires FirstListedIn(folders, n, root)
    ensures var data := FolderData(images.vals, folders, |folders.keys|);
      !Written(data.Put(root, RootEntries(images.vals, rest)), images, n)
  {
    var data := FolderData(images.vals, folders, |folders.keys|);
    FolderDataKeys(images.vals, folders, |folders.keys|);
    var i :| 0 <= i < |folders.keys| && folders.keys[i] == root && n in folders.vals[root] && n !in Listed(folders, i);
    forall f | f in data.keys && f != root ensures Entry(n, Some(images.vals[n])) !in data.vals[f] {
      var j :| 0 <= j < |folders.keys| && folders.keys[j] == f;
      FolderDataAt(images.vals, folders, |folders.keys|, j);
      if Entry(n, Some(images.vals[n])) in data.vals[f] {
        FoundInFirst(images, folders, n, j);
        FirstListedOnce(folders, n, i, j);
      }
    }
  }

  lemma RootKeeps<N(!new), D>(images: JsMap<N, D>, folders: JsMap<N, seq<N>>, n: N, root: N, rest: seq<N>)
    requires folders.Valid() && n in images.vals && n in Listed(folders, |folders.keys|)
    requires (forall m :: m in rest ==> m in images.vals) && !FirstListedIn(folders, n, root)
    ensures var data := FolderData(images.vals, folders, |folders.keys|);
      Written(data.Put(root, RootEntries(images.vals, rest)), images, n)
  {
    var data := FolderData(images.vals, folders, |folders.keys|);
    var i, j := ListedFirst(folders, |folders.keys|, n);
    var f := folders.keys[i];
    FolderDataAt(images.vals, folders, |folders.keys|, i);
    assert data.vals[f][j] == Entry(n, Some(images.vals[n]));
    assert f != root;
    assert data.Put(root, RootEntries(images.vals, rest)).vals[f] == data.vals[f];
  }

  lemma FirstIsListed<N(!new)>(folders: JsMap<N, seq<N>>, n: N, f: N)
    requires folders.Valid() && FirstListedIn(folders, n, f)
    ensures n in Listed(folders, |folders.keys|)
  {
    var i :| 0 <= i < |folders.keys| && folders.keys[i] == f && n in folders.vals[f] && n !in Listed(folders, i);
    ListedLater(folders, i, |folders.keys|, n);
  }

  lemma RestIsUnlisted<N(!new), D>(images: JsMap<N, D>, folders: JsMap<N, seq<N>>)
    requires images.Valid() && folders.Valid()
    ensures Without(images.keys, Listed(folders, |folders.keys|)) != [] <==> SomeUnlisted(images, folders)
  {
    var rest := Without(images.keys, Listed(folders, |folders.keys|));
    if rest != [] {
      assert rest[0] in rest;
    }
    if SomeUnlisted(images, folders) {
      var m :| m in images.vals && m !in Listed(folders, |folders.keys|);
      assert m in images.keys && m in rest;
    }
  }

  lemma ListedWritten<N(!new), D>(images: JsMap<N, D>, folders: JsMap<N, seq<N>>, root: N, n: N)
    requires images.Valid() && folders.Valid() && n in images.vals && n in Listed(folders, |folders.keys|)
    ensures Written(Formatted(images, folders, root, false), images, n) <==>
      !(FirstListedIn(folders, n, root) && SomeUnlisted(images, folders))
  {
    var rest := Without(images.keys, Listed(folders, |folders.keys|));
    RestIsUnlisted(images, folders);
    if rest == [] {
      FolderWritten(images, folders, |folders.keys|, n);
    } else if FirstListedIn(folders, n, root) {
      RootOverwritten(images, folders, n, root, rest);
    } else {
      RootKeeps(images, folders, n, root, rest);
    }
  }

  /** Formatting loses a stored image exactly if the folder that lists it first is called `root` and
      is then overwritten, because some other image is in no folder. */
  lemma FormatComplete<N(!new), D>(images: JsMap<N, D>, folders: JsMap<N, seq<N>>, root: N, flatten: bool, n: N)
    requires images.Valid() && folders.Valid() && n in images.vals
    ensures Written(Formatted(images, folders, root, flatten), images, n) <==>
      !(!flatten && FirstListedIn(folders, n, root) && SomeUnlisted(images, folders))
  {
    var k := if flatten then 0 else |folders.keys|;
    if n in Listed(folders, k) {
      ListedWritten(images, folders, root, n);
    } else {
      RestWritten(FolderData(images.vals, folders, k), images, n, root, Without(images.keys, Listed(folders, k)));
      if !flatten && FirstListedIn(folders, n, root) {
        FirstIsListed(folders, n, root);
      }
    }
  }

  /** A lost image: 1 is listed in the folder `root`, 2 in none. */
  lemma RootFolderLosesImage<N(!new), D>(n: N, m: N, root: N, d: D, e: D)
    requires n != m
    ensures var images, folders := JsMap([n, m], map[n := d, m := e]), JsMap([root], map[root := [n]]);
      && images.Valid() && folders.Valid()
      && !Written(Formatted(images, folders, root, false), images, n)
      && Written(Formatted(images, folders, root, false), images, m)
  {
    var images, folders := JsMap([n, m], map[n := d, m := e]), JsMap([root], map[root := [n]]);
    assert Listed(folders, 0) == [] && Listed(folders, 1) == [n];
    assert folders.keys[0] == root && FirstListedIn(folders, n, root) && m !in Listed(folders, |folders.keys|);
    FormatComplete(images, folders, root, false, n);
    FormatComplete(images, folders, root, false, m);
    assert !FirstListedIn(folders, m, root);
  }

  /** The flat listing is the stored images in the order in which they were first encoded. */
  lemma FormatFlat<N(!new), D>(images: JsMap<N, D>, folders: JsMap<N, seq<N>>, root: N)
    requires images.Valid() && folders.Valid() && images.keys != []
    ensures Formatted(images, folders, root, true).keys == [root]
    ensures Formatted(images, folders, root, true).vals[root] == RootEntries(images.vals, images.keys)
  {
    WithoutNothing(images.keys);
  }

  lemma {:induction false} WithoutNothing<N(!new)>(s: seq<N>)
    ensures Without(s, []) == s
  {
    if s != [] {
      WithoutNothing(s[1..]);
    }
  }

  ghost predicate AllFound<N, D>(entries: seq<Entry<N, D>>) {
    forall j :: 0 <= j < |entries| ==> entries[j].data.Some?
  }

  lemma FolderFound<N(!new), D>(images: map<N, D>, names: seq<N>, seen: seq<N>)
    requires forall n :: n in names ==> n in images
    ensures AllFound(FolderEntries(images, names, seen)) <==>
      forall j :: 0 <= j < |names| ==> names[j] !in seen + names[..j]
  {
    var entries := FolderEntries(images, names, seen);
    assert forall j :: 0 <= j < |names| ==>
      names[j] in images && (entries[j].data.Some? <==> names[j] !in seen + names[..j]);
  }

  /** Every entry of the i-th folder has its data. */
  ghost predicate FoundAt<N(!new), D>(images: map<N, D>, folders: JsMap<N, seq<N>>, i: nat)
    requires folders.Valid() && i < |folders.keys|
  {
    AllFound(FolderEntries(images, folders.vals[folders.keys[i]], Listed(folders, i)))
  }

  /** Every entry of the first k folders has its data. */
  ghost predicate FoldersFound<N(!new), D>(images: map<N, D>, folders: JsMap<N, seq<N>>, k: nat)
    requires folders.Valid() && k <= |folders.keys|
  {
    forall i :: 0 <= i < k ==> FoundAt(images, folders, i)
  }

  /** An entry without data appears exactly when a name is listed twice. */
  lemma {:induction false} DataMissing<N(!new), D>(images: map<N, D>, folders: JsMap<N, seq<N>>, k: nat)
    requires folders.Valid() && k <= |folders.keys|
    requires forall n :: n in Listed(folders, k) ==> n in images
    ensures FoldersFound(images, folders, k) <==> NoDup(Listed(folders, k))
  {
    if k > 0 {
      var before, names := Listed(folders, k - 1), folders.vals[folders.keys[k - 1]];
      InImages(before, names, images);
      DataMissing(images, folders, k - 1);
      FoundNext(images, folders, k);
      FoundNoDup(images, before, names);
    }
  }

  lemma FoundNext<N(!new), D>(images: map<N, D>, folders: JsMap<N, seq<N>>, k: nat)
    requires folders.Valid() && 0 < k <= |folders.keys|
    ensures FoldersFound(images, folders, k) <==>
      FoldersFound(images, folders, k - 1) && FoundAt(images, folders, k - 1)
  {
  }

  lemma FoundNoDup<N(!new), D>(images: map<N, D>, before: seq<N>, names: seq<N>)
    requires forall n :: n in names ==> n in images
    ensures NoDup(before) && AllFound(FolderEntries(images, names, before)) <==> NoDup(before + names)
  {
    FolderFound(images, names, before);
    NoDupConcat(before, names);
  }

  lemma InImages<N(!new), D>(s: seq<N>, t: seq<N>, images: map<N, D>)
    requires forall n :: n in s + t ==> n in images
    ensures forall n :: n in s || n in t ==> n in images
  {
    assert forall n :: n in s || n in t ==> n in s + t;
  }

  lemma NoDupConcat<N>(s: seq<N>, t: seq<N>)
    ensures NoDup(s + t) <==> NoDup(s) && forall j :: 0 <= j < |t| ==> t[j] !in s + t[..j]
  {
    var all := s + t;
    assert forall j :: 0 <= j < |t| ==> all[|s| + j] == t[j] && all[..|s| + j] == s + t[..j];
    if NoDup(all) {
      assert forall i :: 0 <= i < |s| ==> s[i] == all[i];
    }
    if NoDup(s) && forall j :: 0 <= j < |t| ==> t[j] !in s + t[..j] {
      forall i, j | 0 <= i < j < |all| ensures all[i] != all[j] {
        if j >= |s| {
          assert t[j - |s|] == all[j] && (s + t[..j - |s|])[i] == all[i];
        }
      }
    }
  }

  /** The copied map after the names `seen` were deleted from it. */
  ghost predicate Remaining<N(!new), D>(rest: JsMap<N, D>, images: JsMap<N, D>, seen: seq<N>) {
    && rest.keys == Without(images.keys, seen)
    && (forall n :: n in rest.vals <==> (n in images.vals && n !in seen))
    && (forall n :: n in rest.vals ==> rest.vals[n] == images.vals[n])
  }

  lemma {:induction false} WithoutTwice<N(!new)>(s: seq<N>, a: seq<N>, b: seq<N>)
    ensures Without(Without(s, a), b) == Without(s, a + b)
  {
    if s != [] {
      WithoutTwice(s[1..], a, b);
      var rest := Without(s[1..], a);
      if s[0] !in a {
        assert ([s[0]] + rest)[1..] == rest;
      }
    }
  }

  lemma RemainingDelete<N(!new), D>(rest: JsMap<N, D>, images: JsMap<N, D>, seen: seq<N>, n: N)
    requires Remaining(rest, images, seen)
    ensures Remaining(rest.Delete(n), images, seen + [n])
  {
    WithoutTwice(images.keys, seen, [n]);
  }

  lemma FolderEntriesNext<N(!new), D>(images: map<N, D>, names: seq<N>, seen: seq<N>, j: nat)
    requires j < |names|
    ensures FolderEntries(images, names[..j + 1], seen) == FolderEntries(images, names[..j], seen)
      + [Entry(names[j], if names[j] in images && names[j] !in seen + names[..j] then Some(images[names[j]]) else None)]
  {
    assert names[..j + 1][..j] == names[..j];
  }

  /** The inner loop: lists one folder and deletes its names from the copied map. */
  method FormatFolder<N(!new, ==), D>(images: JsMap<N, D>, copy: JsMap<N, D>, names: seq<N>, ghost seen: seq<N>)
    returns (entries: seq<Entry<N, D>>, rest: JsMap<N, D>)
    requires Remaining(copy, images, seen)
    ensures entries == FolderEntries(images.vals, names, seen)
    ensures Remaining(rest, images, seen + names)
  {
    entries, rest := [], copy;
    assert seen + names[..0] == seen;
    for j := 0 to |names|
      invariant entries == FolderEntries(images.vals, names[..j], seen)
      invariant Remaining(rest, images, seen + names[..j])
    {
      var n := names[j];
      FolderEntriesNext(images.vals, names, seen, j);
      entries := entries + [Entry(n, if n in rest.vals then Some(rest.vals[n]) else None)];
      RemainingDelete(rest, images, seen + names[..j], n);
      assert seen + names[..j + 1] == seen + names[..j] + [n];
      rest := rest.Delete(n);
    }
    assert names[..|names|] == names;
  }

  /** `format`: writes every folder, then all remaining images to `root`. */
  method Format<N(!new, ==), D>(images: JsMap<N, D>, folders: JsMap<N, seq<N>>, root: N, flatten: bool)
    returns (data: JsMap<N, seq<Entry<N, D>>>)
    requires images.Valid() && folders.Valid()
    ensures data == Formatted(images, folders, root, flatten)
  {
    var rest := images;
    data := JsMap([], map[]);
    WithoutNothing(images.keys);
    ghost var k := 0;
    if !flatten {
      for i := 0 to |folders.keys|
        invariant data == FolderData(images.vals, folders, i)
        invariant Remaining(rest, images, Listed(folders, i))
      {
        var f := folders.keys[i];
        var entries;
        entries, rest := FormatFolder(images, rest, folders.vals[f], Listed(folders, i));
        data := data.Put(f, entries);
      }
      k := |folders.keys|;
    }
    if rest.keys != [] {
      RemainingEntries(rest, images, Listed(folders, k));
      data := data.Put(root, RootEntries(rest.vals, rest.keys));
    }
  }

  lemma RemainingEntries<N(!new), D>(rest: JsMap<N, D>, images: JsMap<N, D>, seen: seq<N>)
    requires images.Valid() && Remaining(rest, images, seen)
    ensures forall n :: n in rest.keys ==> n in rest.vals && n in images.vals
    ensures RootEntries(rest.vals, rest.keys) == RootEntries(images.vals, Without(images.keys, seen))
  {
    assert forall n :: n in rest.keys ==> n in images.keys && n !in seen;
  }
}
