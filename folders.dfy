/** Folder keys of storage paths and the grouping of an event's photos by
    folder, shared by the admin event page and the public gallery (which
    differ only in the label used when a path has no folder segment), and the
    admin page's list of existing folders. */
module Folders {
  import opened Text
  import opened Seqs
  import opened Records

  /** Label of the bucket for paths without a folder on the admin page. */
  const AdminLabel: string := "uncategorized"
  /** The same label on the public gallery. */
  const PublicLabel: string := "Uncategorized"

  /** `split('/')` yields a second piece and it is not the empty string, so
      `parts[1]` is truthy. */
  predicate HasFolder(path: string) {
    var parts := Split(path, '/');
    |parts| > 1 && parts[1] != []
  }

  /** `parts[1] || dflt` with `parts = path.split('/')`: a folder key is either
      a non-empty piece holding no '/' or the default label. */
  function FolderKey(path: string, dflt: string): (key: string)
    ensures HasFolder(path) ==> key != [] && '/' !in key
    ensures !HasFolder(path) ==> key == dflt
  {
    var parts := Split(path, '/');
    if |parts| > 1 && parts[1] != [] then parts[1] else dflt
  }

  /** A path `{id}/{folder}/{rest}` with a non-empty folder is filed under that
      folder, whatever `rest` holds. */
  lemma FolderKeyOfFolderPath(id: string, folder: string, rest: string, dflt: string)
    requires '/' !in id && '/' !in folder && folder != []
    ensures FolderKey(id + ['/'] + folder + ['/'] + rest, dflt) == folder
  {
    RegroupPath(id, folder, rest);
    SplitAfterPiece(id, '/', folder + ['/'] + rest);
    SplitAfterPiece(folder, '/', rest);
  }

  lemma RegroupPath(id: string, folder: string, rest: string)
    ensures id + ['/'] + folder + ['/'] + rest == id + ['/'] + (folder + ['/'] + rest)
  {
  }

  /** An empty folder segment, as in "5//a.jpg", falls back to the label. */
  lemma FolderKeyOfEmptySegment(id: string, rest: string, dflt: string)
    requires '/' !in id
    ensures FolderKey(id + ['/'] + ['/'] + rest, dflt) == dflt
  {
    var s := ['/'] + rest;
    assert id + ['/'] + ['/'] + rest == id + ['/'] + s;
    SplitAfterPiece(id, '/', s);
    assert s[0] == '/' && s[1..] == rest;
  }

  /** A path without any '/' falls back to the label. */
  lemma FolderKeyWithoutSlash(path: string, dflt: string)
    requires '/' !in path
    ensures FolderKey(path, dflt) == dflt
  {
    SplitOfPiece(path, '/');
  }

  /** A path of two segments, as in "5/a.jpg", is filed under its second
      segment: the file name itself becomes the folder key. */
  lemma FolderKeyOfTwoSegments(id: string, name: string, dflt: string)
    requires '/' !in id && '/' !in name && name != []
    ensures FolderKey(id + ['/'] + name, dflt) == name
  {
    SplitAfterPiece(id, '/', name);
    SplitOfPiece(name, '/');
  }

  /** Changing the label changes only the key of paths without a folder. */
  lemma LabelChangesOnlyDefault(path: string, d1: string, d2: string)
    ensures FolderKey(path, d1) == FolderKey(path, d2)
         || (FolderKey(path, d1) == d1 && FolderKey(path, d2) == d2)
  {
  }

  /** `photos.map(photo => folder key of photo)`. */
  function Keys(ps: seq<Photo>, dflt: string): (ks: seq<string>)
    ensures |ks| == |ps|
  {
    if ps == [] then []
    else Keys(ps[..|ps| - 1], dflt) + [FolderKey(ps[|ps| - 1].filePath, dflt)]
  }

  /** Entry `i` of the key list is the key of photo `i`. */
  lemma {:induction false} KeysIndex(ps: seq<Photo>, dflt: string)
    ensures forall i :: 0 <= i < |ps| ==> Keys(ps, dflt)[i] == FolderKey(ps[i].filePath, dflt)
  {
    if ps != [] {
      KeysIndex(ps[..|ps| - 1], dflt);
    }
  }

  /** The photos filed under key `k`, in list order. */
  function Bucket(ps: seq<Photo>, k: string, dflt: string): seq<Photo> {
    if ps == [] then []
    else
      var b := Bucket(ps[..|ps| - 1], k, dflt);
      if FolderKey(ps[|ps| - 1].filePath, dflt) == k then b + [ps[|ps| - 1]] else b
  }

  /** The photos not filed under key `k`, in list order. */
  function Without(ps: seq<Photo>, k: string, dflt: string): seq<Photo> {
    if ps == [] then []
    else
      var w := Without(ps[..|ps| - 1], k, dflt);
      if FolderKey(ps[|ps| - 1].filePath, dflt) == k then w else w + [ps[|ps| - 1]]
  }

  /** One group per folder: its key and its photos. */
  datatype Group = Group(key: string, photos: seq<Photo>)

  /** The groups for the keys `ks`, in that order. */
  function GroupsFor(ps: seq<Photo>, ks: seq<string>, dflt: string): (gs: seq<Group>)
    ensures |gs| == |ks|
    ensures forall j :: 0 <= j < |ks| ==> gs[j] == Group(ks[j], Bucket(ps, ks[j], dflt))
  {
    if ks == [] then [] else [Group(ks[0], Bucket(ps, ks[0], dflt))] + GroupsFor(ps, ks[1..], dflt)
  }

  /** What `Object.keys(groupedPhotos).map(...)` lists: one group per distinct
      folder key, in order of first occurrence. */
  function Groups(ps: seq<Photo>, dflt: string): (gs: seq<Group>)
    ensures forall j :: 0 <= j < |gs| ==> gs[j].photos == Bucket(ps, gs[j].key, dflt)
  {
    GroupsFor(ps, Dedup(Keys(ps, dflt)), dflt)
  }

  /** All photos of the groups, group after group. */
  function Flatten(gs: seq<Group>): seq<Photo> {
    if gs == [] then [] else gs[0].photos + Flatten(gs[1..])
  }

  /** The number of photos over all groups. */
  function TotalSize(gs: seq<Group>): nat {
    if gs == [] then 0 else |gs[0].photos| + TotalSize(gs[1..])
  }

  /** The admin page's folder dropdown, `Array.from(new Set(keys))`. */
  function ExistingFolders(ps: seq<Photo>): (fs: seq<string>)
    ensures NoDup(fs)
    ensures forall k :: k in fs <==> k in Keys(ps, AdminLabel)
  {
    Dedup(Keys(ps, AdminLabel))
  }

  /** Names an empty object already answers through `Object.prototype`: for
      such a key `acc[key]` is truthy but has no `push`, so the reduce throws. */
  const PrototypeNames: set<string> := {
    "constructor", "__proto__", "hasOwnProperty", "isPrototypeOf",
    "propertyIsEnumerable", "toString", "valueOf", "toLocaleString",
    "__defineGetter__", "__defineSetter__", "__lookupGetter__", "__lookupSetter__"
  }

  /** A canonical array index ("0", or digits without a leading zero below
      2^32 - 1): `Object.keys` lists such keys first, in numeric order. */
  predicate IsArrayIndex(k: string) {
    && k != []
    && (forall i :: 0 <= i < |k| ==> '0' <= k[i] <= '9')
    && (k[0] != '0' || k == "0")
    && DecimalValue(k) < 0xFFFF_FFFF
  }

  /** The reduce completes: no key is an `Object.prototype` member name. */
  predicate NoPrototypeKey(ps: seq<Photo>, dflt: string) {
    forall i :: 0 <= i < |ps| ==> FolderKey(ps[i].filePath, dflt) !in PrototypeNames
  }

  /** The accumulator's keys are enumerated in insertion order: no key is an
      array index. */
  predicate NoIndexKey(ps: seq<Photo>, dflt: string) {
    forall i :: 0 <= i < |ps| ==> !IsArrayIndex(FolderKey(ps[i].filePath, dflt))
  }

  /** The outcome of grouping: the reduce throws, or the list of groups. */
  function Grouping(ps: seq<Photo>, dflt: string): (r: Option<seq<Group>>)
    ensures r.None? <==> exists i :: 0 <= i < |ps| && FolderKey(ps[i].filePath, dflt) in PrototypeNames
  {
    if NoPrototypeKey(ps, dflt) then Some(Groups(ps, dflt)) else None
  }

  /** The `groupedPhotos` reduce followed by `Object.keys`: each photo is
      pushed onto the array of its folder key, created on first use; the
      reduce throws at the first photo whose key names an `Object.prototype`
      member. */
  method GroupPhotos(photos: seq<Photo>, dflt: string) returns (r: Option<seq<Group>>)
    requires NoIndexKey(photos, dflt)
    ensures r == Grouping(photos, dflt)
  {
    var order: seq<string> := [];
    var acc: map<string, seq<Photo>> := map[];
    for i := 0 to |photos|
      invariant Accumulates(photos, i, order, acc, dflt)
      invariant NoPrototypeKey(photos[..i], dflt)
    {
      var photo := photos[i];
      var key := FolderKey(photo.filePath, dflt);
      if key in PrototypeNames {
        assert !NoPrototypeKey(photos, dflt) by {
          assert FolderKey(photos[i].filePath, dflt) in PrototypeNames;
        }
        return None;
      }
      StepKeys(photos, i, dflt);
      PushStep(photos, i, order, acc, dflt);
      if key !in acc {
        order := order + [key];
      }
      var bucket := if key in acc then acc[key] else [];
      acc := acc[key := bucket + [photo]];
    }
    assert photos[..|photos|] == photos;
    AccumulatedGroups(photos, order, acc, dflt);
    r := Some(seq(|order|, j requires 0 <= j < |order| => Group(order[j], acc[order[j]])));
  }

  /** The accumulator after the first `i` photos: its keys, in insertion
      order, are the distinct keys of those photos, and each key maps to its
      bucket. */
  ghost predicate Accumulates(ps: seq<Photo>, i: nat, order: seq<string>, acc: map<string, seq<Photo>>, dflt: string)
    requires i <= |ps|
  {
    && order == Dedup(Keys(ps[..i], dflt))
    && (forall k :: k in acc <==> k in order)
    && (forall k :: k in acc ==> acc[k] == Bucket(ps[..i], k, dflt))
  }

  /** Pushing photo `i` onto the array of its key, created when missing, keeps
      the accumulator in step with the photos seen. */
  lemma PushStep(ps: seq<Photo>, i: nat, order: seq<string>, acc: map<string, seq<Photo>>, dflt: string)
    requires i < |ps| && Accumulates(ps, i, order, acc, dflt)
    ensures var key := FolderKey(ps[i].filePath, dflt);
      Accumulates(ps, i + 1,
        if key in acc then order else order + [key],
        acc[key := (if key in acc then acc[key] else []) + [ps[i]]], dflt)
  {
    var key := FolderKey(ps[i].filePath, dflt);
    StepKeys(ps, i, dflt);
    if key !in acc {
      BucketOfAbsentKey(ps[..i], key, dflt);
    }
    var bucket := if key in acc then acc[key] else [];
    assert bucket == Bucket(ps[..i], key, dflt);
    var acc1 := acc[key := bucket + [ps[i]]];
    forall k | k in acc1 ensures acc1[k] == Bucket(ps[..i + 1], k, dflt) {
      if k != key {
        assert acc1[k] == acc[k] == Bucket(ps[..i], k, dflt);
      }
    }
  }

  /** Listing the finished accumulator key by key gives the groups. */
  lemma AccumulatedGroups(ps: seq<Photo>, order: seq<string>, acc: map<string, seq<Photo>>, dflt: string)
    requires Accumulates(ps, |ps|, order, acc, dflt)
    ensures seq(|order|, j requires 0 <= j < |order| => Group(order[j], acc[order[j]])) == Groups(ps, dflt)
  {
    assert ps[..|ps|] == ps;
  }

  /** How one more photo changes the key list, its de-duplicated form and the
      buckets. */
  lemma StepKeys(ps: seq<Photo>, i: nat, dflt: string)
    requires i < |ps|
    ensures Keys(ps[..i + 1], dflt) == Keys(ps[..i], dflt) + [FolderKey(ps[i].filePath, dflt)]
    ensures var key := FolderKey(ps[i].filePath, dflt);
      Dedup(Keys(ps[..i + 1], dflt))
        == if key in Dedup(Keys(ps[..i], dflt)) then Dedup(Keys(ps[..i], dflt)) else Dedup(Keys(ps[..i], dflt)) + [key]
    ensures Bucket(ps[..i + 1], FolderKey(ps[i].filePath, dflt), dflt)
        == Bucket(ps[..i], FolderKey(ps[i].filePath, dflt), dflt) + [ps[i]]
    ensures forall k :: k != FolderKey(ps[i].filePath, dflt) ==> Bucket(ps[..i + 1], k, dflt) == Bucket(ps[..i], k, dflt)
    ensures NoPrototypeKey(ps[..i], dflt) && FolderKey(ps[i].filePath, dflt) !in PrototypeNames
        ==> NoPrototypeKey(ps[..i + 1], dflt)
  {
    StepKeyList(ps, i, dflt);
    StepBuckets(ps, i, dflt);
    StepNoPrototypeKey(ps, i, dflt);
  }

  lemma StepKeyList(ps: seq<Photo>, i: nat, dflt: string)
    requires i < |ps|
    ensures Keys(ps[..i + 1], dflt) == Keys(ps[..i], dflt) + [FolderKey(ps[i].filePath, dflt)]
  {
    assert ps[..i + 1][..i] == ps[..i];
  }

  lemma StepBuckets(ps: seq<Photo>, i: nat, dflt: string)
    requires i < |ps|
    ensures Bucket(ps[..i + 1], FolderKey(ps[i].filePath, dflt), dflt)
        == Bucket(ps[..i], FolderKey(ps[i].filePath, dflt), dflt) + [ps[i]]
    ensures forall k :: k != FolderKey(ps[i].filePath, dflt) ==> Bucket(ps[..i + 1], k, dflt) == Bucket(ps[..i], k, dflt)
  {
    assert ps[..i + 1][..i] == ps[..i];
  }

  lemma StepNoPrototypeKey(ps: seq<Photo>, i: nat, dflt: string)
    requires i < |ps|
    ensures NoPrototypeKey(ps[..i], dflt) && FolderKey(ps[i].filePath, dflt) !in PrototypeNames
        ==> NoPrototypeKey(ps[..i + 1], dflt)
  {
  }

  /** A key no photo has gets an empty bucket. */
  lemma {:induction false} BucketOfAbsentKey(ps: seq<Photo>, k: string, dflt: string)
    requires k !in Keys(ps, dflt)
    ensures Bucket(ps, k, dflt) == []
  {
    if ps != [] {
      var ks := Keys(ps, dflt);
      assert ks[..|ks| - 1] == Keys(ps[..|ps| - 1], dflt);
      assert ks[|ks| - 1] == FolderKey(ps[|ps| - 1].filePath, dflt);
      BucketOfAbsentKey(ps[..|ps| - 1], k, dflt);
    }
  }

  /** The keys of a list of groups. */
  function GroupKeysOf(gs: seq<Group>): (ks: seq<string>)
    ensures |ks| == |gs| && forall j :: 0 <= j < |gs| ==> ks[j] == gs[j].key
  {
    seq(|gs|, j requires 0 <= j < |gs| => gs[j].key)
  }

  /** The keys of the groups are the distinct folder keys of the photos: no
      key is listed twice and every photo's key is listed. */
  lemma GroupKeys(ps: seq<Photo>, dflt: string)
    ensures GroupKeysOf(Groups(ps, dflt)) == Dedup(Keys(ps, dflt))
    ensures NoDup(GroupKeysOf(Groups(ps, dflt)))
    ensures forall k :: k in GroupKeysOf(Groups(ps, dflt)) <==> k in Keys(ps, dflt)
  {
    var ks := Keys(ps, dflt);
    var d := Dedup(ks);
    assert GroupKeysOf(Groups(ps, dflt)) == d;
    forall k | k in ks ensures k in d {
      var i :| 0 <= i < |ks| && ks[i] == k;
    }
    forall k | k in d ensures k in ks {
      var i :| 0 <= i < |d| && d[i] == k;
    }
  }

  /** A bucket holds exactly the photos of the list whose key is its key. */
  lemma {:induction false} BucketMembers(ps: seq<Photo>, k: string, dflt: string)
    ensures forall p :: p in Bucket(ps, k, dflt) <==> p in ps && FolderKey(p.filePath, dflt) == k
  {
    if ps != [] {
      var init := ps[..|ps| - 1];
      BucketMembers(init, k, dflt);
      assert ps == init + [ps[|ps| - 1]];
    }
  }

  /** A bucket keeps the relative order of the photo list. */
  lemma {:induction false} BucketKeepsOrder(ps: seq<Photo>, k: string, dflt: string)
    ensures IsSubsequence(Bucket(ps, k, dflt), ps)
  {
    if ps != [] {
      var init := ps[..|ps| - 1];
      BucketKeepsOrder(init, k, dflt);
      assert ps == init + [ps[|ps| - 1]];
      SubsequenceSnoc(Bucket(init, k, dflt), init, ps[|ps| - 1]);
    }
  }

  /** Photos listed by ascending creation time stay so within each bucket. */
  lemma {:induction false} BucketSorted(ps: seq<Photo>, k: string, dflt: string)
    requires SortedByTime(ps)
    ensures SortedByTime(Bucket(ps, k, dflt))
  {
    if ps != [] {
      var init, last := ps[..|ps| - 1], ps[|ps| - 1];
      assert SortedByTime(init);
      BucketSorted(init, k, dflt);
      BucketMembers(init, k, dflt);
      var b := Bucket(init, k, dflt);
      forall p | p in b ensures p.createdAt <= last.createdAt {
        var i :| 0 <= i < |init| && init[i] == p;
        assert ps[i] == p;
      }
    }
  }

  /** The bucket of `k` and the rest together hold each photo as often as the
      list does. */
  lemma {:induction false} BucketAndRest(ps: seq<Photo>, k: string, dflt: string)
    ensures multiset(Bucket(ps, k, dflt)) + multiset(Without(ps, k, dflt)) == multiset(ps)
  {
    if ps != [] {
      var init := ps[..|ps| - 1];
      BucketAndRest(init, k, dflt);
      assert ps == init + [ps[|ps| - 1]];
    }
  }

  /** Removing the photos of `k0` leaves every other bucket as it was. */
  lemma {:induction false} BucketOfRest(ps: seq<Photo>, k0: string, k: string, dflt: string)
    requires k != k0
    ensures Bucket(Without(ps, k0, dflt), k, dflt) == Bucket(ps, k, dflt)
  {
    if ps != [] {
      var init, last := ps[..|ps| - 1], ps[|ps| - 1];
      BucketOfRest(init, k0, k, dflt);
      var w := Without(init, k0, dflt);
      if FolderKey(last.filePath, dflt) != k0 {
        assert (w + [last])[..|w + [last]| - 1] == w;
      }
    }
  }

  /** Every photo left after removing `k0` has one of the keys other than `k0`. */
  lemma {:induction false} RestKeys(ps: seq<Photo>, k0: string, dflt: string)
    ensures forall p :: p in Without(ps, k0, dflt) ==> p in ps && FolderKey(p.filePath, dflt) != k0
  {
    if ps != [] {
      var init := ps[..|ps| - 1];
      RestKeys(init, k0, dflt);
      assert ps == init + [ps[|ps| - 1]];
    }
  }

  lemma {:induction false} FlattenGroupsFor(ps: seq<Photo>, ks: seq<string>, dflt: string)
    requires NoDup(ks)
    requires forall p :: p in ps ==> FolderKey(p.filePath, dflt) in ks
    ensures multiset(Flatten(GroupsFor(ps, ks, dflt))) == multiset(ps)
    decreases |ks|
  {
    if ks == [] {
      assert ps == [];
    } else {
      var k0, rest := ks[0], ks[1..];
      var w := Without(ps, k0, dflt);
      RestKeys(ps, k0, dflt);
      forall p | p in w ensures FolderKey(p.filePath, dflt) in rest {
        assert FolderKey(p.filePath, dflt) in ks;
      }
      FlattenGroupsFor(w, rest, dflt);
      forall j | 0 <= j < |rest| ensures Bucket(w, rest[j], dflt) == Bucket(ps, rest[j], dflt) {
        assert rest[j] == ks[j + 1] != ks[0];
        BucketOfRest(ps, k0, rest[j], dflt);
      }
      assert GroupsFor(w, rest, dflt) == GroupsFor(ps, rest, dflt);
      BucketAndRest(ps, k0, dflt);
    }
  }

  lemma {:induction false} TotalSizeIsFlatLength(gs: seq<Group>)
    ensures TotalSize(gs) == |Flatten(gs)|
  {
    if gs != [] {
      TotalSizeIsFlatLength(gs[1..]);
    }
  }

  /** Grouping is a partition of the photo list: together the groups hold each
      photo exactly as often as the list does, so their sizes add up to the
      number of photos. */
  lemma GroupsPartition(ps: seq<Photo>, dflt: string)
    ensures multiset(Flatten(Groups(ps, dflt))) == multiset(ps)
    ensures TotalSize(Groups(ps, dflt)) == |ps|
  {
    var ks := Keys(ps, dflt);
    KeysIndex(ps, dflt);
    forall p | p in ps ensures FolderKey(p.filePath, dflt) in Dedup(ks) {
      var i :| 0 <= i < |ps| && ps[i] == p;
      assert ks[i] in Dedup(ks);
    }
    FlattenGroupsFor(ps, Dedup(ks), dflt);
    TotalSizeIsFlatLength(Groups(ps, dflt));
    assert |multiset(Flatten(Groups(ps, dflt)))| == |multiset(ps)|;
  }

  /** Each group holds exactly the photos of its key, in list order, and keeps
      the ascending creation order of the list. */
  lemma GroupContents(ps: seq<Photo>, dflt: string, j: nat)
    requires j < |Groups(ps, dflt)|
    ensures var g := Groups(ps, dflt)[j];
      && (forall p :: p in g.photos <==> p in ps && FolderKey(p.filePath, dflt) == g.key)
      && IsSubsequence(g.photos, ps)
      && (SortedByTime(ps) ==> SortedByTime(g.photos))
  {
    var g := Groups(ps, dflt)[j];
    BucketMembers(ps, g.key, dflt);
    BucketKeepsOrder(ps, g.key, dflt);
    if SortedByTime(ps) {
      BucketSorted(ps, g.key, dflt);
    }
  }

  /** Groups are listed in order of the first photo of each folder. */
  lemma GroupOrder(ps: seq<Photo>, dflt: string)
    ensures forall j, l :: 0 <= j < l < |Groups(ps, dflt)| ==>
      FirstIndex(Keys(ps, dflt), Groups(ps, dflt)[j].key) < FirstIndex(Keys(ps, dflt), Groups(ps, dflt)[l].key)
  {
    DedupFirstOccurrenceOrder(Keys(ps, dflt));
  }

  /** There are no groups exactly when there are no photos. */
  lemma NoGroupsIffNoPhotos(ps: seq<Photo>, dflt: string)
    ensures |Groups(ps, dflt)| == 0 <==> ps == []
  {
    if ps != [] {
      assert Keys(ps, dflt)[0] in Dedup(Keys(ps, dflt));
    }
  }

  /** The admin dropdown lists the admin groups' keys: no duplicates, exactly
      the folder keys of the photos, in order of first occurrence. */
  lemma ExistingFoldersAreGroupKeys(ps: seq<Photo>)
    ensures ExistingFolders(ps) == GroupKeysOf(Groups(ps, AdminLabel))
    ensures NoDup(ExistingFolders(ps))
    ensures forall k :: k in ExistingFolders(ps) <==> k in Keys(ps, AdminLabel)
    ensures forall j, l :: 0 <= j < l < |ExistingFolders(ps)| ==>
      FirstIndex(Keys(ps, AdminLabel), ExistingFolders(ps)[j]) < FirstIndex(Keys(ps, AdminLabel), ExistingFolders(ps)[l])
  {
    GroupKeys(ps, AdminLabel);
    DedupFirstOccurrenceOrder(Keys(ps, AdminLabel));
  }
}
